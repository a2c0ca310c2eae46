/** The life of recorded segments across the index and two object stores, one store or index operation
    at a time. Every operation may succeed, fail without effect, or fail after taking effect, and the
    process may crash between any two of them. Activities on different segments interleave freely;
    there is one activity at a time per segment. */
module StorageProtocol {
  type Key = string

  datatype Tier = Local | S3

  datatype Row = Row(tier: Tier, size: nat, start: int)

  /** Where an activity on a segment stands: the operation it performs next. */
  datatype Pc =
    | FlushPut(row: Row) | FlushInsert(row: Row) | FlushUndo(row: Row)
    | TierOpen(size: nat) | TierPut(size: nat) | TierStat(size: nat) | TierMark(size: nat) | TierClean
    | EvictObject(tier: Tier) | EvictRow

  /** The index, the sizes of the objects in both stores, the activities, and four records of the past:
      keys ever flushed and those flushed more than once, rows whose object an eviction has removed, and
      rows that took effect in the index although the insert reported an error and whose object the undo
      then removed. */
  datatype State = State(rows: map<Key, Row>, local: map<Key, nat>, s3: map<Key, nat>,
                         busy: map<Key, Pc>, used: set<Key>, reused: set<Key>, doomed: set<Key>, torn: set<Key>)

  datatype Outcome = Succeeds | FailsBefore | FailsAfter

  /** The stored size is what an S3 upload left behind; other operations ignore it. */
  datatype Action =
    | BeginFlush(key: Key, row: Row)
    | BeginTier(key: Key)
    | BeginEvict(key: Key)
    | Advance(key: Key, outcome: Outcome, stored: nat)
    | Crash

  function Init(): State {
    State(map[], map[], map[], map[], {}, {}, {}, {})
  }

  function Stop(s: State, k: Key): State {
    s.(busy := s.busy - {k})
  }

  function Go(s: State, k: Key, pc: Pc): State {
    s.(busy := s.busy[k := pc])
  }

  predicate Effective(o: Outcome) {
    o != FailsBefore
  }

  function Insert(s: State, k: Key, row: Row): State {
    if k in s.rows then s else s.(rows := s.rows[k := row])
  }

  function FlushStep(s: State, k: Key, pc: Pc, o: Outcome): State
    requires pc.FlushPut? || pc.FlushInsert? || pc.FlushUndo?
  {
    match pc
    case FlushPut(row) =>
      var put := if Effective(o) then s.(local := s.local[k := row.size]) else s;
      if o.Succeeds? then Go(put, k, FlushInsert(row)) else Stop(put, k)
    case FlushInsert(row) =>
      var inserted := if Effective(o) then Insert(s, k, row) else s;
      if o.Succeeds? then Stop(inserted, k) else Go(inserted, k, FlushUndo(row))
    case FlushUndo(row) =>
      if !Effective(o) then Stop(s, k)
      else Stop(s.(local := s.local - {k}, torn := if k in s.rows then s.torn + {k} else s.torn), k)
  }

  function Mark(s: State, k: Key): State {
    if k in s.rows then s.(rows := s.rows[k := s.rows[k].(tier := S3)]) else s
  }

  function TierStep(s: State, k: Key, pc: Pc, o: Outcome, stored: nat): State
    requires pc.TierOpen? || pc.TierPut? || pc.TierStat? || pc.TierMark? || pc.TierClean?
  {
    match pc
    case TierOpen(size) => if o.Succeeds? && k in s.local then Go(s, k, TierPut(size)) else Stop(s, k)
    case TierPut(size) =>
      var put := if Effective(o) then s.(s3 := s.s3[k := stored]) else s;
      if o.Succeeds? then Go(put, k, TierStat(size)) else Stop(put, k)
    case TierStat(size) =>
      if o.Succeeds? && k in s.s3 && s.s3[k] == size then Go(s, k, TierMark(size)) else Stop(s, k)
    case TierMark(size) =>
      var marked := if Effective(o) then Mark(s, k) else s;
      if o.Succeeds? then Go(marked, k, TierClean) else Stop(marked, k)
    case TierClean => Stop(if Effective(o) then s.(local := s.local - {k}) else s, k)
  }

  /** Deleting an object that is not there is no error. */
  function Remove(s: State, k: Key, tier: Tier): State {
    if tier.Local? then s.(local := s.local - {k}, doomed := s.doomed + {k})
    else s.(s3 := s.s3 - {k}, doomed := s.doomed + {k})
  }

  function DeleteRow(s: State, k: Key): State {
    s.(rows := s.rows - {k}, doomed := s.doomed - {k})
  }

  function EvictStep(s: State, k: Key, pc: Pc, o: Outcome): State
    requires pc.EvictObject? || pc.EvictRow?
  {
    match pc
    case EvictObject(tier) =>
      var removed := if Effective(o) then Remove(s, k, tier) else s;
      if o.Succeeds? then Go(removed, k, EvictRow) else Stop(removed, k)
    case EvictRow => Stop(if Effective(o) then DeleteRow(s, k) else s, k)
  }

  function Step(s: State, a: Action): State {
    match a
    case BeginFlush(k, row) =>
      if k in s.busy || !row.tier.Local? then s
      else
        s.(used := s.used + {k}, reused := if k in s.used then s.reused + {k} else s.reused,
           busy := s.busy[k := FlushPut(row)])
    case BeginTier(k) =>
      if k in s.busy || k !in s.rows || !s.rows[k].tier.Local? then s else Go(s, k, TierOpen(s.rows[k].size))
    case BeginEvict(k) =>
      if k in s.busy || k !in s.rows then s else Go(s, k, EvictObject(s.rows[k].tier))
    case Advance(k, o, stored) =>
      if k !in s.busy then s
      else
        var pc := s.busy[k];
        if pc.FlushPut? || pc.FlushInsert? || pc.FlushUndo? then FlushStep(s, k, pc, o)
        else if pc.EvictObject? || pc.EvictRow? then EvictStep(s, k, pc, o)
        else TierStep(s, k, pc, o, stored)
    case Crash => s.(busy := map[])
  }

  function Run(s: State, run: seq<Action>): State {
    if run == [] then s else Step(Run(s, run[..|run| - 1]), run[|run| - 1])
  }

  // ---- the invariant -----------------------------------------------------------------------

  function Store(s: State, tier: Tier): map<Key, nat> {
    if tier.Local? then s.local else s.s3
  }

  /** The row names a tier that holds its object at the recorded size. */
  predicate Healthy(s: State, k: Key)
    requires k in s.rows
  {
    var store := Store(s, s.rows[k].tier);
    k in store && store[k] == s.rows[k].size
  }

  predicate Gone(s: State, k: Key)
    requires k in s.rows
  {
    k !in Store(s, s.rows[k].tier)
  }

  predicate RowOk(s: State, k: Key) {
    k in s.rows && k !in s.reused ==>
      && k in s.used
      && (if k in s.doomed || k in s.torn then Gone(s, k) else Healthy(s, k))
  }

  predicate PcOk(s: State, k: Key) {
    k in s.busy && k !in s.reused ==>
      match s.busy[k]
      case FlushPut(row) => row.tier.Local? && k !in s.rows
      case FlushInsert(row) => row.tier.Local? && k !in s.rows && k in s.local && s.local[k] == row.size
      case FlushUndo(row) => k in s.rows ==> s.rows[k] == row && row.tier.Local?
      case TierOpen(size) => k in s.rows && s.rows[k].tier.Local? && s.rows[k].size == size
      case TierPut(size) => k in s.rows && s.rows[k].tier.Local? && s.rows[k].size == size && k in s.local
      case TierStat(size) => k in s.rows && s.rows[k].tier.Local? && s.rows[k].size == size && k in s.local
      case TierMark(size) =>
        k in s.rows && s.rows[k].tier.Local? && s.rows[k].size == size && k in s.local && k in s.s3 && s.s3[k] == size
      case TierClean => k in s.rows && s.rows[k].tier.S3?
      case EvictObject(tier) => k in s.rows && s.rows[k].tier == tier
      case EvictRow => k in s.rows && Gone(s, k) && k in s.doomed
  }

  predicate MarksOk(s: State, k: Key) {
    && (k in s.busy || k in s.torn || k in s.rows || k in s.reused ==> k in s.used)
    && (k in s.doomed && k !in s.reused ==> k in s.rows)
    && (k in s.busy && k !in s.reused && (s.busy[k].FlushPut? || s.busy[k].FlushInsert? || s.busy[k].FlushUndo?) ==>
          k !in s.doomed && k !in s.torn)
  }

  ghost predicate Inv(s: State) {
    forall k :: RowOk(s, k) && PcOk(s, k) && MarksOk(s, k)
  }

  /** Nothing about key k differs, except that its activity may have died. */
  predicate SameKey(s: State, t: State, k: Key) {
    && (k in s.rows <==> k in t.rows) && (k in s.rows ==> t.rows[k] == s.rows[k])
    && (k in s.local <==> k in t.local) && (k in s.local ==> t.local[k] == s.local[k])
    && (k in s.s3 <==> k in t.s3) && (k in s.s3 ==> t.s3[k] == s.s3[k])
    && (k in t.busy ==> k in s.busy && t.busy[k] == s.busy[k])
    && (k in s.used ==> k in t.used) && (k in s.reused <==> k in t.reused)
    && (k in s.doomed <==> k in t.doomed) && (k in s.torn <==> k in t.torn)
  }

  lemma Untouched(s: State, t: State, k: Key)
    requires RowOk(s, k) && PcOk(s, k) && MarksOk(s, k) && SameKey(s, t, k)
    ensures RowOk(t, k) && PcOk(t, k) && MarksOk(t, k)
  {
  }

  lemma FlushElsewhere(s: State, j: Key, o: Outcome, k: Key)
    requires j != k && j in s.busy && (s.busy[j].FlushPut? || s.busy[j].FlushInsert? || s.busy[j].FlushUndo?)
    ensures SameKey(s, FlushStep(s, j, s.busy[j], o), k)
  {
  }

  lemma TierElsewhere(s: State, j: Key, o: Outcome, stored: nat, k: Key)
    requires j != k && j in s.busy
    requires var pc := s.busy[j]; pc.TierOpen? || pc.TierPut? || pc.TierStat? || pc.TierMark? || pc.TierClean?
    ensures SameKey(s, TierStep(s, j, s.busy[j], o, stored), k)
  {
  }

  lemma EvictElsewhere(s: State, j: Key, o: Outcome, k: Key)
    requires j != k && j in s.busy && (s.busy[j].EvictObject? || s.busy[j].EvictRow?)
    ensures SameKey(s, EvictStep(s, j, s.busy[j], o), k)
  {
  }

  /** A step on one key leaves the others alone. */
  lemma StepElsewhere(s: State, a: Action, k: Key)
    requires a == Crash || a.key != k
    ensures SameKey(s, Step(s, a), k)
  {
    hide FlushStep, TierStep, EvictStep;
    if a.Advance? && a.key in s.busy {
      var j := a.key;
      var pc := s.busy[j];
      if pc.FlushPut? || pc.FlushInsert? || pc.FlushUndo? {
        FlushElsewhere(s, j, a.outcome, k);
      } else if pc.EvictObject? || pc.EvictRow? {
        EvictElsewhere(s, j, a.outcome, k);
      } else {
        TierElsewhere(s, j, a.outcome, a.stored, k);
      }
    }
  }

  lemma BeginKeepsKey(s: State, a: Action)
    requires Inv(s) && (a.BeginFlush? || a.BeginTier? || a.BeginEvict?)
    ensures var t := Step(s, a); RowOk(t, a.key) && PcOk(t, a.key) && MarksOk(t, a.key)
  {
    assert RowOk(s, a.key) && PcOk(s, a.key) && MarksOk(s, a.key);
  }

  lemma FlushKeepsKey(s: State, k: Key, o: Outcome)
    requires Inv(s) && k in s.busy && (s.busy[k].FlushPut? || s.busy[k].FlushInsert? || s.busy[k].FlushUndo?)
    ensures var t := FlushStep(s, k, s.busy[k], o); RowOk(t, k) && PcOk(t, k) && MarksOk(t, k)
  {
    assert RowOk(s, k) && PcOk(s, k) && MarksOk(s, k);
  }

  lemma TierKeepsKey(s: State, k: Key, o: Outcome, stored: nat)
    requires Inv(s) && k in s.busy
    requires var pc := s.busy[k]; pc.TierOpen? || pc.TierPut? || pc.TierStat? || pc.TierMark? || pc.TierClean?
    ensures var t := TierStep(s, k, s.busy[k], o, stored); RowOk(t, k) && PcOk(t, k) && MarksOk(t, k)
  {
    assert RowOk(s, k) && PcOk(s, k) && MarksOk(s, k);
  }

  lemma EvictKeepsKey(s: State, k: Key, o: Outcome)
    requires Inv(s) && k in s.busy && (s.busy[k].EvictObject? || s.busy[k].EvictRow?)
    ensures var t := EvictStep(s, k, s.busy[k], o); RowOk(t, k) && PcOk(t, k) && MarksOk(t, k)
  {
    assert RowOk(s, k) && PcOk(s, k) && MarksOk(s, k);
  }

  lemma StepKeepsInv(s: State, a: Action)
    requires Inv(s)
    ensures Inv(Step(s, a))
  {
    hide RowOk, PcOk, MarksOk, FlushStep, TierStep, EvictStep, SameKey;
    var t := Step(s, a);
    forall k ensures RowOk(t, k) && PcOk(t, k) && MarksOk(t, k) {
      if a == Crash || a.key != k {
        assert RowOk(s, k) && PcOk(s, k) && MarksOk(s, k);
        StepElsewhere(s, a, k);
        Untouched(s, t, k);
      } else if !a.Advance? {
        BeginKeepsKey(s, a);
      } else if k in s.busy {
        var pc := s.busy[k];
        if pc.FlushPut? || pc.FlushInsert? || pc.FlushUndo? {
          FlushKeepsKey(s, k, a.outcome);
        } else if pc.EvictObject? || pc.EvictRow? {
          EvictKeepsKey(s, k, a.outcome);
        } else {
          TierKeepsKey(s, k, a.outcome, a.stored);
        }
      }
    }
  }

  // ---- runs --------------------------------------------------------------------------------

  lemma {:induction false} RunKeepsInv(run: seq<Action>)
    ensures Inv(Run(Init(), run))
  {
    if run != [] {
      RunKeepsInv(run[..|run| - 1]);
      StepKeepsInv(Run(Init(), run[..|run| - 1]), run[|run| - 1]);
    }
  }

  /** This step is an undo that takes the object from under a row of the index. */
  predicate Undoes(s: State, a: Action, k: Key) {
    a.Advance? && a.key == k && Effective(a.outcome) && k in s.busy && s.busy[k].FlushUndo? && k in s.rows
  }

  /** This step is an eviction that removes the object. */
  predicate Removes(s: State, a: Action, k: Key) {
    a.Advance? && a.key == k && Effective(a.outcome) && k in s.busy && s.busy[k].EvictObject?
  }

  ghost predicate EverUndone(run: seq<Action>, k: Key) {
    exists i :: 0 <= i < |run| && Undoes(Run(Init(), run[..i]), run[i], k)
  }

  ghost predicate EverRemoved(run: seq<Action>, k: Key) {
    exists i :: 0 <= i < |run| && Removes(Run(Init(), run[..i]), run[i], k)
  }

  lemma EverUndoneSnoc(run: seq<Action>, k: Key)
    requires run != []
    ensures var g := run[..|run| - 1];
      EverUndone(run, k) <==> EverUndone(g, k) || Undoes(Run(Init(), g), run[|run| - 1], k)
  {
    hide Undoes, Run;
    var g := run[..|run| - 1];
    assert forall i :: 0 <= i < |g| ==> g[..i] == run[..i] && g[i] == run[i];
  }

  lemma EverRemovedSnoc(run: seq<Action>, k: Key)
    requires run != []
    ensures var g := run[..|run| - 1];
      EverRemoved(run, k) <==> EverRemoved(g, k) || Removes(Run(Init(), g), run[|run| - 1], k)
  {
    hide Removes, Run;
    var g := run[..|run| - 1];
    assert forall i :: 0 <= i < |g| ==> g[..i] == run[..i] && g[i] == run[i];
  }

  lemma TierLeavesMarks(s: State, k: Key, o: Outcome, stored: nat)
    requires k in s.busy
    ensures var pc := s.busy[k]; pc.TierOpen? || pc.TierPut? || pc.TierStat? || pc.TierMark? || pc.TierClean? ==>
      var t := TierStep(s, k, pc, o, stored);
      && t.torn == s.torn && t.doomed == s.doomed && t.used == s.used && t.reused == s.reused
      && (k in t.rows <==> k in s.rows) && (k in t.busy ==> !t.busy[k].EvictObject?)
  {
  }

  lemma TornByStep(s: State, a: Action, k: Key)
    ensures k in Step(s, a).torn <==> k in s.torn || Undoes(s, a, k)
  {
    hide TierStep;
    if a == Crash || a.key != k {
      StepElsewhere(s, a, k);
    } else if a.Advance? && k in s.busy {
      TierLeavesMarks(s, k, a.outcome, a.stored);
    }
  }

  /** A key is marked torn exactly when some undo of the run took the object from under its row. */
  lemma {:induction false} TornExactly(run: seq<Action>, k: Key)
    ensures k in Run(Init(), run).torn <==> EverUndone(run, k)
  {
    hide Undoes, Step;
    if run != [] {
      var g, a := run[..|run| - 1], run[|run| - 1];
      TornExactly(g, k);
      EverUndoneSnoc(run, k);
      TornByStep(Run(Init(), g), a, k);
    }
  }

  /** What holds of a key once an eviction has removed its object. */
  predicate RemovedBefore(s: State, k: Key) {
    k in s.reused || k in s.doomed || (k !in s.rows && k !in s.busy && k in s.used)
  }

  lemma RemovalByAdvance(s: State, a: Action)
    requires a.Advance? && a.key in s.busy && RowOk(s, a.key) && PcOk(s, a.key) && MarksOk(s, a.key)
    ensures var t, k := Step(s, a), a.key;
      && (RemovedBefore(s, k) || Removes(s, a, k) ==> RemovedBefore(t, k))
      && (k in t.doomed ==> k in s.doomed || Removes(s, a, k))
  {
    hide TierStep;
    TierLeavesMarks(s, a.key, a.outcome, a.stored);
  }

  lemma RemovalByStep(s: State, a: Action, k: Key)
    requires RowOk(s, k) && PcOk(s, k) && MarksOk(s, k)
    ensures RemovedBefore(s, k) || Removes(s, a, k) ==> RemovedBefore(Step(s, a), k)
    ensures k in Step(s, a).doomed ==> k in s.doomed || Removes(s, a, k)
  {
    hide FlushStep, TierStep, EvictStep;
    if a == Crash || a.key != k {
      StepElsewhere(s, a, k);
    } else if a.Advance? && k in s.busy {
      RemovalByAdvance(s, a);
    }
  }

  /** The row of a key flushed once is marked doomed exactly when some eviction of the run removed its
      object. */
  lemma {:induction false} DoomedExactly(run: seq<Action>, k: Key)
    ensures var s := Run(Init(), run);
      && (EverRemoved(run, k) ==> RemovedBefore(s, k))
      && (k in s.doomed ==> EverRemoved(run, k))
      && (k in s.rows && k !in s.reused ==> (k in s.doomed <==> EverRemoved(run, k)))
  {
    hide Removes, Step, RowOk, PcOk, MarksOk;
    if run != [] {
      var g, a := run[..|run| - 1], run[|run| - 1];
      DoomedExactly(g, k);
      RunKeepsInv(g);
      EverRemovedSnoc(run, k);
      assert RowOk(Run(Init(), g), k) && PcOk(Run(Init(), g), k) && MarksOk(Run(Init(), g), k);
      RemovalByStep(Run(Init(), g), a, k);
    }
  }

  predicate Evicting(s: State, k: Key) {
    k in s.busy && (s.busy[k].EvictObject? || s.busy[k].EvictRow?)
  }

  lemma EvictionBegins(s: State, a: Action, k: Key)
    requires !Evicting(s, k) && a != BeginEvict(k)
    ensures !Evicting(Step(s, a), k) && !Removes(s, a, k)
  {
    if a == Crash || a.key != k {
      StepElsewhere(s, a, k);
      hide Step;
    }
  }

  lemma NothingBusyAtFirst(k: Key)
    ensures !Evicting(Init(), k)
  {
  }

  /** Only an eviction that has begun removes an object. */
  lemma {:induction false} NothingRemovedUnasked(run: seq<Action>, k: Key)
    requires BeginEvict(k) !in run
    ensures !Evicting(Run(Init(), run), k) && !EverRemoved(run, k)
  {
    hide Removes, Step, Evicting;
    if run == [] {
      NothingBusyAtFirst(k);
    } else {
      NothingRemovedUnasked(run[..|run| - 1], k);
      EverRemovedSnoc(run, k);
      EvictionBegins(Run(Init(), run[..|run| - 1]), run[|run| - 1], k);
    }
  }

  /** How often a run begins to flush under a key. */
  function Flushes(run: seq<Action>, k: Key): nat {
    if run == [] then 0
    else
      var g, a := run[..|run| - 1], run[|run| - 1];
      Flushes(g, k) + if a.BeginFlush? && a.key == k && k !in Run(Init(), g).busy && a.row.tier.Local? then 1 else 0
  }

  lemma UsesOfStep(s: State, a: Action, k: Key)
    ensures var t := Step(s, a);
      if a.BeginFlush? && a.key == k && k !in s.busy && a.row.tier.Local? then
        k in t.used && (k in t.reused <==> k in s.reused || k in s.used)
      else (k in t.used <==> k in s.used) && (k in t.reused <==> k in s.reused)
  {
  }

  /** A key is in use after its first flush, and used again after its second. */
  lemma {:induction false} ReusedExactly(run: seq<Action>, k: Key)
    ensures var s := Run(Init(), run);
      (k in s.used <==> Flushes(run, k) >= 1) && (k in s.reused <==> Flushes(run, k) >= 2)
  {
    if run != [] {
      var g, a := run[..|run| - 1], run[|run| - 1];
      ReusedExactly(g, k);
      UsesOfStep(Run(Init(), g), a, k);
    }
  }

  /** After any run of operations, failures and crashes, the row of a key flushed once names a tier that holds
      its object at the recorded size, exactly unless an undo of the run took the object from under the
      row, because the insert had reported an error after all, or an eviction removed it. */
  lemma EveryRowNamesItsObject(run: seq<Action>, k: Key)
    ensures var s := Run(Init(), run);
      k in s.rows && Flushes(run, k) <= 1 ==> (Healthy(s, k) <==> !EverUndone(run, k) && !EverRemoved(run, k))
  {
    RunKeepsInv(run);
    assert RowOk(Run(Init(), run), k);
    ReusedExactly(run, k);
    TornExactly(run, k);
    DoomedExactly(run, k);
    hide Run, EverUndone, EverRemoved;
  }

  /** The insert of this flush takes effect and still reports an error. */
  predicate LostReply(s: State, a: Action) {
    a.Advance? && a.outcome.FailsAfter? && a.key in s.busy && s.busy[a.key].FlushInsert?
  }

  ghost predicate NoLostReply(run: seq<Action>) {
    forall i :: 0 <= i < |run| ==> !LostReply(Run(Init(), run[..i]), run[i])
  }

  ghost predicate UndoesHaveNoRow(s: State) {
    && s.torn <= s.reused
    && forall k :: k in s.busy && s.busy[k].FlushUndo? && k !in s.reused ==> k !in s.rows
  }

  lemma Elsewhere(s: State, t: State, k: Key)
    requires SameKey(s, t, k) && k in t.busy
    ensures k in s.busy && t.busy[k] == s.busy[k] && (k in s.rows <==> k in t.rows)
    ensures k in s.reused <==> k in t.reused
  {
  }

  lemma AdvanceUndoes(s: State, a: Action)
    requires Inv(s) && UndoesHaveNoRow(s) && !LostReply(s, a) && a.Advance? && a.key in s.busy
    ensures var t := Step(s, a);
      t.torn <= t.reused
      && (a.key in t.busy && t.busy[a.key].FlushUndo? && a.key !in t.reused ==> a.key !in t.rows)
  {
    assert PcOk(s, a.key);
    hide Inv;
  }

  lemma TornStep(s: State, a: Action)
    requires UndoesHaveNoRow(s) && !(a.Advance? && a.key in s.busy)
    ensures Step(s, a).torn <= Step(s, a).reused
  {
  }

  lemma UndoStep(s: State, a: Action)
    requires Inv(s) && UndoesHaveNoRow(s) && !LostReply(s, a)
    ensures UndoesHaveNoRow(Step(s, a))
  {
    hide Inv, PcOk, MarksOk, SameKey;
    var t := Step(s, a);
    if a.Advance? && a.key in s.busy {
      AdvanceUndoes(s, a);
    } else {
      TornStep(s, a);
    }
    forall k | k in t.busy && t.busy[k].FlushUndo? && k !in t.reused ensures k !in t.rows {
      if a == Crash || a.key != k {
        StepElsewhere(s, a, k);
        Elsewhere(s, t, k);
      }
    }
  }

  lemma NothingTornAtFirst()
    ensures UndoesHaveNoRow(Init())
  {
  }

  lemma {:induction false} NothingTorn(run: seq<Action>)
    requires NoLostReply(run)
    ensures UndoesHaveNoRow(Run(Init(), run))
  {
    hide Step, LostReply, UndoesHaveNoRow;
    if run == [] {
      NothingTornAtFirst();
    } else {
      var before := run[..|run| - 1];
      forall i | 0 <= i < |before| ensures !LostReply(Run(Init(), before[..i]), before[i]) {
        assert before[..i] == run[..i];
        assert !LostReply(Run(Init(), run[..i]), run[i]);
      }
      NothingTorn(before);
      RunKeepsInv(before);
      assert !LostReply(Run(Init(), run[..|run| - 1]), run[|run| - 1]);
      UndoStep(Run(Init(), before), run[|run| - 1]);
    }
  }

  /** As long as no insert reports an error after taking effect, every row of a key flushed once names a tier
      that holds its object at the recorded size, exactly unless an eviction removed it. */
  lemma RowsStayHealthy(run: seq<Action>, k: Key)
    requires NoLostReply(run)
    ensures var s := Run(Init(), run);
      k in s.rows && Flushes(run, k) <= 1 ==> (Healthy(s, k) <==> !EverRemoved(run, k))
  {
    NothingTorn(run);
    ReusedExactly(run, k);
    TornExactly(run, k);
    EveryRowNamesItsObject(run, k);
  }

  function FlushRun(s: State, k: Key, row: Row, put: Outcome, insert: Outcome, undo: Outcome): State {
    Step(Step(Step(Step(s, BeginFlush(k, row)), Advance(k, put, 0)), Advance(k, insert, 0)), Advance(k, undo, 0))
  }

  /** A second flush under a key needs to be told apart: it overwrites the object, and the index keeps the
      first row. */
  lemma ReusedKeyMisreports(k: Key, first: Row, second: Row)
    requires first.tier.Local? && second.tier.Local? && first.size != second.size
    ensures var s := FlushRun(FlushRun(Init(), k, first, Succeeds, Succeeds, Succeeds),
                              k, second, Succeeds, Succeeds, Succeeds);
      k in s.rows && s.rows[k] == first && k !in s.doomed && k !in s.torn && k !in s.busy && !Healthy(s, k)
  {
    var s := FlushRun(Init(), k, first, Succeeds, Succeeds, Succeeds);
    assert s.rows == map[k := first] && s.local == map[k := first.size];
    assert s.busy == map[] && s.doomed == {} && s.torn == {};
    hide Init;
  }

  lemma Unroll4(s: State, a: Action, b: Action, c: Action, d: Action)
    ensures Run(s, [a, b, c, d]) == Step(Step(Step(Step(s, a), b), c), d)
  {
    assert [a, b, c, d][..3] == [a, b, c] && [a, b, c][..2] == [a, b] && [a, b][..1] == [a] && [a][..0] == [];
    assert Run(s, [a]) == Step(s, a);
    assert Run(s, [a, b]) == Step(Step(s, a), b);
    assert Run(s, [a, b, c]) == Step(Step(Step(s, a), b), c);
  }

  /** The exception happens: the insert commits, its reply is lost, and the undo deletes the object of
      a row that stays. */
  lemma LostReplyTearsARow(k: Key, row: Row)
    requires row.tier.Local?
    ensures var s := Run(Init(), [BeginFlush(k, row), Advance(k, Succeeds, 0), Advance(k, FailsAfter, 0),
                                  Advance(k, Succeeds, 0)]);
      k in s.rows && k !in s.doomed && k !in s.busy && !Healthy(s, k)
  {
    var a, b, c, d := BeginFlush(k, row), Advance(k, Succeeds, 0), Advance(k, FailsAfter, 0), Advance(k, Succeeds, 0);
    Unroll4(Init(), a, b, c, d);
  }

  /** Eviction of an idle row completes whether or not its object is still there, whatever an earlier
      eviction left. */
  lemma EvictionCanBeRerun(s: State, k: Key)
    requires k in s.rows && k !in s.busy
    ensures var t := Step(Step(Step(s, BeginEvict(k)), Advance(k, Succeeds, 0)), Advance(k, Succeeds, 0));
      k !in t.rows && k !in t.busy && t.rows == s.rows - {k} && k !in Store(t, s.rows[k].tier)
  {
  }

  /** Only an eviction that has removed the object removes a row, and no step changes the size or start
      of a row, or moves it back from S3. */
  lemma RowsAreKept(s: State, a: Action, k: Key)
    requires Inv(s) && k in s.rows
    ensures var t := Step(s, a);
      if k in t.rows then
        t.rows[k].size == s.rows[k].size && t.rows[k].start == s.rows[k].start
        && (s.rows[k].tier.S3? ==> t.rows[k].tier.S3?)
      else a.Advance? && a.key == k && k in s.busy && s.busy[k] == EvictRow && (k in s.doomed || k in s.reused)
  {
    assert PcOk(s, k) && RowOk(s, k);
    hide Inv;
  }

  // ---- whole activities --------------------------------------------------------------------

  datatype TierFaults = TierFaults(open: Outcome, put: Outcome, stored: nat, stat: Outcome,
                                   mark: Outcome, clean: Outcome)

  function TierRun(s: State, k: Key, f: TierFaults): State {
    var opening := Step(Step(s, BeginTier(k)), Advance(k, f.open, 0));
    var checked := Step(Step(opening, Advance(k, f.put, f.stored)), Advance(k, f.stat, 0));
    Step(Step(checked, Advance(k, f.mark, 0)), Advance(k, f.clean, 0))
  }

  datatype EvictFaults = EvictFaults(delete: Outcome, row: Outcome)

  function EvictRun(s: State, k: Key, f: EvictFaults): State {
    Step(Step(Step(s, BeginEvict(k)), Advance(k, f.delete, 0)), Advance(k, f.row, 0))
  }

  /** An eviction pass over listed keys, oldest first. */
  function EvictAll(s: State, keys: seq<Key>, faults: seq<EvictFaults>): State
    requires |faults| >= |keys|
  {
    if keys == [] then s
    else
      var n := |keys| - 1;
      EvictRun(EvictAll(s, keys[..n], faults), keys[n], faults[n])
  }

  lemma Idle(s: State, k: Key, o: Outcome, stored: nat)
    requires k !in s.busy
    ensures Step(s, Advance(k, o, stored)) == s
  {
  }

  lemma Marked(s: State, k: Key, size: nat, o: Outcome)
    requires k in s.busy && s.busy[k] == TierMark(size)
    ensures var marked := if Effective(o) then Mark(s, k) else s;
      Step(s, Advance(k, o, 0)) == if o.Succeeds? then Go(marked, k, TierClean) else Stop(marked, k)
  {
  }

  lemma Cleaned(s: State, k: Key, o: Outcome)
    requires k in s.busy && s.busy[k] == TierClean
    ensures Step(s, Advance(k, o, 0)) == Stop(if Effective(o) then s.(local := s.local - {k}) else s, k)
  {
  }

  /** The end of a tiering, from the update of the row on. */
  lemma MarkAndClean(s: State, k: Key, size: nat, f: TierFaults)
    requires k in s.busy && s.busy[k] == TierMark(size) && k in s.rows
    ensures var t := Step(Step(s, Advance(k, f.mark, 0)), Advance(k, f.clean, 0));
      && t.busy == s.busy - {k} && t.used == s.used && t.doomed == s.doomed && t.torn == s.torn && t.s3 == s.s3
      && t.rows == (if Effective(f.mark) then s.rows[k := s.rows[k].(tier := S3)] else s.rows)
      && t.local == (if f.mark.Succeeds? && Effective(f.clean) then s.local - {k} else s.local)
  {
    hide Step;
    var t := Step(s, Advance(k, f.mark, 0));
    Marked(s, k, size, f.mark);
    if f.mark.Succeeds? {
      Cleaned(t, k, f.clean);
    } else {
      Idle(t, k, f.clean, 0);
    }
  }

  lemma Rest(s: State, k: Key, f: TierFaults)
    requires k !in s.busy
    ensures Step(s, Advance(k, f.put, f.stored)) == s && Step(s, Advance(k, f.stat, 0)) == s
    ensures Step(s, Advance(k, f.mark, 0)) == s && Step(s, Advance(k, f.clean, 0)) == s
  {
  }

  lemma Uploaded(s: State, k: Key, size: nat, o: Outcome, stored: nat)
    requires k in s.busy && s.busy[k] == TierPut(size)
    ensures var put := if Effective(o) then s.(s3 := s.s3[k := stored]) else s;
      Step(s, Advance(k, o, stored)) == if o.Succeeds? then Go(put, k, TierStat(size)) else Stop(put, k)
  {
  }

  lemma Checked(s: State, k: Key, size: nat, o: Outcome)
    requires k in s.busy && s.busy[k] == TierStat(size)
    ensures Step(s, Advance(k, o, 0)) ==
      if o.Succeeds? && k in s.s3 && s.s3[k] == size then Go(s, k, TierMark(size)) else Stop(s, k)
  {
  }

  /** From the upload on. */
  lemma UploadAndOn(s: State, k: Key, size: nat, f: TierFaults)
    requires k in s.busy && s.busy[k] == TierPut(size) && k in s.rows
    ensures var checked := Step(Step(s, Advance(k, f.put, f.stored)), Advance(k, f.stat, 0));
      var t := Step(Step(checked, Advance(k, f.mark, 0)), Advance(k, f.clean, 0));
      var verified := f.put.Succeeds? && f.stat.Succeeds? && f.stored == size;
      && t.busy == s.busy - {k} && t.used == s.used && t.doomed == s.doomed && t.torn == s.torn
      && t.s3 == (if Effective(f.put) then s.s3[k := f.stored] else s.s3)
      && t.rows == (if verified && Effective(f.mark) then s.rows[k := s.rows[k].(tier := S3)] else s.rows)
      && t.local == (if verified && f.mark.Succeeds? && Effective(f.clean) then s.local - {k} else s.local)
  {
    hide Step;
    var t := Step(s, Advance(k, f.put, f.stored));
    Uploaded(s, k, size, f.put, f.stored);
    if !f.put.Succeeds? {
      Rest(t, k, f);
    } else {
      Checked(t, k, size, f.stat);
      if f.stat.Succeeds? && f.stored == size {
        MarkAndClean(Step(t, Advance(k, f.stat, 0)), k, size, f);
      } else {
        Rest(Step(t, Advance(k, f.stat, 0)), k, f);
      }
    }
  }

  lemma Begun(s: State, k: Key)
    requires k in s.rows && s.rows[k].tier.Local? && k !in s.busy
    ensures Step(s, BeginTier(k)) == Go(s, k, TierOpen(s.rows[k].size))
  {
  }

  lemma Opened(s: State, k: Key, size: nat, o: Outcome)
    requires k in s.busy && s.busy[k] == TierOpen(size)
    ensures Step(s, Advance(k, o, 0)) == if o.Succeeds? && k in s.local then Go(s, k, TierPut(size)) else Stop(s, k)
  {
  }

  /** The state after the operations up to the one that stopped the tiering. */
  lemma TierRunIs(s: State, k: Key, f: TierFaults)
    requires k in s.rows && s.rows[k].tier.Local? && k !in s.busy
    ensures var t := TierRun(s, k, f);
      var uploading := f.open.Succeeds? && k in s.local;
      var verified := uploading && f.put.Succeeds? && f.stat.Succeeds? && f.stored == s.rows[k].size;
      && t.busy == s.busy && t.used == s.used && t.doomed == s.doomed && t.torn == s.torn
      && t.s3 == (if uploading && Effective(f.put) then s.s3[k := f.stored] else s.s3)
      && t.rows == (if verified && Effective(f.mark) then s.rows[k := s.rows[k].(tier := S3)] else s.rows)
      && t.local == (if verified && f.mark.Succeeds? && Effective(f.clean) then s.local - {k} else s.local)
  {
    hide Step;
    var size := s.rows[k].size;
    var s0 := Step(s, BeginTier(k));
    Begun(s, k);
    Opened(s0, k, size, f.open);
    var s1 := Step(s0, Advance(k, f.open, 0));
    if f.open.Succeeds? && k in s.local {
      UploadAndOn(s1, k, size, f);
    } else {
      Rest(s1, k, f);
    }
  }

  lemma TierRunKeepsInv(s: State, k: Key, f: TierFaults)
    requires Inv(s)
    ensures Inv(TierRun(s, k, f))
  {
    hide Step, Inv;
    var a := Step(s, BeginTier(k));
    var b := Step(a, Advance(k, f.open, 0));
    var c := Step(b, Advance(k, f.put, f.stored));
    var d := Step(c, Advance(k, f.stat, 0));
    var e := Step(d, Advance(k, f.mark, 0));
    StepKeepsInv(s, BeginTier(k));
    StepKeepsInv(a, Advance(k, f.open, 0));
    StepKeepsInv(b, Advance(k, f.put, f.stored));
    StepKeepsInv(c, Advance(k, f.stat, 0));
    StepKeepsInv(d, Advance(k, f.mark, 0));
    StepKeepsInv(e, Advance(k, f.clean, 0));
  }

  /** A whole tiering of an idle, healthy local segment: the row moves to S3 only once S3 holds the object at the
      recorded size, the local copy goes only after the row has moved, and whatever fails, the tier
      named by the row has the object. */
  lemma TieringNeverLosesTheObject(s: State, k: Key, f: TierFaults)
    requires Inv(s) && k in s.rows && s.rows[k].tier.Local? && k !in s.busy && Healthy(s, k)
    ensures var t := TierRun(s, k, f);
      && Inv(t) && k in t.rows && k !in t.busy && Healthy(t, k) && t.rows[k].size == s.rows[k].size
      && (t.rows[k].tier.S3? <==>
            && f.open.Succeeds? && f.put.Succeeds? && f.stat.Succeeds? && f.stored == s.rows[k].size
            && Effective(f.mark))
      && (k !in t.local <==> t.rows[k].tier.S3? && f.mark.Succeeds? && Effective(f.clean))
  {
    TierRunKeepsInv(s, k, f);
    TierRunIs(s, k, f);
    hide Inv, TierRun;
  }

  lemma FlushBegun(s: State, k: Key, row: Row)
    requires k !in s.busy && row.tier.Local?
    ensures var t := Step(s, BeginFlush(k, row));
      && t.busy == s.busy[k := FlushPut(row)] && t.rows == s.rows && t.local == s.local && t.s3 == s.s3
  {
  }

  lemma FlushAdvanced(s: State, k: Key, o: Outcome)
    requires k in s.busy && (s.busy[k].FlushPut? || s.busy[k].FlushInsert? || s.busy[k].FlushUndo?)
    ensures var row, t := s.busy[k].row, Step(s, Advance(k, o, 0));
      && t.s3 == s.s3
      && t.rows == (if s.busy[k].FlushInsert? && Effective(o) && k !in s.rows then s.rows[k := row] else s.rows)
      && t.local == (if !Effective(o) || s.busy[k].FlushInsert? then s.local
                     else if s.busy[k].FlushPut? then s.local[k := row.size] else s.local - {k})
      && t.busy == (if s.busy[k].FlushPut? && o.Succeeds? then s.busy[k := FlushInsert(row)]
                    else if s.busy[k].FlushInsert? && !o.Succeeds? then s.busy[k := FlushUndo(row)]
                    else s.busy - {k})
  {
  }

  /** What a whole flush leaves in the index and the store, under a fresh key or a used one. */
  lemma FlushRunIs(s: State, k: Key, row: Row, put: Outcome, insert: Outcome, undo: Outcome)
    requires k !in s.busy && row.tier.Local?
    ensures var t := FlushRun(s, k, row, put, insert, undo);
      && t.busy == s.busy && t.s3 == s.s3
      && t.rows == (if put.Succeeds? && Effective(insert) && k !in s.rows then s.rows[k := row] else s.rows)
      && t.local == (if !Effective(put) then s.local
                     else if put.Succeeds? && !insert.Succeeds? && Effective(undo) then s.local - {k}
                     else s.local[k := row.size])
  {
    hide Step;
    var a := Step(s, BeginFlush(k, row));
    FlushBegun(s, k, row);
    FlushAdvanced(a, k, put);
    var b := Step(a, Advance(k, put, 0));
    if put.Succeeds? {
      FlushAdvanced(b, k, insert);
      var c := Step(b, Advance(k, insert, 0));
      if insert.Succeeds? {
        Idle(c, k, undo, 0);
      } else {
        FlushAdvanced(c, k, undo);
      }
    } else {
      Idle(b, k, insert, 0);
      Idle(b, k, undo, 0);
    }
  }

  lemma EvictBegun(s: State, k: Key)
    requires k in s.rows && k !in s.busy
    ensures Step(s, BeginEvict(k)) == Go(s, k, EvictObject(s.rows[k].tier))
  {
  }

  lemma EvictAdvanced(s: State, k: Key, o: Outcome)
    requires k in s.busy && (s.busy[k].EvictObject? || s.busy[k].EvictRow?)
    ensures var t, first := Step(s, Advance(k, o, 0)), s.busy[k].EvictObject?;
      && t.rows == (if !first && Effective(o) then s.rows - {k} else s.rows)
      && t.local == (if first && s.busy[k].tier.Local? && Effective(o) then s.local - {k} else s.local)
      && t.s3 == (if first && s.busy[k].tier.S3? && Effective(o) then s.s3 - {k} else s.s3)
      && t.busy == (if first && o.Succeeds? then s.busy[k := EvictRow] else s.busy - {k})
  {
  }

  /** What the eviction of an idle row leaves: the object of its tier goes first, the row only once that has
      succeeded. */
  lemma EvictRunIs(s: State, k: Key, f: EvictFaults)
    requires k in s.rows && k !in s.busy
    ensures var t, tier := EvictRun(s, k, f), s.rows[k].tier;
      && t.busy == s.busy
      && t.local == (if tier.Local? && Effective(f.delete) then s.local - {k} else s.local)
      && t.s3 == (if tier.S3? && Effective(f.delete) then s.s3 - {k} else s.s3)
      && t.rows == (if f.delete.Succeeds? && Effective(f.row) then s.rows - {k} else s.rows)
  {
    hide Step;
    var a := Step(s, BeginEvict(k));
    EvictBegun(s, k);
    EvictAdvanced(a, k, f.delete);
    var b := Step(a, Advance(k, f.delete, 0));
    if f.delete.Succeeds? {
      EvictAdvanced(b, k, f.row);
    } else {
      Idle(b, k, f.row, 0);
    }
  }

  /** A whole flush under a fresh key: the segment is indexed exactly when the insert took effect, and
      its object is then there unless the insert had reported an error and been undone. */
  lemma FlushIndexesExactly(s: State, k: Key, row: Row, put: Outcome, insert: Outcome, undo: Outcome)
    requires Inv(s) && k !in s.used && row.tier.Local?
    ensures var t := FlushRun(s, k, row, put, insert, undo);
      && k !in t.busy
      && (k in t.rows <==> put.Succeeds? && Effective(insert))
      && (k in t.rows ==> t.rows[k] == row && (Healthy(t, k) <==> insert.Succeeds? || !Effective(undo)))
  {
    assert RowOk(s, k) && PcOk(s, k) && MarksOk(s, k);
    hide Inv;
  }
}
