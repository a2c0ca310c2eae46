/** The storage side of the recorder, the tierer and the janitor, as they issue their operations. */
module Storage {
  import opened P = StorageProtocol

  /** Which segments an eviction pass takes, given in its listed order. */
  datatype Policy = Before(cutoff: int) | Over(bytes: int)

  function SumSizes(rows: seq<Row>): nat {
    if rows == [] then 0 else SumSizes(rows[..|rows| - 1]) + rows[|rows| - 1].size
  }

  /** The policy still wants the segment at position i. */
  predicate Wanted(policy: Policy, rows: seq<Row>, i: nat)
    requires i < |rows|
  {
    match policy
    case Before(cutoff) => rows[i].start < cutoff
    case Over(bytes) => bytes - SumSizes(rows[..i]) > 0
  }

  /** The pass stops at the first segment it does not want. */
  ghost predicate TakesPrefix(policy: Policy, rows: seq<Row>, n: nat) {
    && n <= |rows|
    && (forall i :: 0 <= i < n ==> Wanted(policy, rows, i))
    && (n < |rows| ==> !Wanted(policy, rows, n))
  }

  lemma EvictionElsewhere(s: State, j: Key, f: EvictFaults, k: Key)
    requires j != k
    ensures SameKey(s, EvictRun(s, j, f), k)
  {
    hide Step;
    var a := Step(s, BeginEvict(j));
    var b := Step(a, Advance(j, f.delete, 0));
    StepElsewhere(s, BeginEvict(j), k);
    StepElsewhere(a, Advance(j, f.delete, 0), k);
    StepElsewhere(b, Advance(j, f.row, 0), k);
  }

  class Archive {
    var rows: map<Key, Row>
    var local: map<Key, nat>
    var s3: map<Key, nat>
    ghost var trace: State

    ghost predicate Valid()
      reads this
    {
      trace.rows == rows && trace.local == local && trace.s3 == s3
    }

    constructor ()
      ensures Valid() && trace == Init()
    {
      rows, local, s3 := map[], map[], map[];
      trace := Init();
    }

    // ---- single operations -----------------------------------------------------------------

    method PutObject(tier: Tier, k: Key, size: nat, o: Outcome) returns (ok: bool)
      modifies this`local, this`s3
      ensures local == if tier.Local? && Effective(o) then old(local)[k := size] else old(local)
      ensures s3 == if tier.S3? && Effective(o) then old(s3)[k := size] else old(s3)
      ensures ok == o.Succeeds?
    {
      if Effective(o) {
        if tier.Local? {
          local := local[k := size];
        } else {
          s3 := s3[k := size];
        }
      }
      ok := o.Succeeds?;
    }

    method DeleteObject(tier: Tier, k: Key, o: Outcome) returns (ok: bool)
      modifies this`local, this`s3
      ensures local == if tier.Local? && Effective(o) then old(local) - {k} else old(local)
      ensures s3 == if tier.S3? && Effective(o) then old(s3) - {k} else old(s3)
      ensures ok == o.Succeeds?
    {
      if Effective(o) {
        if tier.Local? {
          local := local - {k};
        } else {
          s3 := s3 - {k};
        }
      }
      ok := o.Succeeds?;
    }

    method InsertSegment(k: Key, row: Row, o: Outcome) returns (ok: bool)
      modifies this`rows
      ensures rows == if Effective(o) && k !in old(rows) then old(rows)[k := row] else old(rows)
      ensures ok == o.Succeeds?
    {
      if Effective(o) && k !in rows {
        rows := rows[k := row];
      }
      ok := o.Succeeds?;
    }

    method MarkTiered(k: Key, o: Outcome) returns (ok: bool)
      modifies this`rows
      ensures rows == if Effective(o) && k in old(rows) then old(rows)[k := old(rows)[k].(tier := S3)] else old(rows)
      ensures ok == o.Succeeds?
    {
      if Effective(o) && k in rows {
        rows := rows[k := rows[k].(tier := S3)];
      }
      ok := o.Succeeds?;
    }

    method DeleteSegment(k: Key, o: Outcome) returns (ok: bool)
      modifies this`rows
      ensures rows == if Effective(o) then old(rows) - {k} else old(rows)
      ensures ok == o.Succeeds?
    {
      if Effective(o) {
        rows := rows - {k};
      }
      ok := o.Succeeds?;
    }

    // ---- the three activities --------------------------------------------------------------

    /** Stores a finished segment and indexes it, or removes the object again. */
    method MarshalAndFlush(k: Key, row: Row, put: Outcome, insert: Outcome, undo: Outcome)
      requires Valid() && k !in trace.busy && row.tier.Local?
      modifies this
      ensures Valid() && trace == FlushRun(old(trace), k, row, put, insert, undo)
    {
      trace := Step(trace, BeginFlush(k, row));
      var ok := PutObject(Local, k, row.size, put);
      trace := Step(trace, Advance(k, put, 0));
      if ok {
        ok := InsertSegment(k, row, insert);
        trace := Step(trace, Advance(k, insert, 0));
        if !ok {
          ok := DeleteObject(Local, k, undo);
          trace := Step(trace, Advance(k, undo, 0));
        }
      }
    }

    /** Uploads one segment, verifies its size, flips the row, then deletes the local copy. */
    method TierOne(k: Key, size: nat, f: TierFaults)
      requires Valid() && k !in trace.busy && k in rows && rows[k].tier.Local? && rows[k].size == size
      modifies this
      ensures Valid() && trace == TierRun(old(trace), k, f)
    {
      hide TierRun;
      TierRunIs(trace, k, f);
      trace := TierRun(trace, k, f);
      var readable := f.open.Succeeds? && k in local;
      if !readable {
        return;
      }
      var ok := PutObject(S3, k, f.stored, f.put);
      if !ok {
        return;
      }
      var verified := f.stat.Succeeds? && k in s3 && s3[k] == size;
      if !verified {
        return;
      }
      ok := MarkTiered(k, f.mark);
      if !ok {
        return;
      }
      ok := DeleteObject(Local, k, f.clean);
    }

    /** Deletes one segment, object first. */
    method EvictOne(k: Key, tier: Tier, f: EvictFaults)
      requires Valid() && k !in trace.busy && k in rows && rows[k].tier == tier
      modifies this
      ensures Valid() && trace == EvictRun(old(trace), k, f)
    {
      trace := Step(trace, BeginEvict(k));
      var ok := DeleteObject(tier, k, f.delete);
      trace := Step(trace, Advance(k, f.delete, 0));
      if ok {
        ok := DeleteSegment(k, f.row);
        trace := Step(trace, Advance(k, f.row, 0));
      }
    }

    /** Evicts listed segments, in the listed order, while the policy wants them. */
    method Evict(keys: seq<Key>, listed: seq<Row>, policy: Policy, faults: seq<EvictFaults>) returns (n: nat)
      requires Valid() && |keys| == |listed| <= |faults|
      requires forall i, j :: 0 <= i < j < |keys| ==> keys[i] != keys[j]
      requires forall i :: 0 <= i < |keys| ==> keys[i] !in trace.busy && keys[i] in rows && rows[keys[i]] == listed[i]
      modifies this
      ensures Valid() && TakesPrefix(policy, listed, n)
      ensures trace == EvictAll(old(trace), keys[..n], faults)
    {
      hide EvictRun;
      var over := if policy.Over? then policy.bytes else 0;
      n := 0;
      while n < |keys|
        invariant Valid() && n <= |keys|
        invariant policy.Over? ==> over == policy.bytes - SumSizes(listed[..n])
        invariant forall i :: 0 <= i < n ==> Wanted(policy, listed, i)
        invariant trace == EvictAll(old(trace), keys[..n], faults)
        invariant forall i :: n <= i < |keys| ==>
          keys[i] !in trace.busy && keys[i] in rows && rows[keys[i]] == listed[i]
      {
        var wanted := if policy.Over? then over > 0 else listed[n].start < policy.cutoff;
        if !wanted {
          return;
        }
        over := over - listed[n].size;
        assert listed[..n + 1][..n] == listed[..n] && keys[..n + 1][..n] == keys[..n];
        ghost var before := trace;
        EvictOne(keys[n], listed[n].tier, faults[n]);
        forall i | n < i < |keys|
          ensures keys[i] !in trace.busy && keys[i] in rows && rows[keys[i]] == listed[i]
        {
          EvictionElsewhere(before, keys[n], faults[n], keys[i]);
        }
        n := n + 1;
      }
    }
  }

  /** The budget pass takes the shortest prefix of the list that frees the bytes, or the whole list. */
  lemma BudgetTakesEnough(bytes: int, rows: seq<Row>, n: nat)
    requires TakesPrefix(Over(bytes), rows, n)
    ensures n < |rows| ==> SumSizes(rows[..n]) >= bytes
    ensures n > 0 ==> SumSizes(rows[..n - 1]) < bytes
  {
    if n > 0 {
      assert Wanted(Over(bytes), rows, n - 1);
    }
  }

  /** On a list sorted by start, the age pass takes exactly the segments that start before the cutoff. */
  lemma AgeTakesExactly(cutoff: int, rows: seq<Row>, n: nat, i: nat)
    requires TakesPrefix(Before(cutoff), rows, n) && i < |rows|
    requires forall a, b :: 0 <= a < b < |rows| ==> rows[a].start <= rows[b].start
    ensures i < n <==> rows[i].start < cutoff
  {
    if i < n {
      assert Wanted(Before(cutoff), rows, i);
    }
  }
}
