/** The snapshot of one camera stream: the newest keyframe, decoded to a picture on demand, one decode
    at a time, with a short cache. `Step` is the protocol, one locked section at a time, over any number
    of callers; class `Snapshot` is the object whose locked sections are those steps. */
module Snapshots {
  import opened Options

  /** A keyframe and how many pixels wide it is. */
  datatype Frame = Frame(id: nat, native: nat)
  type Caller = nat
  type Chan = nat

  /** A decoded picture, known by what it was decoded from and the width it was scaled to; 0 means that it was
      not scaled. */
  datatype Picture = Picture(frame: Frame, scale: nat)

  datatype Phase = Waiting(chan: Chan, width: nat) | Decoding(chan: Chan, frame: Frame, width: nat)

  datatype Reply = Ok(picture: Picture) | NoSnapshot | Failed | Cancelled

  /** A call that has returned. */
  datatype Return = Return(caller: Caller, width: nat, reply: Reply)

  /** The fields of the snapshot, then how often each channel has been closed, the calls under way, and
      what has happened so far. */
  datatype State = State(annexb: Option<Frame>, cached: Option<Picture>, cachedAt: int, inflight: Option<Chan>,
                         closes: seq<nat>, calls: map<Caller, Phase>,
                         offered: set<Frame>, decodes: set<Picture>, replies: seq<Return>)

  /** Times are in nanoseconds. Done carries whether the decode succeeded. */
  datatype Action =
    | Offer(frame: Frame, randomAccess: bool)
    | Enter(caller: Caller, width: nat, now: int)
    | Done(caller: Caller, success: bool, now: int)
    | Wake(caller: Caller)
    | Cancel(caller: Caller)

  const TTL := 2_000_000_000

  function Init(): State {
    State(None, None, 0, None, [], map[], {}, {}, [])
  }

  predicate Fresh(s: State, now: int) {
    s.cached.Some? && now - s.cachedAt < TTL
  }

  /** The call returns. */
  function Answer(s: State, c: Caller, width: nat, reply: Reply): State {
    s.(replies := s.replies + [Return(c, width, reply)], calls := s.calls - {c})
  }

  /** The first locked section of a call. */
  function EnterStep(s: State, c: Caller, width: nat, now: int): State {
    if Fresh(s, now) then Answer(s, c, width, Ok(s.cached.value))
    else if s.inflight.Some? then
      if s.cached.Some? then Answer(s, c, width, Ok(s.cached.value))
      else s.(calls := s.calls[c := Waiting(s.inflight.value, width)])
    else if s.annexb.None? then Answer(s, c, width, NoSnapshot)
    else
      var wait := |s.closes|;
      s.(inflight := Some(wait), closes := s.closes + [0], calls := s.calls[c := Decoding(wait, s.annexb.value, width)])
  }

  /** The second locked section, after the decode. */
  function DoneStep(s: State, c: Caller, success: bool, now: int): State
    requires c in s.calls && s.calls[c].Decoding? && s.calls[c].chan < |s.closes|
  {
    var d := s.calls[c];
    var picture := Picture(d.frame, d.width);
    var stored := if success then s.(cached := Some(picture), cachedAt := now, decodes := s.decodes + {picture}) else s;
    var finished := stored.(inflight := None, closes := s.closes[d.chan := s.closes[d.chan] + 1]);
    Answer(finished, c, d.width,
           if success then Ok(picture) else if finished.cached.Some? then Ok(finished.cached.value) else Failed)
  }

  predicate Enabled(s: State, a: Action) {
    match a
    case Offer(_, _) => true
    case Enter(c, _, _) => c !in s.calls
    case Done(c, _, _) => c in s.calls && s.calls[c].Decoding? && s.calls[c].chan < |s.closes|
    case Wake(c) =>
      c in s.calls && s.calls[c].Waiting? && s.calls[c].chan < |s.closes| && s.closes[s.calls[c].chan] > 0
    case Cancel(c) => c in s.calls && s.calls[c].Waiting?
  }

  function Step(s: State, a: Action): State
    requires Enabled(s, a)
  {
    match a
    case Offer(f, ra) => if ra then s.(annexb := Some(f), offered := s.offered + {f}) else s
    case Enter(c, width, now) => EnterStep(s, c, width, now)
    case Done(c, success, now) => DoneStep(s, c, success, now)
    case Wake(c) =>
      Answer(s, c, s.calls[c].width, if s.cached.Some? then Ok(s.cached.value) else NoSnapshot)
    case Cancel(c) => Answer(s, c, s.calls[c].width, Cancelled)
  }

  ghost predicate IsRun(s: State, run: seq<Action>)
    decreases |run|
  {
    run == [] || (Enabled(s, run[0]) && IsRun(Step(s, run[0]), run[1..]))
  }

  function After(s: State, run: seq<Action>): State
    requires IsRun(s, run)
    decreases |run|
  {
    if run == [] then s else After(Step(s, run[0]), run[1..])
  }

  // ---- the invariant -----------------------------------------------------------------------

  /** A channel is in flight exactly while one caller decodes for it. */
  ghost predicate OneDecoder(s: State) {
    && (s.inflight.Some? ==> exists c :: c in s.calls && s.calls[c].Decoding?)
    && (forall c :: c in s.calls && s.calls[c].Decoding? ==> s.inflight == Some(s.calls[c].chan))
    && (forall c, e :: c in s.calls && e in s.calls && s.calls[c].Decoding? && s.calls[e].Decoding? ==> c == e)
  }

  /** Each channel made has been closed exactly once, except the one in flight, which is open. */
  ghost predicate ClosedOnce(s: State) {
    && (s.inflight.Some? ==> s.inflight.value < |s.closes|)
    && (forall ch :: 0 <= ch < |s.closes| ==> s.closes[ch] == if s.inflight == Some(ch) then 0 else 1)
    && (forall c :: c in s.calls ==> s.calls[c].chan < |s.closes|)
  }

  /** Pictures come from decodes, and decodes from offered keyframes. */
  ghost predicate Genuine(s: State) {
    && (s.annexb.Some? ==> s.annexb.value in s.offered)
    && (s.cached.Some? ==> s.cached.value in s.decodes)
    && (forall c :: c in s.calls && s.calls[c].Decoding? ==> s.calls[c].frame in s.offered)
    && (forall p :: p in s.decodes ==> p.frame in s.offered)
    && (forall i :: 0 <= i < |s.replies| && s.replies[i].reply.Ok? ==> s.replies[i].reply.picture in s.decodes)
  }

  ghost predicate Inv(s: State) {
    OneDecoder(s) && ClosedOnce(s) && Genuine(s)
  }

  lemma EnterKeepsOneDecoder(s: State, c: Caller, width: nat, now: int)
    requires OneDecoder(s) && c !in s.calls
    ensures OneDecoder(EnterStep(s, c, width, now))
  {
    var t := EnterStep(s, c, width, now);
    if s.inflight.Some? {
      var e :| e in s.calls && s.calls[e].Decoding?;
      assert e in t.calls && t.calls[e].Decoding?;
    } else if t.inflight.Some? {
      assert c in t.calls && t.calls[c].Decoding?;
    }
  }

  lemma LeavingKeepsOneDecoder(s: State, c: Caller, width: nat, reply: Reply)
    requires OneDecoder(s) && c in s.calls && s.calls[c].Waiting?
    ensures OneDecoder(Answer(s, c, width, reply))
  {
    var t := Answer(s, c, width, reply);
    if s.inflight.Some? {
      var e :| e in s.calls && s.calls[e].Decoding?;
      assert e in t.calls && t.calls[e].Decoding?;
    }
  }

  lemma StepKeepsOneDecoder(s: State, a: Action)
    requires OneDecoder(s) && Enabled(s, a)
    ensures OneDecoder(Step(s, a))
  {
    match a
    case Offer(f, ra) =>
      if s.inflight.Some? {
        var e :| e in s.calls && s.calls[e].Decoding?;
        assert e in Step(s, a).calls;
      }
    case Enter(c, width, now) => EnterKeepsOneDecoder(s, c, width, now);
    case Done(c, success, now) =>
    case Wake(c) =>
      LeavingKeepsOneDecoder(s, c, s.calls[c].width, if s.cached.Some? then Ok(s.cached.value) else NoSnapshot);
    case Cancel(c) => LeavingKeepsOneDecoder(s, c, s.calls[c].width, Cancelled);
  }

  lemma StepKeepsClosedOnce(s: State, a: Action)
    requires OneDecoder(s) && ClosedOnce(s) && Enabled(s, a)
    ensures ClosedOnce(Step(s, a))
  {
  }

  lemma DoneKeepsGenuine(s: State, c: Caller, success: bool, now: int)
    requires Genuine(s) && Enabled(s, Done(c, success, now))
    ensures Genuine(DoneStep(s, c, success, now))
  {
  }

  lemma StepKeepsGenuine(s: State, a: Action)
    requires Genuine(s) && Enabled(s, a)
    ensures Genuine(Step(s, a))
  {
    hide DoneStep;
    if a.Done? {
      DoneKeepsGenuine(s, a.caller, a.success, a.now);
    }
  }

  /** Every step of every caller keeps the invariant; in particular no channel is closed twice. */
  lemma StepKeepsInv(s: State, a: Action)
    requires Inv(s) && Enabled(s, a)
    ensures Inv(Step(s, a))
  {
    hide OneDecoder, ClosedOnce, Genuine, Step;
    StepKeepsOneDecoder(s, a);
    StepKeepsClosedOnce(s, a);
    StepKeepsGenuine(s, a);
  }

  lemma {:induction false} RunKeepsInv(s: State, run: seq<Action>)
    requires Inv(s) && IsRun(s, run)
    ensures Inv(After(s, run))
    decreases |run|
  {
    hide Inv, Step, Enabled;
    if run != [] {
      StepKeepsInv(s, run[0]);
      RunKeepsInv(Step(s, run[0]), run[1..]);
    }
  }

  /** After any run: a channel is in flight exactly while one caller decodes, every channel made so far
      but that one has been closed exactly once, and every picture a call returned came out of a
      successful decode of an offered keyframe. */
  lemma EveryRunIsSingleFlight(run: seq<Action>)
    requires IsRun(Init(), run)
    ensures var s := After(Init(), run);
      && (s.inflight.Some? <==> exists c :: c in s.calls && s.calls[c].Decoding?)
      && (forall c, e :: c in s.calls && e in s.calls && s.calls[c].Decoding? && s.calls[e].Decoding? ==> c == e)
      && (forall ch :: 0 <= ch < |s.closes| ==> s.closes[ch] == if s.inflight == Some(ch) then 0 else 1)
      && (forall i :: 0 <= i < |s.replies| && s.replies[i].reply.Ok? ==>
            s.replies[i].reply.picture in s.decodes && s.replies[i].reply.picture.frame in s.offered)
  {
    RunKeepsInv(Init(), run);
  }

  /** A parked caller can always go on: its decode is still running, and then some caller can finish it,
      or its channel is closed. */
  lemma NoWaiterIsStranded(run: seq<Action>, c: Caller)
    requires IsRun(Init(), run)
    requires var s := After(Init(), run); c in s.calls && s.calls[c].Waiting?
    ensures var s := After(Init(), run);
      || Enabled(s, Wake(c))
      || exists d :: d in s.calls && s.calls[d].Decoding? && s.calls[d].chan == s.calls[c].chan
                     && Enabled(s, Done(d, true, 0))
  {
    RunKeepsInv(Init(), run);
    var s := After(Init(), run);
    hide After, IsRun;
    if s.inflight == Some(s.calls[c].chan) {
      var d :| d in s.calls && s.calls[d].Decoding?;
      assert Enabled(s, Done(d, true, 0));
    }
  }

  /** A filled cache stays filled, and what has been returned or decoded stays on record. */
  lemma {:induction false} CacheNeverEmpties(s: State, run: seq<Action>)
    requires IsRun(s, run) && s.cached.Some?
    ensures After(s, run).cached.Some?
    decreases |run|
  {
    if run != [] {
      CacheNeverEmpties(Step(s, run[0]), run[1..]);
    }
  }

  /** When a decode succeeds, every caller parked on it is answered with a picture, whatever happens
      between the close of the channel and its wake-up. */
  lemma ParkedCallersAreServed(s: State, done: Action, run: seq<Action>, c: Caller)
    requires done.Done? && done.success && Enabled(s, done) && IsRun(Step(s, done), run)
    requires var t := After(Step(s, done), run); Enabled(t, Wake(c))
    ensures var t := Step(After(Step(s, done), run), Wake(c));
      t.replies != [] && t.replies[|t.replies| - 1].caller == c && t.replies[|t.replies| - 1].reply.Ok?
  {
    CacheNeverEmpties(Step(s, done), run);
  }

  // ---- widths ------------------------------------------------------------------------------

  /** Scaling is to the width exactly, upwards too. */
  function PixelWidth(p: Picture): nat {
    if p.scale == 0 then p.frame.native else p.scale
  }

  /** The picture is at most `width` pixels wide; 0 asks for full resolution. */
  predicate Honours(p: Picture, width: nat) {
    if width == 0 then PixelWidth(p) == p.frame.native else PixelWidth(p) <= width
  }

  /** The newest keyframe offered. */
  function Newest(run: seq<Action>): Option<Frame>
    decreases |run|
  {
    if run == [] then None
    else
      var a := run[|run| - 1];
      if a.Offer? && a.randomAccess then Some(a.frame) else Newest(run[..|run| - 1])
  }

  /** The width a caller has last asked for, with the newest keyframe of that moment. */
  function Asked(run: seq<Action>, c: Caller): Option<(Option<Frame>, nat)>
    decreases |run|
  {
    if run == [] then None
    else
      var g, a := run[..|run| - 1], run[|run| - 1];
      if a.Enter? && a.caller == c then Some((Newest(g), a.width)) else Asked(g, c)
  }

  /** Keyframe and width of the call whose decode last succeeded. */
  function LastDecoded(run: seq<Action>): Option<(Option<Frame>, nat)>
    decreases |run|
  {
    if run == [] then None
    else
      var g, a := run[..|run| - 1], run[|run| - 1];
      if a.Done? && a.success then Asked(g, a.caller) else LastDecoded(g)
  }

  /** The picture that decode made. */
  function LastPicture(run: seq<Action>): Option<Picture> {
    var last := LastDecoded(run);
    if last.Some? && last.value.0.Some? then Some(Picture(last.value.0.value, last.value.1)) else None
  }

  /** When it was done. */
  function LastDoneAt(run: seq<Action>): int
    decreases |run|
  {
    if run == [] then 0
    else
      var a := run[|run| - 1];
      if a.Done? && a.success then a.now else LastDoneAt(run[..|run| - 1])
  }

  /** A picture decoded for a call that asked for `asked`, from a keyframe of `native` pixels, is right for a call
      that asks for `width`. */
  predicate Serves(native: nat, asked: nat, width: nat) {
    if asked == 0 then width == 0 || native <= width
    else if width == 0 then asked == native
    else asked <= width
  }

  lemma {:induction false} RunSnoc(s: State, run: seq<Action>, a: Action)
    requires IsRun(s, run + [a])
    ensures IsRun(s, run) && Enabled(After(s, run), a) && After(s, run + [a]) == Step(After(s, run), a)
    decreases |run|
  {
    hide Step, Enabled;
    if run == [] {
      assert run + [a] == [a] && [a][1..] == [];
    } else {
      assert (run + [a])[0] == run[0] && (run + [a])[1..] == run[1..] + [a];
      RunSnoc(Step(s, run[0]), run[1..], a);
    }
  }

  /** Calls under way decode the keyframe they found at the width they asked for, and the cache holds the last
      decode. */
  ghost predicate WidthsKnown(s: State, run: seq<Action>) {
    && Newest(run) == s.annexb
    && (forall c :: c in s.calls ==> Asked(run, c).Some? && Asked(run, c).value.1 == s.calls[c].width)
    && (forall c :: c in s.calls && s.calls[c].Decoding? ==> Asked(run, c).value.0 == Some(s.calls[c].frame))
    && (s.cached.Some? ==> s.cachedAt == LastDoneAt(run))
    && LastDecoded(run) == if s.cached.Some? then Some((Some(s.cached.value.frame), s.cached.value.scale)) else None
  }

  lemma StepKeepsWidthsKnown(s: State, g: seq<Action>, a: Action)
    requires WidthsKnown(s, g) && Enabled(s, a)
    ensures WidthsKnown(Step(s, a), g + [a])
  {
    var run := g + [a];
    assert run[..|run| - 1] == g && run[|run| - 1] == a;
  }

  lemma {:induction false} WidthsOfRuns(run: seq<Action>)
    requires IsRun(Init(), run)
    ensures WidthsKnown(After(Init(), run), run)
    decreases |run|
  {
    hide Step, Enabled;
    if run != [] {
      var g, a := run[..|run| - 1], run[|run| - 1];
      assert run == g + [a];
      RunSnoc(Init(), g, a);
      WidthsOfRuns(g);
      StepKeepsWidthsKnown(After(Init(), g), g, a);
    }
  }

  /** The width asked for is honoured exactly when the caller decoded the picture itself, or the decode
      that last succeeded was of a keyframe and for a width that serve it. */
  lemma WidthIsHonouredExactly(run: seq<Action>, a: Action)
    requires IsRun(Init(), run) && Enabled(After(Init(), run), a)
    requires var s := After(Init(), run);
      |Step(s, a).replies| > |s.replies| && Step(s, a).replies[|s.replies|].reply.Ok?
    ensures var s := After(Init(), run);
      var r, last := Step(s, a).replies[|s.replies|], LastDecoded(run);
      Honours(r.reply.picture, r.width) <==>
        || (a.Done? && a.success)
        || (last.Some? && last.value.0.Some? && Serves(last.value.0.value.native, last.value.1, r.width))
  {
    WidthsOfRuns(run);
  }

  // ---- what every call gets ----------------------------------------------------------------

  /** The call returns at once with this reply. */
  ghost predicate Answers(s: State, t: State, c: Caller, width: nat, reply: Reply) {
    c !in t.calls && t.replies == s.replies + [Return(c, width, reply)] && t.annexb == s.annexb && t.cached == s.cached
  }

  ghost predicate SomeoneDecodes(s: State) {
    exists d :: d in s.calls && s.calls[d].Decoding?
  }

  lemma InflightMeansDecoding(s: State)
    requires OneDecoder(s)
    ensures s.inflight.Some? <==> SomeoneDecodes(s)
  {
  }

  /** What a call gets, told from the run so far: the last picture while it is younger than two seconds; else, while
      someone decodes, the last picture however old, or a place to wait when there is none; else it decodes the newest
      keyframe at the width it asks for, unless none has come in. */
  lemma EnterGetsExactly(run: seq<Action>, c: Caller, width: nat, now: int)
    requires IsRun(Init(), run) && c !in After(Init(), run).calls
    ensures var s := After(Init(), run);
      var t := Step(s, Enter(c, width, now));
      var last := LastPicture(run);
      if last.Some? && (now - LastDoneAt(run) < 2_000_000_000 || SomeoneDecodes(s)) then
        Answers(s, t, c, width, Ok(last.value))
      else if SomeoneDecodes(s) then
        c in t.calls && t.calls[c].Waiting? && t.calls[c].width == width && s.inflight == Some(t.calls[c].chan)
        && t.replies == s.replies
      else if Newest(run).Some? then
        c in t.calls && t.calls[c].Decoding? && t.calls[c].frame == Newest(run).value && t.calls[c].width == width
        && t.replies == s.replies
      else Answers(s, t, c, width, NoSnapshot)
  {
    WidthsOfRuns(run);
    RunKeepsInv(Init(), run);
    InflightMeansDecoding(After(Init(), run));
    hide After, IsRun, LastDecoded, LastDoneAt, Newest, Asked, SomeoneDecodes;
  }

  /** And what it gets later: its own decode of the keyframe and at the width of its entry, or the last picture, or
      the failure. A caller that waited gets the last picture too, and none only if there has never been one. */
  lemma ReturnsExactly(run: seq<Action>, a: Action)
    requires IsRun(Init(), run) && Enabled(After(Init(), run), a) && (a.Done? || a.Wake? || a.Cancel?)
    ensures var s, t := After(Init(), run), Step(After(Init(), run), a);
      var asked, last := Asked(run, a.caller), LastPicture(run);
      && asked.Some? && (a.Done? ==> asked.value.0.Some?)
      && a.caller !in t.calls
      && t.replies == s.replies + [Return(a.caller, asked.value.1,
           if a.Cancel? then Cancelled
           else if a.Done? && a.success then Ok(Picture(asked.value.0.value, asked.value.1))
           else if last.Some? then Ok(last.value)
           else if a.Done? then Failed else NoSnapshot)]
  {
    WidthsOfRuns(run);
    hide After, IsRun, LastDecoded, LastDoneAt, Newest, Asked;
  }

  ghost predicate AsksOnly(run: seq<Action>, width: nat) {
    forall i :: 0 <= i < |run| && run[i].Enter? ==> run[i].width == width
  }

  ghost predicate OneWidth(s: State, width: nat) {
    && (forall c :: c in s.calls ==> s.calls[c].width == width)
    && (s.cached.Some? ==> s.cached.value.scale == width)
    && (forall i :: 0 <= i < |s.replies| && s.replies[i].reply.Ok? ==> s.replies[i].reply.picture.scale == width)
  }

  lemma {:induction false} OneWidthStays(s: State, run: seq<Action>, width: nat)
    requires IsRun(s, run) && AsksOnly(run, width) && OneWidth(s, width)
    ensures OneWidth(After(s, run), width)
    decreases |run|
  {
    if run != [] {
      OneWidthStays(Step(s, run[0]), run[1..], width);
    }
  }

  /** When every caller asks for the same width, every picture returned honours it. */
  lemma SameWidthIsHonoured(run: seq<Action>, width: nat, i: nat)
    requires IsRun(Init(), run) && AsksOnly(run, width)
    requires i < |After(Init(), run).replies| && After(Init(), run).replies[i].reply.Ok?
    ensures var p := After(Init(), run).replies[i].reply.picture; p.scale == width && Honours(p, width)
  {
    OneWidthStays(Init(), run, width);
  }

  lemma AfterCons(s: State, a: Action, rest: seq<Action>)
    requires Enabled(s, a) && IsRun(Step(s, a), rest)
    ensures IsRun(s, [a] + rest) && After(s, [a] + rest) == After(Step(s, a), rest)
  {
    assert ([a] + rest)[1..] == rest;
  }

  /** It happens: one caller decodes at 320, the next asks for full resolution within the cache time. */
  lemma WidthCanBeIgnored(f: Frame)
    requires f.native != 320
    ensures var run := [Offer(f, true), Enter(0, 320, 0), Done(0, true, 0), Enter(1, 0, 1)];
      IsRun(Init(), run) && After(Init(), run).replies
        == [Return(0, 320, Ok(Picture(f, 320))), Return(1, 0, Ok(Picture(f, 320)))]
    ensures !Honours(Picture(f, 320), 0)
  {
    var a, b, c, d := Offer(f, true), Enter(0, 320, 0), Done(0, true, 0), Enter(1, 0, 1);
    var run := [a, b, c, d];
    var s := Step(Init(), a);
    var t := Step(s, b);
    var u := Step(t, c);
    AfterCons(u, d, []);
    AfterCons(t, c, [d]);
    AfterCons(s, b, [c, d]);
    AfterCons(Init(), a, [b, c, d]);
    assert [d] + [] == [d] && [c] + [d] == [c, d] && [b] + [c, d] == [b, c, d] && [a] + [b, c, d] == run;
    assert u.replies == [Return(0, 320, Ok(Picture(f, 320)))];
  }

  // ---- the object --------------------------------------------------------------------------

  lemma FinishFacts(s: State, c: Caller)
    requires Inv(s) && c in s.calls && s.calls[c].Decoding?
    ensures s.calls[c].chan < |s.closes| && s.closes[s.calls[c].chan] == 0
  {
  }

  class Snapshot {
    var annexb: Option<Frame>
    var cachedJPG: Option<Picture>
    var cachedAt: int
    var inflight: Option<Chan>
    var closes: seq<nat>
    ghost var calls: map<Caller, Phase>
    ghost var offered: set<Frame>
    ghost var decodes: set<Picture>
    ghost var replies: seq<Return>

    ghost function Abs(): State
      reads this
    {
      State(annexb, cachedJPG, cachedAt, inflight, closes, calls, offered, decodes, replies)
    }

    constructor ()
      ensures Abs() == Init()
    {
      annexb, cachedJPG, cachedAt, inflight, closes := None, None, 0, None, [];
      calls, offered, decodes, replies := map[], {}, {}, [];
    }

    method OfferFrame(frame: Frame, randomAccess: bool)
      modifies this
      ensures Abs() == Step(old(Abs()), Offer(frame, randomAccess))
    {
      if !randomAccess {
        return;
      }
      annexb := Some(frame);
      offered := offered + {frame};
    }

    /** What the first locked section decides: answer at once, park on a channel, or decode. */
    method Begin(c: Caller, width: nat, now: int)
      returns (reply: Option<Reply>, park: Option<Chan>, decode: Option<(Chan, Frame)>)
      requires Inv(Abs()) && c !in calls
      modifies this
      ensures Abs() == Step(old(Abs()), Enter(c, width, now)) && Inv(Abs())
      ensures reply.Some? ==> replies == old(replies) + [Return(c, width, reply.value)] && c !in calls
      ensures park.Some? ==> c in calls && calls[c] == Waiting(park.value, width)
      ensures decode.Some? ==> c in calls && calls[c] == Decoding(decode.value.0, decode.value.1, width)
      ensures reply.Some? || park.Some? || decode.Some?
    {
      StepKeepsInv(Abs(), Enter(c, width, now));
      hide Inv;
      reply, park, decode := None, None, None;
      if cachedJPG.Some? && now - cachedAt < TTL {
        reply := Some(Ok(cachedJPG.value));
        replies, calls := replies + [Return(c, width, reply.value)], calls - {c};
        return;
      }
      if inflight.Some? {
        if cachedJPG.Some? {
          reply := Some(Ok(cachedJPG.value));
          replies, calls := replies + [Return(c, width, reply.value)], calls - {c};
          return;
        }
        park := inflight;
        calls := calls[c := Waiting(inflight.value, width)];
        return;
      }
      if annexb.None? {
        reply := Some(NoSnapshot);
        replies, calls := replies + [Return(c, width, reply.value)], calls - {c};
        return;
      }
      var wait := |closes|;
      closes := closes + [0];
      inflight := Some(wait);
      decode := Some((wait, annexb.value));
      calls := calls[c := Decoding(wait, annexb.value, width)];
    }

    /** The second locked section of the caller that decoded: wait is open, and closed here. */
    method Finish(c: Caller, wait: Chan, frame: Frame, width: nat, success: bool, now: int) returns (reply: Reply)
      requires Inv(Abs()) && c in calls && calls[c] == Decoding(wait, frame, width)
      modifies this
      ensures old(wait < |closes| && closes[wait] == 0)
      ensures wait < |old(closes)| && Abs() == Step(old(Abs()), Done(c, success, now)) && Inv(Abs())
      ensures replies == old(replies) + [Return(c, width, reply)]
    {
      FinishFacts(Abs(), c);
      StepKeepsInv(Abs(), Done(c, success, now));
      hide Inv;
      if success {
        cachedAt := now;
        cachedJPG := Some(Picture(frame, width));
        decodes := decodes + {Picture(frame, width)};
      }
      inflight := None;
      closes := closes[wait := closes[wait] + 1];
      if success {
        reply := Ok(Picture(frame, width));
      } else if cachedJPG.Some? {
        reply := Ok(cachedJPG.value);
      } else {
        reply := Failed;
      }
      replies, calls := replies + [Return(c, width, reply)], calls - {c};
    }

    /** A parked caller after its channel was closed. */
    method Resume(c: Caller, wait: Chan, width: nat) returns (reply: Reply)
      requires Inv(Abs()) && c in calls && calls[c] == Waiting(wait, width) && wait < |closes| && closes[wait] > 0
      modifies this
      ensures Abs() == Step(old(Abs()), Wake(c)) && Inv(Abs())
      ensures replies == old(replies) + [Return(c, width, reply)]
    {
      StepKeepsInv(Abs(), Wake(c));
      hide Inv;
      reply := if cachedJPG.Some? then Ok(cachedJPG.value) else NoSnapshot;
      replies, calls := replies + [Return(c, width, reply)], calls - {c};
    }
  }
}
