/** What a live subscriber gets, over every run of the protocol. */
module LiveDelivery {
  import opened LiveProtocol
  import opened MachineInts
  import opened Options

  /** Everything on its way to the consumer, in order: already received, in the outgoing channel,
      in the forwarder's hand, still in the raw channel. */
  function Delivered(u: Sub): seq<Frame> {
    u.received + u.out + (if u.hand.Some? then [Rebase(u.hand.value, u.startPTS)] else [])
      + RebaseAll(u.raw, u.startPTS)
  }

  predicate InSubs(h: Hub, id: SubId) {
    id in h.subs && h.subs[id].stream in h.states && id in h.states[h.subs[id].stream].subs
  }

  /** The frames offered to a stream by a run, in order. */
  function OfferedTo(st: StreamId, trace: seq<Action>): seq<Frame> {
    if trace == [] then []
    else (if trace[0].Offer? && trace[0].st == st then [trace[0].f] else []) + OfferedTo(st, trace[1..])
  }

  /** For how many actions of the run the subscriber stays attached. */
  function Stay(h: Hub, id: SubId, trace: seq<Action>): (n: nat)
    ensures n <= |trace|
    decreases |trace|
  {
    if trace == [] || !InSubs(Step(h, trace[0]), id) then 0
    else 1 + Stay(Step(h, trace[0]), id, trace[1..])
  }

  // ---- one step ----------------------------------------------------------------------------

  lemma RebaseSnoc(fs: seq<Frame>, f: Frame, start: int)
    ensures RebaseAll(fs + [f], start) == RebaseAll(fs, start) + [Rebase(f, start)]
  {
  }

  lemma RebaseConcat(a: seq<Frame>, b: seq<Frame>, start: int)
    ensures RebaseAll(a + b, start) == RebaseAll(a, start) + RebaseAll(b, start)
  {
  }

  lemma RebaseHead(fs: seq<Frame>, start: int)
    requires fs != []
    ensures RebaseAll(fs, start) == [Rebase(fs[0], start)] + RebaseAll(fs[1..], start)
  {
  }

  /** Moving a frame along, or closing, changes nothing about what is delivered. */
  lemma MovingDelivers(u: Sub, a: Action)
    ensures Delivered(StepSub(u, a)) == Delivered(u)
    ensures StepSub(u, a).stream == u.stream && StepSub(u, a).startPTS == u.startPTS
  {
    if a.Take? && u.raw != [] {
      RebaseHead(u.raw, u.startPTS);
    }
    hide RebaseAll;
    if a.Receive? && u.out != [] {
      assert u.received + u.out == u.received + [u.out[0]] + u.out[1..];
    }
  }

  lemma OfferingDelivers(u: Sub, f: Frame)
    requires u.closes == 0
    ensures Delivered(OfferTo(u, f)) == Delivered(u) + if Keeps(u) then [Rebase(f, u.startPTS)] else []
    ensures OfferTo(u, f).stream == u.stream && OfferTo(u, f).startPTS == u.startPTS
  {
    RebaseSnoc(u.raw, f, u.startPTS);
  }

  lemma ClosingDelivers(u: Sub)
    ensures Delivered(CloseOnce(u)) == Delivered(u)
    ensures CloseOnce(u).stream == u.stream && CloseOnce(u).startPTS == u.startPTS
  {
  }

  /** What one action adds to the deliveries of subscriber id. */
  function Added(h: Hub, a: Action, id: SubId): seq<Frame>
    requires id in h.subs
  {
    if a.Offer? && a.st == h.subs[id].stream && InSubs(h, id) && InSubs(Step(h, a), id) then [a.f] else []
  }

  ghost predicate Progress(h: Hub, a: Action, id: SubId)
    requires id in h.subs
  {
    var h', u := Step(h, a), h.subs[id];
    && id in h'.subs
    && h'.subs[id].stream == u.stream && h'.subs[id].startPTS == u.startPTS
    && Delivered(h'.subs[id]) == Delivered(u) + RebaseAll(Added(h, a, id), u.startPTS)
    && (InSubs(h', id) ==> InSubs(h, id))
  }

  lemma NothingAdded(u: Sub)
    ensures Delivered(u) + RebaseAll([], u.startPTS) == Delivered(u)
  {
  }

  /** The subscriber an action leaves behind. */
  function After(h: Hub, a: Action, id: SubId): Sub
    requires id in h.subs
  {
    var u := h.subs[id];
    match a
    case Begin(st) => if InSubs(h, id) && u.stream == st then CloseOnce(u) else u
    case Teardown(st) => if InSubs(h, id) && u.stream == st && !Linked(h, st) then CloseOnce(u) else u
    case Offer(st, f) => if InSubs(h, id) && u.stream == st then OfferTo(u, f) else u
    case Create(_, _) => u
    case Unlink(_) => u
    case Subscribe(_, _) => u
    case Detach(i) => if i == id && u.stream in h.states then StepSub(u, a) else u
    case _ => if a.id == id then StepSub(u, a) else u
  }

  /** Only its own Subscribe attaches a subscriber; an offer to its stream keeps it unless its
      channel is full. */
  ghost predicate Leaves(h: Hub, a: Action, id: SubId)
    requires id in h.subs
  {
    var h' := Step(h, a);
    && id in h'.subs && h'.subs[id] == After(h, a, id)
    && (InSubs(h', id) ==> InSubs(h, id))
    && (InSubs(h, id) && a.Offer? && a.st == h.subs[id].stream ==> (InSubs(h', id) <==> Keeps(h.subs[id])))
  }

  lemma OneStream(h: Hub, st: StreamId, id: SubId)
    requires Inv(h) && id in h.subs && st in h.states && id in h.states[st].subs
    ensures h.subs[id].stream == st && h.subs[id].closes == 0 && !h.states[st].closed
  {
    assert StreamOk(h, st);
  }

  lemma CloseSubsAt(m: map<SubId, Sub>, ids: set<SubId>, id: SubId)
    requires id in m
    ensures id in CloseSubs(m, ids)
    ensures CloseSubs(m, ids)[id] == if id in ids then CloseOnce(m[id]) else m[id]
    ensures CloseOnce(m[id]).stream == m[id].stream
  {
  }

  lemma OfferSubsAt(m: map<SubId, Sub>, ids: set<SubId>, f: Frame, id: SubId)
    requires id in m
    ensures id in OfferSubs(m, ids, f)
    ensures OfferSubs(m, ids, f)[id] == if id in ids then OfferTo(m[id], f) else m[id]
    ensures OfferTo(m[id], f).stream == m[id].stream
    ensures id in KeptSubs(m, ids) <==> id in ids && Keeps(m[id])
  {
  }

  lemma BeginLeaves(h: Hub, st: StreamId, id: SubId)
    requires Inv(h) && id in h.subs
    ensures Leaves(h, Begin(st), id)
  {
    hide Inv, CloseOnce, CloseSubs;
    if st in h.states {
      if id in h.states[st].subs { OneStream(h, st, id); }
      CloseSubsAt(h.subs, h.states[st].subs, id);
    }
  }

  lemma TeardownLeaves(h: Hub, st: StreamId, id: SubId)
    requires Inv(h) && id in h.subs
    ensures Leaves(h, Teardown(st), id)
  {
    hide Inv, CloseOnce, CloseSubs, Linked;
    if st in h.states {
      if id in h.states[st].subs { OneStream(h, st, id); }
      CloseSubsAt(h.subs, h.states[st].subs, id);
    }
  }

  lemma AcceptKeeps(x: Stream, f: Frame)
    ensures Accept(x, f).closed == x.closed && Accept(x, f).subs == x.subs
  {
  }

  lemma OfferLeaves(h: Hub, st: StreamId, f: Frame, id: SubId)
    requires Inv(h) && id in h.subs
    ensures Leaves(h, Offer(st, f), id)
  {
    hide Inv, OfferTo, OfferSubs, KeptSubs, Accept, Keeps;
    if st in h.states {
      if id in h.states[st].subs { OneStream(h, st, id); }
      OfferSubsAt(h.subs, h.states[st].subs, f, id);
      AcceptKeeps(h.states[st], f);
    }
  }

  lemma SubscribeLeaves(h: Hub, st: StreamId, i: SubId, id: SubId)
    requires Inv(h) && id in h.subs
    ensures Leaves(h, Subscribe(st, i), id)
  {
    hide Inv, NewSub;
  }

  lemma CreateLeaves(h: Hub, key: Key, st: StreamId, id: SubId)
    requires Inv(h) && id in h.subs
    ensures Leaves(h, Create(key, st), id)
  {
    assert Attached(h, id);
    hide Inv;
  }

  lemma UnlinkLeaves(h: Hub, key: Key, id: SubId)
    requires id in h.subs
    ensures Leaves(h, Unlink(key), id)
  {
  }

  lemma DetachLeaves(h: Hub, i: SubId, id: SubId)
    requires Inv(h) && id in h.subs
    ensures Leaves(h, Detach(i), id)
  {
    hide Inv;
  }

  lemma LocalLeaves(h: Hub, a: Action, id: SubId)
    requires id in h.subs && Local(a)
    ensures Leaves(h, a, id)
  {
    MovingDelivers(h.subs[id], a);
    hide StepSub, Delivered, StepStream;
  }

  lemma StepLeaves(h: Hub, a: Action, id: SubId)
    requires Inv(h) && id in h.subs
    ensures Leaves(h, a, id)
  {
    hide Leaves, Inv;
    match a
    case Begin(st) => BeginLeaves(h, st, id);
    case Teardown(st) => TeardownLeaves(h, st, id);
    case Offer(st, f) => OfferLeaves(h, st, f, id);
    case Subscribe(st, i) => SubscribeLeaves(h, st, i, id);
    case Create(key, st) => CreateLeaves(h, key, st, id);
    case Unlink(key) => UnlinkLeaves(h, key, id);
    case Detach(i) => DetachLeaves(h, i, id);
    case _ => LocalLeaves(h, a, id);
  }

  lemma OtherActionsDeliver(h: Hub, a: Action, id: SubId)
    requires id in h.subs && !a.Offer?
    ensures Delivered(After(h, a, id)) == Delivered(h.subs[id])
    ensures After(h, a, id).stream == h.subs[id].stream && After(h, a, id).startPTS == h.subs[id].startPTS
  {
    ClosingDelivers(h.subs[id]);
    MovingDelivers(h.subs[id], a);
    hide Delivered, StepSub, CloseOnce, InSubs, Linked;
  }

  lemma RebaseOne(f: Frame, start: int)
    ensures RebaseAll([f], start) == [Rebase(f, start)]
  {
  }

  lemma OffersDeliver(h: Hub, st: StreamId, f: Frame, id: SubId)
    requires Inv(h) && id in h.subs
    ensures var u, a := h.subs[id], Offer(st, f);
      && Delivered(After(h, a, id)) == Delivered(u) + RebaseAll(Added(h, a, id), u.startPTS)
      && After(h, a, id).stream == u.stream && After(h, a, id).startPTS == u.startPTS
  {
    OfferLeaves(h, st, f, id);
    var u := h.subs[id];
    NothingAdded(u);
    if InSubs(h, id) && st == u.stream {
      OneStream(h, st, id);
      OfferingDelivers(u, f);
      RebaseOne(f, u.startPTS);
    }
    hide Delivered, RebaseAll, Inv, Step, OfferTo, Keeps;
  }

  lemma StepProgress(h: Hub, a: Action, id: SubId)
    requires Inv(h) && id in h.subs
    ensures Progress(h, a, id)
  {
    StepLeaves(h, a, id);
    if a.Offer? {
      OffersDeliver(h, a.st, a.f, id);
    } else {
      OtherActionsDeliver(h, a, id);
      NothingAdded(h.subs[id]);
    }
    hide Delivered, RebaseAll, Inv, Step, After, InSubs;
  }

  // ---- whole runs --------------------------------------------------------------------------

  /** The frames a run adds to the deliveries of subscriber id. */
  function Due(h: Hub, id: SubId, trace: seq<Action>): seq<Frame>
    requires id in h.subs
  {
    if InSubs(h, id) then OfferedTo(h.subs[id].stream, trace[..Stay(h, id, trace)]) else []
  }

  lemma OfferedUnfolds(st: StreamId, trace: seq<Action>, n: nat)
    requires 0 < n <= |trace|
    ensures OfferedTo(st, trace[..n])
            == (if trace[0].Offer? && trace[0].st == st then [trace[0].f] else []) + OfferedTo(st, trace[1..][..n - 1])
  {
    assert trace[..n][1..] == trace[1..][..n - 1];
  }

  lemma NoneOffered(st: StreamId, trace: seq<Action>)
    requires trace == []
    ensures OfferedTo(st, trace) == []
  {
  }

  lemma DueUnfolds(h: Hub, id: SubId, trace: seq<Action>)
    requires Inv(h) && id in h.subs && trace != []
    ensures var h1 := Step(h, trace[0]);
      && id in h1.subs
      && Due(h, id, trace) == Added(h, trace[0], id) + Due(h1, id, trace[1..])
  {
    hide Step, Inv, InSubs, Delivered, RebaseAll, OfferedTo;
    StepProgress(h, trace[0], id);
    if Stay(h, id, trace) > 0 {
      OfferedUnfolds(h.subs[id].stream, trace, Stay(h, id, trace));
    } else {
      NoneOffered(h.subs[id].stream, trace[..0]);
    }
  }

  lemma Regroup(a: seq<Frame>, b: seq<Frame>, c: seq<Frame>)
    ensures a + (b + c) == a + b + c
  {
  }

  /** Over any run from a reachable state, what is delivered to a subscriber grows by exactly the
      frames offered to its stream while it stays attached, shifted by its own start. */
  lemma {:induction false} RunDelivers(h: Hub, id: SubId, trace: seq<Action>)
    requires Inv(h) && id in h.subs
    ensures var u, h' := h.subs[id], Run(h, trace);
      && id in h'.subs
      && h'.subs[id].stream == u.stream && h'.subs[id].startPTS == u.startPTS
      && Delivered(h'.subs[id]) == Delivered(u) + RebaseAll(Due(h, id, trace), u.startPTS)
    decreases |trace|
  {
    var u := h.subs[id];
    NothingAdded(u);
    if trace != [] {
      var a, rest := trace[0], trace[1..];
      var h1 := Step(h, a);
      StepKeepsInv(h, a);
      StepProgress(h, a, id);
      RunDelivers(h1, id, rest);
      DueUnfolds(h, id, trace);
      RebaseConcat(Added(h, a, id), Due(h1, id, rest), u.startPTS);
      hide RebaseAll, Delivered, Inv, Due, Added, Step;
      Regroup(Delivered(u), RebaseAll(Added(h, a, id), u.startPTS), RebaseAll(Due(h1, id, rest), u.startPTS));
    }
  }

  lemma RebasedFields(fs: seq<Frame>)
    requires fs != []
    ensures var out := RebaseAll(fs, fs[0].pts);
      && (forall i :: 0 <= i < |fs| ==>
            out[i].au == fs[i].au && out[i].key == fs[i].key && out[i].pts == ToInt64(fs[i].pts - fs[0].pts))
      && out[0].pts == 0
  {
  }

  lemma NewSubDelivers(st: StreamId, ring: seq<Frame>)
    requires ring != []
    ensures var u := NewSub(st, ring);
      Delivered(u) == RebaseAll(ring, ring[0].pts) && u.stream == st && u.startPTS == ring[0].pts
  {
  }

  lemma Attaches(h: Hub, st: StreamId, id: SubId)
    requires Inv(h) && st in h.states && id !in h.subs
    requires h.states[st].ring != [] && !h.states[st].closed
    ensures var ring, h1 := h.states[st].ring, Step(h, Subscribe(st, id));
      && Inv(h1) && InSubs(h1, id) && id in h1.subs
      && h1.subs[id].stream == st && h1.subs[id].startPTS == ring[0].pts
      && Delivered(h1.subs[id]) == RebaseAll(ring, ring[0].pts)
  {
    StepKeepsInv(h, Subscribe(st, id));
    RingFits(h, st);
    NewSubDelivers(st, h.states[st].ring);
    hide Inv;
  }

  /** The whole story of one viewer, for every interleaving from any reachable state: received,
      queued and in-flight frames together are the ring at subscription followed by every frame
      offered until the viewer left, without gap, repeat or reordering, all shifted by the same
      constant so that the first one is at 0. */
  lemma ViewerGetsExactly(h: Hub, st: StreamId, id: SubId, trace: seq<Action>)
    requires Inv(h) && st in h.states && id !in h.subs
    requires h.states[st].ring != [] && !h.states[st].closed
    ensures var ring := h.states[st].ring;
      var h1 := Step(h, Subscribe(st, id));
      var h2 := Run(h1, trace);
      && InSubs(h1, id) && id in h2.subs
      && Delivered(h2.subs[id])
         == RebaseAll(ring + OfferedTo(st, trace[..Stay(h1, id, trace)]), ring[0].pts)
      && var sent := ring + OfferedTo(st, trace[..Stay(h1, id, trace)]);
      && (forall i :: 0 <= i < |sent| ==>
            var f := Delivered(h2.subs[id])[i];
            f.au == sent[i].au && f.key == sent[i].key && f.pts == ToInt64(sent[i].pts - sent[0].pts))
      && Delivered(h2.subs[id])[0].pts == 0
  {
    hide Inv, Step, Run, RebaseAll, Delivered, Rebase, OfferedTo, InSubs;
    var ring := h.states[st].ring;
    Attaches(h, st, id);
    var h1 := Step(h, Subscribe(st, id));
    RunDelivers(h1, id, trace);
    RebaseConcat(ring, Due(h1, id, trace), ring[0].pts);
    RebasedFields(ring + Due(h1, id, trace));
  }

  /** The actions that end a viewer's attachment. */
  predicate Ousts(h: Hub, a: Action, id: SubId)
    requires id in h.subs
  {
    match a
    case Begin(st) => st == h.subs[id].stream
    case Teardown(st) => st == h.subs[id].stream && !Linked(h, st)
    case Offer(st, _) => st == h.subs[id].stream && |h.subs[id].raw| == SUB_BUF
    case Detach(i) => i == id
    case _ => false
  }

  lemma OtherStreamStays(h: Hub, a: Action, id: SubId)
    requires Inv(h) && InSubs(h, id) && (a.Begin? || a.Offer? || a.Teardown?) && !Ousts(h, a, id)
    requires Leaves(h, a, id) && SubOk(h.subs[id])
    ensures InSubs(Step(h, a), id)
  {
    hide Inv, Linked, CloseSubs, OfferSubs, KeptSubs, Accept, CloseOnce, OfferTo;
  }

  lemma OtherSubStays(h: Hub, a: Action, id: SubId)
    requires Inv(h) && InSubs(h, id) && (a.Subscribe? || (a.Detach? && a.id != id))
    requires Leaves(h, a, id)
    ensures InSubs(Step(h, a), id)
  {
    hide Inv, NewSub, StepSub;
  }

  lemma StatesKept(h: Hub, a: Action)
    requires Local(a)
    ensures Step(h, a).states == h.states
  {
    hide StepSub, StepStream;
  }

  lemma MovesStay(h: Hub, a: Action, id: SubId)
    requires InSubs(h, id) && Local(a)
    requires Leaves(h, a, id)
    ensures InSubs(Step(h, a), id)
  {
    MovingDelivers(h.subs[id], a);
    StatesKept(h, a);
    hide StepSub, Delivered, Step;
  }

  lemma LookupsStay(h: Hub, a: Action, id: SubId)
    requires InSubs(h, id) && (a.Create? || a.Unlink?)
    requires Leaves(h, a, id)
    ensures InSubs(Step(h, a), id)
  {
    hide StepStream, StepSub;
  }

  lemma Known(h: Hub, id: SubId)
    requires InSubs(h, id)
    ensures id in h.subs
  {
  }

  lemma SubOkOf(h: Hub, id: SubId)
    requires Inv(h) && id in h.subs
    ensures SubOk(h.subs[id])
  {
  }

  lemma OthersStay(h: Hub, a: Action, id: SubId)
    requires Inv(h) && InSubs(h, id) && !Ousts(h, a, id)
    ensures InSubs(Step(h, a), id)
  {
    hide Inv, Step, InSubs, Linked, Leaves, Stay, SubOk;
    Known(h, id);
    SubOkOf(h, id);
    StepLeaves(h, a, id);
    match a
    case Begin(_) => OtherStreamStays(h, a, id);
    case Teardown(_) => OtherStreamStays(h, a, id);
    case Offer(_, _) => OtherStreamStays(h, a, id);
    case Subscribe(_, _) => OtherSubStays(h, a, id);
    case Detach(_) => OtherSubStays(h, a, id);
    case Create(_, _) => LookupsStay(h, a, id);
    case Unlink(_) => LookupsStay(h, a, id);
    case _ => MovesStay(h, a, id);
  }

  lemma OustedLeaves(h: Hub, a: Action, id: SubId)
    requires Inv(h) && InSubs(h, id) && Ousts(h, a, id) && Leaves(h, a, id) && SubOk(h.subs[id])
    ensures !InSubs(Step(h, a), id)
    ensures !a.Detach? ==> After(h, a, id).closes == 1
  {
    OneStream(h, h.subs[id].stream, id);
    hide Inv, Linked, CloseSubs, OfferSubs, KeptSubs, Accept, SubOk;
  }

  /** A viewer leaves exactly through Begin or remove on its stream, its own cancel, or an offer that finds its
      channel full; every way but cancel, which does it in its second half, closes the channel in the same
      step. */
  lemma LeavesExactly(h: Hub, a: Action, id: SubId)
    requires Inv(h) && InSubs(h, id)
    ensures !InSubs(Step(h, a), id) <==> Ousts(h, a, id)
    ensures Ousts(h, a, id) && !a.Detach? ==> id in Step(h, a).subs && Step(h, a).subs[id].closes == 1
  {
    hide Inv, Linked, Step, InSubs, SubOk;
    Known(h, id);
    SubOkOf(h, id);
    StepLeaves(h, a, id);
    if Ousts(h, a, id) {
      OustedLeaves(h, a, id);
    } else {
      OthersStay(h, a, id);
    }
  }

  // ---- after the close ---------------------------------------------------------------------

  /** What the forwarder and the consumer do next once the raw channel is closed. */
  function Drain(u: Sub, id: SubId): seq<Action>
    requires SubOk(u) && u.closes == 1
    decreases |u.raw| * 3 + (if u.hand.Some? then 2 else 0) + |u.out| + (if u.outClosed then 0 else 1)
  {
    if u.out != [] then [Receive(id)] + Drain(StepSub(u, Receive(id)), id)
    else if u.hand.Some? then [Put(id)] + Drain(StepSub(u, Put(id)), id)
    else if u.raw != [] then [Take(id)] + Drain(StepSub(u, Take(id)), id)
    else if !u.outClosed then [Exit(id)] + Drain(StepSub(u, Exit(id)), id)
    else []
  }

  lemma DrainEnds(u: Sub, id: SubId)
    requires SubOk(u) && u.closes == 1 && Drain(u, id) == []
    ensures u.outClosed && Delivered(u) == u.received
  {
  }

  lemma DrainBegins(u: Sub, id: SubId)
    requires SubOk(u) && u.closes == 1 && Drain(u, id) != []
    ensures var a := Drain(u, id)[0];
      && Local(a) && a.id == id && SubOk(StepSub(u, a)) && StepSub(u, a).closes == 1
      && Drain(u, id)[1..] == Drain(StepSub(u, a), id)
      && Delivered(StepSub(u, a)) == Delivered(u)
  {
    MovingDelivers(u, Drain(u, id)[0]);
    hide Delivered;
  }

  /** Once a raw channel is closed nothing is stranded: running the forwarder and the consumer hands
      over every frame delivered, in order, and then closes the consumer's channel. */
  lemma {:induction false} ClosedViewerDrains(h: Hub, id: SubId)
    requires Inv(h) && id in h.subs && SubOk(h.subs[id]) && h.subs[id].closes == 1
    ensures var h' := Run(h, Drain(h.subs[id], id));
      && id in h'.subs && h'.subs[id].outClosed
      && h'.subs[id].received == Delivered(h.subs[id])
    decreases |Drain(h.subs[id], id)|
  {
    var u := h.subs[id];
    var trace := Drain(u, id);
    if trace != [] {
      var a := trace[0];
      DrainBegins(u, id);
      hide Drain, Delivered, SubOk, Inv, StepSub, Step;
      LocalStep(h, a);
      StepKeepsInv(h, a);
      ClosedViewerDrains(Step(h, a), id);
    } else {
      DrainEnds(u, id);
    }
  }

  // ---- after a cancel or a remove ----------------------------------------------------------

  lemma AfterIsLater(h: Hub, a: Action, id: SubId)
    requires id in h.subs && SubOk(h.subs[id])
    ensures var u, v := h.subs[id], After(h, a, id);
      (u.closes == 1 ==> v.closes >= 1) && (u.detached ==> v.detached) && v.stream == u.stream
  {
    hide InSubs, Linked;
  }

  /** A subscriber stays known, detached and closed, and a left one never comes back. */
  lemma {:induction false} GoneForGood(h: Hub, id: SubId, trace: seq<Action>)
    requires Inv(h) && id in h.subs
    ensures var u, h' := h.subs[id], Run(h, trace);
      && Inv(h') && id in h'.subs && SubOk(h'.subs[id]) && h'.subs[id].stream == u.stream
      && (u.closes == 1 ==> h'.subs[id].closes == 1) && (u.detached ==> h'.subs[id].detached)
      && (InSubs(h', id) ==> InSubs(h, id))
    decreases |trace|
  {
    SubOkOf(h, id);
    if trace != [] {
      StepKeepsInv(h, trace[0]);
      StepLeaves(h, trace[0], id);
      AfterIsLater(h, trace[0], id);
      SubOkOf(Step(h, trace[0]), id);
      hide Inv, Step, After, InSubs;
      GoneForGood(Step(h, trace[0]), id, trace[1..]);
    }
  }

  lemma DetachLeavesFirst(h: Hub, id: SubId)
    requires Inv(h) && id in h.subs
    ensures var d := Step(h, Detach(id)); id in d.subs && d.subs[id].detached && !InSubs(d, id) && Inv(d)
  {
    DetachKeepsInv(h, id);
    assert Attached(h, id);
    hide Inv;
  }

  lemma CancelCloseCloses(h: Hub, id: SubId)
    requires id in h.subs && SubOk(h.subs[id]) && h.subs[id].detached
    ensures id in Step(h, CancelClose(id)).subs && Step(h, CancelClose(id)).subs[id].closes == 1
  {
  }

  lemma StepDelivers(h: Hub, a: Action, id: SubId)
    requires Inv(h) && id in h.subs && !a.Offer?
    ensures var h' := Step(h, a);
      id in h'.subs && Delivered(h'.subs[id]) == Delivered(h.subs[id]) && (InSubs(h', id) ==> InSubs(h, id))
  {
    StepLeaves(h, a, id);
    OtherActionsDeliver(h, a, id);
    hide Inv, Step, Delivered, After;
  }

  lemma LeftGetsNothing(h: Hub, id: SubId, trace: seq<Action>)
    requires Inv(h) && id in h.subs && !InSubs(h, id)
    ensures id in Run(h, trace).subs && Delivered(Run(h, trace).subs[id]) == Delivered(h.subs[id])
  {
    RunDelivers(h, id, trace);
    NothingAdded(h.subs[id]);
    hide Run, Inv, InSubs, Delivered, RebaseAll;
  }

  /** Cancel closes the channel, whatever happens between its halves and after it: the viewer has left for
      good, and the forwarder and consumer can end, having handed over all that had been delivered when it
      left. */
  lemma CancelCloses(h: Hub, id: SubId, between: seq<Action>, after: seq<Action>)
    requires Inv(h) && id in h.subs
    ensures var g := Run(Step(Run(Step(h, Detach(id)), between), CancelClose(id)), after);
      && Inv(g) && id in g.subs && !InSubs(g, id) && SubOk(g.subs[id]) && g.subs[id].closes == 1
      && var e := Run(g, Drain(g.subs[id], id));
      id in e.subs && e.subs[id].outClosed && e.subs[id].received == Delivered(h.subs[id])
  {
    hide Run, Step, Inv, InSubs, SubOk, Delivered, Drain, Due, RebaseAll, StepSub;
    var d := Step(h, Detach(id));
    DetachLeavesFirst(h, id);
    StepDelivers(h, Detach(id), id);
    var m := Run(d, between);
    GoneForGood(d, id, between);
    LeftGetsNothing(d, id, between);
    var c := Step(m, CancelClose(id));
    CancelCloseCloses(m, id);
    StepKeepsInv(m, CancelClose(id));
    StepDelivers(m, CancelClose(id), id);
    GoneForGood(c, id, after);
    LeftGetsNothing(c, id, after);
    ClosedViewerDrains(Run(c, after), id);
  }

  /** No lookup finds the stream; once torn down it is closed too. */
  ghost predicate Orphaned(h: Hub, st: StreamId, closed: bool) {
    st in h.states && !Linked(h, st) && (closed ==> h.states[st].closed)
  }

  lemma OrphanStays(h: Hub, a: Action, st: StreamId, closed: bool)
    requires Orphaned(h, st, closed)
    ensures Orphaned(Step(h, a), st, closed)
  {
    hide CloseSubs, OfferSubs, KeptSubs, LastFrames, StepSub, NewSub;
  }

  lemma {:induction false} OrphanForGood(h: Hub, st: StreamId, closed: bool, trace: seq<Action>)
    requires Inv(h) && Orphaned(h, st, closed)
    ensures Inv(Run(h, trace)) && Orphaned(Run(h, trace), st, closed)
    decreases |trace|
  {
    hide Inv, Step, Orphaned;
    if trace != [] {
      StepKeepsInv(h, trace[0]);
      OrphanStays(h, trace[0], st, closed);
      OrphanForGood(Step(h, trace[0]), st, closed, trace[1..]);
    }
  }

  /** Nobody is attached to a stream that has been torn down, nobody can be, and it takes no frames. */
  ghost predicate Over(h: Hub, st: StreamId) {
    && Orphaned(h, st, true) && h.states[st].subs == {}
    && (forall id :: id in h.subs && h.subs[id].stream == st ==> h.subs[id].closes == 1 || h.subs[id].detached)
    && (forall id :: Step(h, Subscribe(st, id)) == h)
    && (forall f :: Step(h, Offer(st, f)) == h)
  }

  lemma ClosedRefuses(h: Hub, st: StreamId)
    requires st in h.states && h.states[st].closed
    ensures forall id :: Step(h, Subscribe(st, id)) == h
    ensures forall f :: Step(h, Offer(st, f)) == h
  {
    hide CloseSubs, OfferSubs, KeptSubs, Accept, NewSub;
  }

  lemma ClosesOnce(u: Sub)
    requires SubOk(u)
    ensures u.closes <= 1
  {
  }

  lemma ClosedIsOver(h: Hub, st: StreamId)
    requires Inv(h) && Orphaned(h, st, true)
    ensures Over(h, st)
  {
    hide Step, Linked, LastFrames, SinceKey, SubOk;
    ClosedRefuses(h, st);
    assert StreamOk(h, st);
    forall id | id in h.subs && h.subs[id].stream == st ensures h.subs[id].closes == 1 || h.subs[id].detached {
      SubOkOf(h, id);
      assert Attached(h, id);
      ClosesOnce(h.subs[id]);
    }
  }

  lemma UnlinkOrphans(h: Hub, key: Key)
    requires KeysOk(h) && KeysApart(h) && key in h.streams
    ensures Orphaned(Step(h, Unlink(key)), h.streams[key], false) && key !in Step(h, Unlink(key)).streams
  {
    hide StepStream, StepSub;
  }

  lemma TeardownCloses(h: Hub, st: StreamId)
    requires Orphaned(h, st, false)
    ensures Orphaned(Step(h, Teardown(st)), st, true)
  {
    hide CloseSubs;
  }

  /** Remove ends a stream, whatever happens between its parts and after it: no lookup finds it again, nobody
      is attached to it and every viewer's channel is closed or about to be by the viewer's own cancel. */
  lemma RemoveIsForGood(h: Hub, key: Key, between: seq<Action>, after: seq<Action>)
    requires Inv(h) && key in h.streams
    ensures key !in Step(h, Unlink(key)).streams
    ensures Over(Run(Step(Run(Step(h, Unlink(key)), between), Teardown(h.streams[key])), after), h.streams[key])
  {
    var st := h.streams[key];
    UnlinkOrphans(h, key);
    StepKeepsInv(h, Unlink(key));
    hide Inv, Step, Run, Orphaned, Over;
    OrphanForGood(Step(h, Unlink(key)), st, false, between);
    var u := Run(Step(h, Unlink(key)), between);
    TeardownCloses(u, st);
    StepKeepsInv(u, Teardown(st));
    OrphanForGood(Step(u, Teardown(st)), st, true, after);
    ClosedIsOver(Run(Step(u, Teardown(st)), after), st);
  }

  // ---- the head of the ring ----------------------------------------------------------------

  predicate HasKey(session: seq<Frame>) {
    exists i :: 0 <= i < |session| && session[i].key
  }

  lemma HasKeySnoc(session: seq<Frame>, f: Frame)
    ensures HasKey(session + [f]) <==> HasKey(session) || f.key
  {
    if HasKey(session) {
      var i :| 0 <= i < |session| && session[i].key;
      assert (session + [f])[i].key;
    }
    assert (session + [f])[|session|] == f;
  }

  /** Only the first of the frames since the newest keyframe can be one, and it is one if the
      session has any. */
  lemma {:induction false} SinceKeyShape(session: seq<Frame>)
    ensures var part := SinceKey(session);
      && (forall i :: 0 < i < |part| ==> !part[i].key)
      && (session != [] ==> part != [] && (part[0].key <==> HasKey(session)))
    decreases |session|
  {
    if session != [] {
      var init, f := session[..|session| - 1], session[|session| - 1];
      SinceKeyShape(init);
      HasKeySnoc(init, f);
      hide HasKey;
      assert session == init + [f];
    }
  }

  lemma RingHeadOfSession(h: Hub, st: StreamId)
    requires Inv(h) && st in h.states && h.states[st].ring != []
    ensures var x := h.states[st];
      x.ring[0].key <==> HasKey(x.session) && |SinceKey(x.session)| <= MAX_RING
  {
    assert StreamOk(h, st);
    SinceKeyShape(h.states[st].session);
    hide HasKey, SinceKey;
  }

  /** The stream exists and has not been torn down. */
  predicate Takes(h: Hub, st: StreamId) {
    st in h.states && !h.states[st].closed
  }

  /** The frames a run has offered to a stream that takes them, since its last Begin. */
  function OfferedSinceBegin(trace: seq<Action>, st: StreamId): seq<Frame>
    decreases |trace|
  {
    if trace == [] then []
    else
      var g, a := trace[..|trace| - 1], trace[|trace| - 1];
      if a == Begin(st) then []
      else OfferedSinceBegin(g, st) + if a.Offer? && a.st == st && Takes(Run(EMPTY, g), st) then [a.f] else []
  }

  /** The stream a run leaves under a key: the one created last, unless the key has been removed since. */
  function Listed(trace: seq<Action>, key: Key): Option<StreamId>
    decreases |trace|
  {
    if trace == [] then None
    else
      var g, a := trace[..|trace| - 1], trace[|trace| - 1];
      if a == Unlink(key) then None
      else if a.Create? && a.key == key && Listed(g, key).None? && a.st !in Run(EMPTY, g).states then Some(a.st)
      else Listed(g, key)
  }

  function Lookup(h: Hub, key: Key): Option<StreamId> {
    if key in h.streams then Some(h.streams[key]) else None
  }

  lemma LookupStep(h: Hub, a: Action, key: Key)
    ensures Lookup(Step(h, a), key) ==
      if a == Unlink(key) then None
      else if a.Create? && a.key == key && key !in h.streams && a.st !in h.states then Some(a.st)
      else Lookup(h, key)
  {
    hide CloseSubs, OfferSubs, KeptSubs, LastFrames, StepSub, NewSub;
  }

  lemma {:induction false} RunSnoc(h: Hub, g: seq<Action>, a: Action)
    ensures Run(h, g + [a]) == Step(Run(h, g), a)
    decreases |g|
  {
    hide Step;
    if g == [] {
      assert g + [a] == [a] && [a][1..] == [];
    } else {
      assert (g + [a])[0] == g[0] && (g + [a])[1..] == g[1..] + [a];
      RunSnoc(Step(h, g[0]), g[1..], a);
    }
  }

  /** Lookups find exactly what was created and not removed. */
  lemma {:induction false} LookupIsListed(trace: seq<Action>, key: Key)
    ensures Lookup(Run(EMPTY, trace), key) == Listed(trace, key)
    decreases |trace|
  {
    hide Step;
    if trace != [] {
      var g, a := trace[..|trace| - 1], trace[|trace| - 1];
      assert trace == g + [a];
      LookupIsListed(g, key);
      RunSnoc(EMPTY, g, a);
      LookupStep(Run(EMPTY, g), a, key);
    }
  }

  function SessionOf(h: Hub, st: StreamId): seq<Frame> {
    if st in h.states then h.states[st].session else []
  }

  lemma SessionStep(h: Hub, a: Action, st: StreamId)
    ensures SessionOf(Step(h, a), st) ==
      if a == Begin(st) then []
      else SessionOf(h, st) + if a.Offer? && a.st == st && Takes(h, st) then [a.f] else []
  {
    hide CloseSubs, OfferSubs, KeptSubs, LastFrames, StepSub, NewSub;
  }

  /** The history field is what it says. */
  lemma {:induction false} SessionIsOffered(trace: seq<Action>, st: StreamId)
    ensures SessionOf(Run(EMPTY, trace), st) == OfferedSinceBegin(trace, st)
    decreases |trace|
  {
    hide Step, Takes;
    if trace != [] {
      var g, a := trace[..|trace| - 1], trace[|trace| - 1];
      assert trace == g + [a];
      SessionIsOffered(g, st);
      RunSnoc(EMPTY, g, a);
      SessionStep(Run(EMPTY, g), a, st);
    }
  }

  /** After any run the ring starts with a keyframe exactly when one has been offered since the last Begin and
      no more than 120 frames have come in from it on: neither the cap nor a Begin in mid-GOP has cut it off. */
  lemma RingHeadIsKeyframe(trace: seq<Action>, st: StreamId)
    requires var h := Run(EMPTY, trace); st in h.states && h.states[st].ring != []
    ensures var fs := OfferedSinceBegin(trace, st);
      Run(EMPTY, trace).states[st].ring[0].key <==> HasKey(fs) && |SinceKey(fs)| <= MAX_RING
  {
    ReachableStatesAreSafe(EMPTY, trace);
    SessionIsOffered(trace, st);
    RingHeadOfSession(Run(EMPTY, trace), st);
    hide Run, HasKey, SinceKey, OfferedSinceBegin;
  }

  /** So a viewer can be started in the middle of a GOP: Begin, then one frame that is no keyframe. */
  lemma RingHeadNeedNotBeKeyframe(key: Key, f: Frame)
    requires !f.key
    ensures var h := Run(EMPTY, [Create(key, 0), Begin(0), Offer(0, f)]);
      0 in h.states && h.states[0].ring == [f]
  {
    var t0: seq<Action> := [Create(key, 0), Begin(0), Offer(0, f)];
    var t1: seq<Action> := [Begin(0), Offer(0, f)];
    var t2: seq<Action> := [Offer(0, f)];
    assert t0[1..] == t1 && t1[1..] == t2 && t2[1..] == [];
    var h1 := Step(EMPTY, Create(key, 0));
    assert h1.states[0] == Stream([], {}, false, []);
    var h2 := Step(h1, Begin(0));
    assert h2.states[0] == Stream([], {}, false, []);
    var h3 := Step(h2, Offer(0, f));
    assert h3.states[0].ring == [] + [f] == [f];
    calc {
      Run(EMPTY, t0);
      Run(h1, t1);
      Run(h2, t2);
      Run(h3, []);
      h3;
    }
  }
}
