/** The live fan-out as a protocol: the hub, its streams and their subscribers change by atomic
    steps (a lock section, or one channel operation), taken in any order by any number of
    goroutines. Every interleaving is a sequence of actions. */
module LiveProtocol {
  import opened MachineInts
  import opened Options

  type AccessUnit = seq<seq<byte>>

  datatype Frame = Frame(au: AccessUnit, pts: int, key: bool)

  const MAX_RING := 120
  const SUB_BUF := 256

  datatype Key = Key(camID: string, sub: bool)
  type StreamId = nat
  type SubId = nat

  /** `session` is a history variable: the frames accepted since the stream began, or since the
      last Begin. */
  datatype Stream = Stream(ring: seq<Frame>, subs: set<SubId>, closed: bool, session: seq<Frame>)

  /** A subscriber with its two channels and its forwarder. `once` is the sync.Once, `closes`
      counts how often close(raw) ran, `badSend` records a send on the closed raw channel,
      `hand` is the frame the forwarder holds, `detached` that a cancel has passed its first
      half, `received` what the consumer has taken out. */
  datatype Sub = Sub(stream: StreamId, startPTS: int,
                     raw: seq<Frame>, once: bool, closes: nat, badSend: bool,
                     hand: Option<Frame>, out: seq<Frame>, outClosed: bool,
                     detached: bool, received: seq<Frame>)

  /** `streams` is the map lookups go through; `states` holds every stream ever created, because
      goroutines keep using one they looked up earlier. `stuck` records a replay that blocked
      while holding the stream lock. */
  datatype Hub = Hub(streams: map<Key, StreamId>, states: map<StreamId, Stream>,
                     subs: map<SubId, Sub>, stuck: bool)

  const EMPTY := Hub(map[], map[], map[], false)

  datatype Action =
    | Create(key: Key, st: StreamId)
    | Begin(st: StreamId)
    | Offer(st: StreamId, f: Frame)
    | Subscribe(st: StreamId, id: SubId)
    | Take(id: SubId)
    | Put(id: SubId)
    | Exit(id: SubId)
    | Receive(id: SubId)
    | Detach(id: SubId)
    | CancelClose(id: SubId)
    | Unlink(key: Key)
    | Teardown(st: StreamId)

  // ---- the steps ---------------------------------------------------------------------------

  function Rebase(f: Frame, start: int): Frame {
    f.(pts := ToInt64(f.pts - start))
  }

  function RebaseAll(fs: seq<Frame>, start: int): (out: seq<Frame>)
    ensures |out| == |fs|
  {
    seq(|fs|, i requires 0 <= i < |fs| => Rebase(fs[i], start))
  }

  function LastFrames(fs: seq<Frame>): seq<Frame> {
    if |fs| > MAX_RING then fs[|fs| - MAX_RING..] else fs
  }

  /** subscriber.close: the channel is closed at most by the first caller. */
  function CloseOnce(u: Sub): Sub {
    if u.once then u else u.(once := true, closes := u.closes + 1)
  }

  /** The select of Offer: send, or drop the subscriber when its channel is full. */
  function OfferTo(u: Sub, f: Frame): Sub {
    if u.closes > 0 then u.(badSend := true)
    else if |u.raw| < SUB_BUF then u.(raw := u.raw + [f])
    else CloseOnce(u)
  }

  predicate Keeps(u: Sub) {
    u.closes > 0 || |u.raw| < SUB_BUF
  }

  function CloseSubs(m: map<SubId, Sub>, ids: set<SubId>): map<SubId, Sub> {
    map s | s in m :: if s in ids then CloseOnce(m[s]) else m[s]
  }

  function OfferSubs(m: map<SubId, Sub>, ids: set<SubId>, f: Frame): map<SubId, Sub> {
    map s | s in m :: if s in ids then OfferTo(m[s], f) else m[s]
  }

  function KeptSubs(m: map<SubId, Sub>, ids: set<SubId>): set<SubId> {
    set s | s in ids && s in m && Keeps(m[s])
  }

  function Accept(x: Stream, f: Frame): Stream {
    x.(ring := LastFrames((if f.key then [] else x.ring) + [f]), session := x.session + [f])
  }

  function NewSub(st: StreamId, ring: seq<Frame>): Sub
    requires ring != []
  {
    Sub(st, ring[0].pts, [], false, 0, false, None, RebaseAll(ring, ring[0].pts), false, false, [])
  }

  /** A lookup can still find the stream. */
  predicate Linked(h: Hub, st: StreamId) {
    exists k :: k in h.streams && h.streams[k] == st
  }

  function StepStream(h: Hub, a: Action): Hub
    requires a.Begin? || a.Offer? || a.Subscribe? || a.Teardown?
  {
    if a.st !in h.states then h
    else
      var x := h.states[a.st];
      match a
      case Begin(st) =>
        h.(states := h.states[st := x.(ring := [], session := [], subs := {})],
           subs := CloseSubs(h.subs, x.subs))
      case Offer(st, f) =>
        if x.closed then h
        else h.(states := h.states[st := Accept(x, f).(subs := KeptSubs(h.subs, x.subs))],
                subs := OfferSubs(h.subs, x.subs, f))
      case Subscribe(st, id) =>
        if x.ring == [] || x.closed || id in h.subs then h
        else if |x.ring| > SUB_BUF then h.(stuck := true)
        else h.(states := h.states[st := x.(subs := x.subs + {id})], subs := h.subs[id := NewSub(st, x.ring)])
      case Teardown(st) =>
        if Linked(h, st) then h
        else h.(states := h.states[st := x.(closed := true, subs := {})], subs := CloseSubs(h.subs, x.subs))
  }

  /** The forwarder, the consumer, and the close of a cancel touch one subscriber only. */
  function StepSub(u: Sub, a: Action): Sub {
    match a
    case Take(_) => if u.hand.None? && u.raw != [] then u.(hand := Some(u.raw[0]), raw := u.raw[1..]) else u
    case Put(_) =>
      if u.hand.Some? && |u.out| < SUB_BUF
      then u.(hand := None, out := u.out + [Rebase(u.hand.value, u.startPTS)]) else u
    case Exit(_) => if u.hand.None? && u.raw == [] && u.closes > 0 then u.(outClosed := true) else u
    case Receive(_) => if u.out != [] then u.(received := u.received + [u.out[0]], out := u.out[1..]) else u
    case CancelClose(_) => if u.detached then CloseOnce(u) else u
    case Detach(_) => u.(detached := true)
    case _ => u
  }

  function Step(h: Hub, a: Action): Hub {
    match a
    case Create(key, st) =>
      if key in h.streams || st in h.states then h
      else h.(streams := h.streams[key := st], states := h.states[st := Stream([], {}, false, [])])
    case Unlink(key) => h.(streams := h.streams - {key})
    case Detach(id) =>
      if id !in h.subs || h.subs[id].stream !in h.states then h
      else
        var st := h.subs[id].stream;
        var x := h.states[st];
        h.(states := h.states[st := x.(subs := x.subs - {id})], subs := h.subs[id := StepSub(h.subs[id], a)])
    case Take(id) => if id in h.subs then h.(subs := h.subs[id := StepSub(h.subs[id], a)]) else h
    case Put(id) => if id in h.subs then h.(subs := h.subs[id := StepSub(h.subs[id], a)]) else h
    case Exit(id) => if id in h.subs then h.(subs := h.subs[id := StepSub(h.subs[id], a)]) else h
    case Receive(id) => if id in h.subs then h.(subs := h.subs[id := StepSub(h.subs[id], a)]) else h
    case CancelClose(id) => if id in h.subs then h.(subs := h.subs[id := StepSub(h.subs[id], a)]) else h
    case _ => StepStream(h, a)
  }

  function Run(h: Hub, trace: seq<Action>): Hub
    decreases |trace|
  {
    if trace == [] then h else Run(Step(h, trace[0]), trace[1..])
  }

  // ---- what every reachable state satisfies ------------------------------------------------

  /** The frames since the newest keyframe, or all of them when there is none. */
  function SinceKey(session: seq<Frame>): seq<Frame>
    decreases |session|
  {
    if session == [] then []
    else
      var f := session[|session| - 1];
      (if f.key then [] else SinceKey(session[..|session| - 1])) + [f]
  }

  ghost predicate SubOk(u: Sub) {
    && u.closes <= 1 && (u.once <==> u.closes == 1)
    && !u.badSend
    && |u.raw| <= SUB_BUF && |u.out| <= SUB_BUF
    && (u.outClosed ==> u.closes == 1 && u.raw == [] && u.hand.None?)
  }

  ghost predicate StreamOk(h: Hub, st: StreamId)
    requires st in h.states
  {
    var x := h.states[st];
    && (x.closed ==> x.subs == {})
    && x.ring == LastFrames(SinceKey(x.session))
    && forall s :: s in x.subs ==> s in h.subs && h.subs[s].stream == st && h.subs[s].closes == 0
  }

  /** A subscriber that is open is either attached, or a cancel is between its two halves. */
  ghost predicate Attached(h: Hub, id: SubId)
    requires id in h.subs
  {
    var u := h.subs[id];
    && u.stream in h.states
    && (u.closes == 0 ==> id in h.states[u.stream].subs || u.detached)
    && (u.detached ==> id !in h.states[u.stream].subs)
  }

  ghost predicate SubsOk(h: Hub) {
    forall id :: id in h.subs ==> SubOk(h.subs[id]) && Attached(h, id)
  }

  ghost predicate StreamsOk(h: Hub) {
    forall st :: st in h.states ==> StreamOk(h, st)
  }

  /** Lookups only ever find streams that have not been torn down. */
  ghost predicate KeysOk(h: Hub) {
    forall k :: k in h.streams ==> h.streams[k] in h.states && !h.states[h.streams[k]].closed
  }

  /** No two keys find the same stream. */
  ghost predicate KeysApart(h: Hub) {
    forall j, k :: j in h.streams && k in h.streams && h.streams[j] == h.streams[k] ==> j == k
  }

  ghost predicate Inv(h: Hub) {
    !h.stuck && SubsOk(h) && StreamsOk(h) && KeysOk(h) && KeysApart(h)
  }

  lemma LastOfSnoc(fs: seq<Frame>, f: Frame)
    ensures LastFrames(LastFrames(fs) + [f]) == LastFrames(fs + [f])
  {
    if |fs| > MAX_RING {
      assert LastFrames(fs) + [f] == (fs + [f])[|fs| - MAX_RING..];
    }
  }

  lemma RingOfAccept(x: Stream, f: Frame)
    requires x.ring == LastFrames(SinceKey(x.session))
    ensures Accept(x, f).ring == LastFrames(SinceKey(Accept(x, f).session))
    ensures |Accept(x, f).ring| <= MAX_RING
  {
    assert (x.session + [f])[..|x.session|] == x.session;
    LastOfSnoc(SinceKey(x.session), f);
  }

  lemma StreamKept(h: Hub, st: StreamId, x': Stream, m: map<SubId, Sub>, s: StreamId)
    requires StreamsOk(h) && st in h.states && s in h.states && m.Keys == h.subs.Keys
    requires x'.subs <= h.states[st].subs && (x'.closed ==> x'.subs == {})
    requires x'.ring == LastFrames(SinceKey(x'.session))
    requires forall id :: id in m && id !in h.states[st].subs ==> m[id] == h.subs[id]
    requires forall id :: id in m && id in h.states[st].subs ==>
      m[id].stream == st && (m[id].closes == 0 <==> id in x'.subs)
    ensures StreamOk(h.(states := h.states[st := x'], subs := m), s)
  {
    hide LastFrames, SinceKey;
    assert StreamOk(h, s) && StreamOk(h, st);
    hide StreamsOk;
  }

  lemma SubKept(h: Hub, st: StreamId, x': Stream, m: map<SubId, Sub>, id: SubId)
    requires SubsOk(h) && StreamsOk(h) && st in h.states && m.Keys == h.subs.Keys && id in m
    requires x'.subs <= h.states[st].subs
    requires id !in h.states[st].subs ==> m[id] == h.subs[id]
    requires id in h.states[st].subs ==>
      SubOk(m[id]) && m[id].stream == st && (m[id].closes == 0 <==> id in x'.subs)
      && m[id].detached == h.subs[id].detached
    ensures SubOk(m[id]) && Attached(h.(states := h.states[st := x'], subs := m), id)
  {
    hide LastFrames, SinceKey;
    assert SubOk(h.subs[id]) && Attached(h, id) && StreamOk(h, st);
  }

  /** Replacing stream st by x' and some of its subscribers by successors keeps the invariant,
      provided the new stream and the changed subscribers are in order. */
  lemma StreamChange(h: Hub, st: StreamId, x': Stream, m: map<SubId, Sub>)
    requires Inv(h) && st in h.states && m.Keys == h.subs.Keys
    requires x'.subs <= h.states[st].subs
    requires x'.closed ==> x'.subs == {} && !Linked(h, st)
    requires x'.ring == LastFrames(SinceKey(x'.session))
    requires forall id :: id in m && id !in h.states[st].subs ==> m[id] == h.subs[id]
    requires forall id :: id in m && id in h.states[st].subs ==>
      SubOk(m[id]) && m[id].stream == st && (m[id].closes == 0 <==> id in x'.subs)
      && m[id].detached == h.subs[id].detached
    ensures Inv(h.(states := h.states[st := x'], subs := m))
  {
    hide StreamOk, SubOk, Attached, LastFrames, SinceKey;
    var h' := h.(states := h.states[st := x'], subs := m);
    forall s | s in h'.states ensures StreamOk(h', s) {
      StreamKept(h, st, x', m, s);
    }
    forall id | id in m ensures SubOk(m[id]) && Attached(h', id) {
      SubKept(h, st, x', m, id);
    }
  }

  lemma OfferToIsOk(u: Sub, f: Frame)
    requires SubOk(u) && u.closes == 0
    ensures SubOk(OfferTo(u, f)) && OfferTo(u, f).stream == u.stream
    ensures OfferTo(u, f).closes == 0 <==> Keeps(u)
    ensures OfferTo(u, f).detached == u.detached
  {
  }

  lemma CloseOnceIsOk(u: Sub)
    requires SubOk(u)
    ensures SubOk(CloseOnce(u)) && CloseOnce(u) == u.(once := true, closes := 1)
  {
  }

  /** Begin and remove kick every subscriber of a stream. */
  lemma KickKeepsInv(h: Hub, st: StreamId, x': Stream)
    requires Inv(h) && st in h.states
    requires x'.subs == {} && x'.ring == LastFrames(SinceKey(x'.session))
    requires x'.closed ==> !Linked(h, st)
    ensures Inv(h.(states := h.states[st := x'], subs := CloseSubs(h.subs, h.states[st].subs)))
  {
    hide LastFrames, SinceKey;
    var m := CloseSubs(h.subs, h.states[st].subs);
    assert StreamOk(h, st);
    forall id | id in m && id in h.states[st].subs
      ensures SubOk(m[id]) && m[id].stream == st && m[id].closes == 1 && m[id].detached == h.subs[id].detached
    {
      CloseOnceIsOk(h.subs[id]);
    }
    StreamChange(h, st, x', m);
  }

  lemma OfferKeepsInv(h: Hub, st: StreamId, f: Frame)
    requires Inv(h) && st in h.states && !h.states[st].closed
    ensures Inv(Step(h, Offer(st, f)))
  {
    var x := h.states[st];
    var m := OfferSubs(h.subs, x.subs, f);
    var x' := Accept(x, f).(subs := KeptSubs(h.subs, x.subs));
    assert StreamOk(h, st);
    RingOfAccept(x, f);
    hide LastFrames, SinceKey, OfferTo, Keeps;
    forall id | id in m && id in x.subs
      ensures SubOk(m[id]) && m[id].stream == st && (m[id].closes == 0 <==> id in x'.subs)
              && m[id].detached == h.subs[id].detached
    {
      OfferToIsOk(h.subs[id], f);
    }
    StreamChange(h, st, x', m);
  }

  lemma EmptyRing()
    ensures LastFrames(SinceKey([])) == []
  {
  }

  lemma BeginKeepsInv(h: Hub, st: StreamId)
    requires Inv(h)
    ensures Inv(Step(h, Begin(st)))
  {
    if st in h.states {
      EmptyRing();
      hide LastFrames, SinceKey, CloseSubs, Inv;
      KickKeepsInv(h, st, h.states[st].(ring := [], session := [], subs := {}));
    }
  }

  lemma TeardownKeepsInv(h: Hub, st: StreamId)
    requires Inv(h)
    ensures Inv(Step(h, Teardown(st)))
  {
    if st in h.states && !Linked(h, st) {
      assert StreamOk(h, st);
      hide LastFrames, SinceKey, CloseSubs, Inv, Linked;
      KickKeepsInv(h, st, h.states[st].(closed := true, subs := {}));
    }
  }

  lemma OfferAnyKeepsInv(h: Hub, st: StreamId, f: Frame)
    requires Inv(h)
    ensures Inv(Step(h, Offer(st, f)))
  {
    if st in h.states && !h.states[st].closed {
      hide Inv;
      OfferKeepsInv(h, st, f);
    }
  }

  lemma RingFits(h: Hub, st: StreamId)
    requires Inv(h) && st in h.states
    ensures |h.states[st].ring| <= MAX_RING
  {
    assert StreamOk(h, st);
  }

  lemma NewSubIsOk(st: StreamId, ring: seq<Frame>)
    requires 0 < |ring| <= SUB_BUF
    ensures SubOk(NewSub(st, ring))
  {
  }

  /** One subscriber of stream st takes a new value u', and the set of attached subscribers
      becomes `attached`, differing at most in that one. */
  ghost predicate SubChange(h: Hub, id: SubId, u': Sub, attached: set<SubId>) {
    && Inv(h) && SubOk(u') && u'.stream in h.states
    && (id in h.subs ==> h.subs[id].stream == u'.stream)
    && (forall i :: i != id ==> (i in attached <==> i in h.states[u'.stream].subs))
    && (id in attached ==> u'.closes == 0 && !u'.detached && !h.states[u'.stream].closed)
    && (u'.closes == 0 ==> id in attached || u'.detached)
  }

  function WithSub(h: Hub, id: SubId, u': Sub, attached: set<SubId>): Hub
    requires u'.stream in h.states
  {
    h.(states := h.states[u'.stream := h.states[u'.stream].(subs := attached)], subs := h.subs[id := u'])
  }

  lemma SubChangeKeepsSubs(h: Hub, id: SubId, u': Sub, attached: set<SubId>)
    requires SubChange(h, id, u', attached)
    ensures SubsOk(WithSub(h, id, u', attached))
  {
    hide SubOk, StreamsOk, KeysOk;
    var h' := WithSub(h, id, u', attached);
    forall i | i in h'.subs ensures SubOk(h'.subs[i]) && Attached(h', i) {
      if i != id {
        assert SubOk(h.subs[i]) && Attached(h, i);
      }
    }
  }

  lemma SubChangeKeepsStreams(h: Hub, id: SubId, u': Sub, attached: set<SubId>)
    requires SubChange(h, id, u', attached)
    ensures StreamsOk(WithSub(h, id, u', attached))
  {
    hide LastFrames, SinceKey, SubOk, KeysOk, SubsOk;
    var h' := WithSub(h, id, u', attached);
    forall s | s in h'.states ensures StreamOk(h', s) {
      assert StreamOk(h, s);
      if s == u'.stream && h.states[s].closed {
        assert attached == {};
      }
    }
  }

  lemma SubChangeKeepsInv(h: Hub, id: SubId, u': Sub, attached: set<SubId>)
    requires SubChange(h, id, u', attached)
    ensures Inv(WithSub(h, id, u', attached))
  {
    SubChangeKeepsSubs(h, id, u', attached);
    SubChangeKeepsStreams(h, id, u', attached);
    hide SubOk, SubsOk, StreamsOk;
    assert KeysOk(WithSub(h, id, u', attached));
  }

  lemma NewSubFields(st: StreamId, ring: seq<Frame>)
    requires ring != []
    ensures var u := NewSub(st, ring); u.stream == st && u.closes == 0 && !u.detached
  {
  }

  lemma SubscribeKeepsInv(h: Hub, st: StreamId, id: SubId)
    requires Inv(h) && st in h.states && id !in h.subs
    requires h.states[st].ring != [] && !h.states[st].closed
    ensures Inv(Step(h, Subscribe(st, id)))
  {
    hide SubOk, NewSub, SubsOk, StreamsOk, KeysOk, LastFrames, SinceKey, CloseSubs, OfferSubs;
    var x := h.states[st];
    RingFits(h, st);
    NewSubIsOk(st, x.ring);
    NewSubFields(st, x.ring);
    SubChangeKeepsInv(h, id, NewSub(st, x.ring), x.subs + {id});
  }

  /** Steps of the forwarder, the consumer and the second half of cancel. */
  predicate Local(a: Action) {
    a.Take? || a.Put? || a.Exit? || a.Receive? || a.CancelClose?
  }

  lemma StepSubIsOk(u: Sub, a: Action)
    requires SubOk(u) && (Local(a) || a.Detach?)
    ensures var u' := StepSub(u, a);
      && SubOk(u') && u'.stream == u.stream
      && (u'.closes == 0 ==> u.closes == 0)
      && (u.closes == 0 && u'.closes > 0 ==> u.detached)
      && u'.detached == (u.detached || a.Detach?)
  {
  }

  lemma LocalChange(h: Hub, id: SubId, a: Action)
    requires Inv(h) && id in h.subs && Local(a)
    ensures h.subs[id].stream in h.states && StepSub(h.subs[id], a).stream == h.subs[id].stream
    ensures SubChange(h, id, StepSub(h.subs[id], a), h.states[h.subs[id].stream].subs)
  {
    hide SubOk, StepSub, KeysOk, LastFrames, SinceKey;
    var u := h.subs[id];
    assert SubOk(u) && Attached(h, id);
    assert StreamOk(h, u.stream);
    StepSubIsOk(u, a);
  }

  lemma LocalKeepsInv(h: Hub, id: SubId, a: Action)
    requires Inv(h) && id in h.subs && Local(a)
    ensures Inv(h.(subs := h.subs[id := StepSub(h.subs[id], a)]))
  {
    hide Inv, SubOk, StepSub, SubChange;
    LocalChange(h, id, a);
    var u := h.subs[id];
    var attached := h.states[u.stream].subs;
    SubChangeKeepsInv(h, id, StepSub(u, a), attached);
    assert h.states[u.stream := h.states[u.stream].(subs := attached)] == h.states;
  }

  lemma DetachKeepsInv(h: Hub, id: SubId)
    requires Inv(h) && id in h.subs
    ensures Inv(Step(h, Detach(id)))
  {
    var u := h.subs[id];
    assert SubOk(u) && Attached(h, id);
    StepSubIsOk(u, Detach(id));
    hide SubOk, StepSub;
    SubChangeKeepsInv(h, id, StepSub(u, Detach(id)), h.states[u.stream].subs - {id});
  }

  lemma MoreStreamsKeepSubs(h: Hub, h': Hub)
    requires SubsOk(h) && h'.subs == h.subs
    requires forall st :: st in h.states ==> st in h'.states && h'.states[st] == h.states[st]
    ensures SubsOk(h')
  {
    hide SubOk;
    forall i | i in h'.subs ensures SubOk(h'.subs[i]) && Attached(h', i) {
      assert SubOk(h.subs[i]) && Attached(h, i);
    }
  }

  /** The hub after a key was created for a fresh stream. */
  function Created(h: Hub, key: Key, st: StreamId): Hub {
    h.(streams := h.streams[key := st], states := h.states[st := Stream([], {}, false, [])])
  }

  lemma CreatedStreams(h: Hub, key: Key, st: StreamId)
    requires StreamsOk(h) && KeysOk(h) && st !in h.states
    ensures StreamsOk(Created(h, key, st)) && KeysOk(Created(h, key, st))
  {
    hide LastFrames, SinceKey;
    EmptyRing();
    var h' := Created(h, key, st);
    forall s | s in h'.states ensures StreamOk(h', s) {
      if s != st { assert StreamOk(h, s); }
    }
  }

  lemma CreatedIs(h: Hub, key: Key, st: StreamId)
    requires key !in h.streams && st !in h.states
    ensures Created(h, key, st) == Step(h, Create(key, st))
    ensures var h' := Created(h, key, st);
      && h'.subs == h.subs && h'.stuck == h.stuck
      && forall s :: s in h.states ==> s in h'.states && h'.states[s] == h.states[s]
  {
  }

  lemma CreatedApart(h: Hub, key: Key, st: StreamId)
    requires KeysOk(h) && KeysApart(h) && st !in h.states
    ensures KeysApart(Created(h, key, st))
  {
  }

  lemma CreateKeepsInv(h: Hub, key: Key, st: StreamId)
    requires Inv(h)
    ensures Inv(Step(h, Create(key, st)))
  {
    hide SubsOk, StreamsOk, KeysOk, KeysApart, Created;
    if key !in h.streams && st !in h.states {
      CreatedIs(h, key, st);
      MoreStreamsKeepSubs(h, Created(h, key, st));
      CreatedStreams(h, key, st);
      CreatedApart(h, key, st);
    }
  }

  lemma UnlinkKeepsInv(h: Hub, key: Key)
    requires Inv(h)
    ensures Inv(Step(h, Unlink(key)))
  {
    hide SubOk, Attached, LastFrames, SinceKey;
    var h' := h.(streams := h.streams - {key});
    MoreStreamsKeepSubs(h, h');
    forall s | s in h'.states ensures StreamOk(h', s) {
      assert StreamOk(h, s);
    }
  }

  lemma LocalStep(h: Hub, a: Action)
    requires Local(a) && a.id in h.subs
    ensures Step(h, a) == h.(subs := h.subs[a.id := StepSub(h.subs[a.id], a)])
  {
    hide StepSub, StepStream;
  }

  lemma SubscribeAnyKeepsInv(h: Hub, st: StreamId, id: SubId)
    requires Inv(h)
    ensures Inv(Step(h, Subscribe(st, id)))
  {
    if st in h.states && id !in h.subs && h.states[st].ring != [] && !h.states[st].closed {
      SubscribeKeepsInv(h, st, id);
    }
  }

  lemma StepKeepsInv(h: Hub, a: Action)
    requires Inv(h)
    ensures Inv(Step(h, a))
  {
    hide Inv, StepSub;
    match a
    case Create(key, st) => CreateKeepsInv(h, key, st);
    case Unlink(key) => UnlinkKeepsInv(h, key);
    case Subscribe(st, id) => SubscribeAnyKeepsInv(h, st, id);
    case Detach(id) => if id in h.subs { DetachKeepsInv(h, id); }
    case Begin(st) => BeginKeepsInv(h, st);
    case Offer(st, f) => OfferAnyKeepsInv(h, st, f);
    case Teardown(st) => TeardownKeepsInv(h, st);
    case _ => if a.id in h.subs { LocalKeepsInv(h, a.id, a); }
  }

  /** Every interleaving of any actions from an empty hub keeps the invariant: no send on a closed
      channel, each raw channel closed at most once, attached subscribers open, the ring what it
      should be, and no replay ever blocked with the stream lock held. */
  lemma {:induction false} ReachableStatesAreSafe(h: Hub, trace: seq<Action>)
    requires Inv(h)
    ensures Inv(Run(h, trace))
    decreases |trace|
  {
    if trace != [] {
      StepKeepsInv(h, trace[0]);
      ReachableStatesAreSafe(Step(h, trace[0]), trace[1..]);
    }
  }

  lemma InvSpelledOut(h: Hub)
    requires Inv(h)
    ensures !h.stuck
    ensures forall id :: id in h.subs ==> !h.subs[id].badSend && h.subs[id].closes <= 1
    ensures forall st, id :: st in h.states && id in h.states[st].subs ==>
      id in h.subs && h.subs[id].stream == st && h.subs[id].closes == 0
    ensures forall st :: st in h.states ==> h.states[st].ring == LastFrames(SinceKey(h.states[st].session))
    ensures forall key :: key in h.streams ==> h.streams[key] in h.states && !h.states[h.streams[key]].closed
  {
    hide LastFrames, SinceKey, Attached;
    assert forall id :: id in h.subs ==> SubOk(h.subs[id]);
    assert forall st :: st in h.states ==> StreamOk(h, st);
  }

  /** The same for the program as it starts, spelled out. */
  lemma EveryRunIsSafe(trace: seq<Action>)
    ensures var h := Run(EMPTY, trace);
      && !h.stuck
      && (forall id :: id in h.subs ==> !h.subs[id].badSend && h.subs[id].closes <= 1)
      && (forall st, id :: st in h.states && id in h.states[st].subs ==>
            id in h.subs && h.subs[id].stream == st && h.subs[id].closes == 0)
      && (forall st :: st in h.states ==> h.states[st].ring == LastFrames(SinceKey(h.states[st].session)))
      && (forall key :: key in h.streams ==> h.streams[key] in h.states && !h.states[h.streams[key]].closed)
  {
    ReachableStatesAreSafe(EMPTY, trace);
    InvSpelledOut(Run(EMPTY, trace));
    hide LastFrames, SinceKey, Run, Inv;
  }
}
