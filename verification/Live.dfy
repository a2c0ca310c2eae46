/** The hub as it runs: each method is one lock section, or one channel operation, and updates the
    hub's tables in place. */
module Live {
  import opened LiveProtocol
  import opened Options

  lemma AttachedAreKnown(h: Hub, st: StreamId)
    requires Inv(h) && st in h.states
    ensures h.states[st].subs <= h.subs.Keys
    ensures forall s :: s in h.states[st].subs ==> s in h.subs && h.subs[s].closes == 0
  {
    assert StreamOk(h, st);
  }

  lemma StreamIsKnown(h: Hub, id: SubId)
    requires Inv(h) && id in h.subs
    ensures h.subs[id].stream in h.states
  {
    assert Attached(h, id);
  }

  class LiveHub {
    var streams: map<Key, StreamId>
    var states: map<StreamId, Stream>
    var subs: map<SubId, Sub>
    var nextStream: StreamId
    var nextSub: SubId

    ghost function State(): Hub
      reads this
    {
      Hub(streams, states, subs, false)
    }

    ghost predicate Valid()
      reads this
    {
      && Inv(State())
      && (forall st :: st in states ==> st < nextStream)
      && (forall id :: id in subs ==> id < nextSub)
    }

    constructor ()
      ensures Valid() && State() == EMPTY
    {
      streams, states, subs, nextStream, nextSub := map[], map[], map[], 0, 0;
    }

    method GetOrCreate(key: Key) returns (st: StreamId)
      requires Valid()
      modifies this
      ensures Valid() && st in states
      ensures key in old(streams) ==> st == old(streams)[key] && State() == old(State())
      ensures key !in old(streams) ==> st !in old(states) && State() == Step(old(State()), Create(key, st))
    {
      hide StreamsOk, SubsOk, StepStream, StepSub;
      if key in streams {
        st := streams[key];
      } else {
        st := nextStream;
        StepKeepsInv(State(), Create(key, st));
        streams := streams[key := st];
        states := states[st := Stream([], {}, false, [])];
        nextStream := nextStream + 1;
      }
    }

    /** delete(st.subs, s); s.close() for every subscriber of a stream. */
    method KickAll(ids: set<SubId>)
      requires ids <= subs.Keys
      modifies `subs
      ensures subs == CloseSubs(old(subs), ids) && subs.Keys == old(subs.Keys)
    {
      var rest := ids;
      while rest != {}
        invariant rest <= ids <= subs.Keys
        invariant subs == CloseSubs(old(subs), ids - rest)
      {
        var s :| s in rest;
        rest := rest - {s};
        subs := subs[s := CloseOnce(subs[s])];
      }
    }

    /** The loop of Offer over the subscribers: send, or drop and close the slow ones. */
    method FanOut(ids: set<SubId>, f: Frame) returns (kept: set<SubId>)
      requires ids <= subs.Keys
      requires forall s :: s in ids ==> subs[s].closes == 0
      modifies `subs
      ensures subs == OfferSubs(old(subs), ids, f) && subs.Keys == old(subs.Keys)
      ensures kept == KeptSubs(old(subs), ids)
    {
      var rest := ids;
      kept := {};
      while rest != {}
        invariant rest <= ids <= subs.Keys
        invariant subs == OfferSubs(old(subs), ids - rest, f)
        invariant kept == KeptSubs(old(subs), ids - rest)
      {
        var s :| s in rest;
        rest := rest - {s};
        if |subs[s].raw| < SUB_BUF {
          subs := subs[s := subs[s].(raw := subs[s].raw + [f])];
          kept := kept + {s};
        } else {
          subs := subs[s := CloseOnce(subs[s])];
        }
      }
    }

    /** A new ingest session on a stream that was looked up or created. */
    method Begin(st: StreamId)
      requires Valid() && st in states
      modifies this
      ensures Valid() && State() == Step(old(State()), LiveProtocol.Begin(st))
    {
      hide Inv, CloseSubs;
      StepKeepsInv(State(), LiveProtocol.Begin(st));
      AttachedAreKnown(State(), st);
      var x := states[st];
      states := states[st := x.(ring := [], session := [], subs := {})];
      KickAll(x.subs);
    }

    /** One access unit to the ring and all subscribers of a stream that was looked up. */
    method Offer(st: StreamId, f: Frame)
      requires Valid() && st in states
      modifies this
      ensures Valid() && State() == Step(old(State()), LiveProtocol.Offer(st, f))
    {
      hide Inv, OfferSubs, KeptSubs;
      StepKeepsInv(State(), LiveProtocol.Offer(st, f));
      AttachedAreKnown(State(), st);
      var x := states[st];
      if x.closed {
        return;
      }
      var ring := x.ring;
      if f.key {
        ring := [];
      }
      ring := ring + [f];
      if |ring| > MAX_RING {
        ring := ring[|ring| - MAX_RING..];
      }
      var kept := FanOut(x.subs, f);
      states := states[st := x.(ring := ring, session := x.session + [f], subs := kept)];
    }

    /** The replay loop of Subscribe, run with the stream lock held. */
    static method Replay(ring: seq<Frame>, startPTS: int) returns (out: seq<Frame>)
      requires |ring| <= SUB_BUF
      ensures out == RebaseAll(ring, startPTS)
    {
      out := [];
      for i := 0 to |ring|
        invariant out == RebaseAll(ring, startPTS)[..i]
      {
        // a free slot in the 256-frame channel: the send does not block
        assert |out| < SUB_BUF;
        out := out + [Rebase(ring[i], startPTS)];
      }
    }

    /** Attaches a consumer: replays the ring, rebased, then registers. */
    method Subscribe(st: StreamId) returns (id: Option<SubId>)
      requires Valid() && st in states
      modifies this
      ensures Valid()
      ensures id.None? <==> old(states)[st].ring == [] || old(states)[st].closed
      ensures id.None? ==> State() == old(State())
      ensures id.Some? ==> id.value !in old(subs) && State() == Step(old(State()), LiveProtocol.Subscribe(st, id.value))
    {
      hide Inv;
      var x := states[st];
      if |x.ring| == 0 || x.closed {
        return None;
      }
      id := Some(nextSub);
      StepKeepsInv(State(), LiveProtocol.Subscribe(st, nextSub));
      RingFits(State(), st);
      var startPTS := x.ring[0].pts;
      var out := Replay(x.ring, startPTS);
      hide RebaseAll;
      states := states[st := x.(subs := x.subs + {nextSub})];
      subs := subs[nextSub := Sub(st, startPTS, [], false, 0, false, None, out, false, false, [])];
      nextSub := nextSub + 1;
    }

    /** One move of the forwarder goroutine: take from raw, put into out, or end. */
    method Forward(id: SubId) returns (a: Action)
      requires Valid() && id in subs
      modifies `subs
      ensures Local(a) && a.id == id
      ensures Valid() && State() == Step(old(State()), a)
    {
      hide Inv, Step;
      var u := subs[id];
      a := if u.hand.Some? then Put(id) else if u.raw != [] then Take(id) else Exit(id);
      StepKeepsInv(State(), a);
      LocalStep(State(), a);
      if u.hand.Some? {
        if |u.out| < SUB_BUF {
          subs := subs[id := u.(hand := None, out := u.out + [Rebase(u.hand.value, u.startPTS)])];
        } else {
          subs := subs[id := u];
        }
      } else if u.raw != [] {
        subs := subs[id := u.(hand := Some(u.raw[0]), raw := u.raw[1..])];
      } else if u.closes > 0 {
        subs := subs[id := u.(outClosed := true)];
      } else {
        subs := subs[id := u];
      }
    }

    /** One receive of the consumer; None when nothing is queued. */
    method Receive(id: SubId) returns (f: Option<Frame>)
      requires Valid() && id in subs
      modifies `subs
      ensures Valid() && State() == Step(old(State()), LiveProtocol.Receive(id))
      ensures f.None? <==> old(subs)[id].out == []
      ensures f.Some? ==> subs[id].received == old(subs)[id].received + [f.value]
    {
      hide Inv, Step;
      StepKeepsInv(State(), LiveProtocol.Receive(id));
      LocalStep(State(), LiveProtocol.Receive(id));
      var u := subs[id];
      if u.out == [] {
        f := None;
        subs := subs[id := u];
      } else {
        f := Some(u.out[0]);
        subs := subs[id := u.(received := u.received + [u.out[0]], out := u.out[1..])];
      }
    }

    /** First half of cancel, under the stream lock. */
    method CancelDetach(id: SubId)
      requires Valid() && id in subs
      modifies this
      ensures Valid() && State() == Step(old(State()), Detach(id))
    {
      hide Inv;
      StepKeepsInv(State(), Detach(id));
      StreamIsKnown(State(), id);
      var st := subs[id].stream;
      states := states[st := states[st].(subs := states[st].subs - {id})];
      subs := subs[id := subs[id].(detached := true)];
    }

    /** Second half of cancel, without any lock. */
    method CancelFinish(id: SubId)
      requires Valid() && id in subs && subs[id].detached
      modifies `subs
      ensures Valid() && State() == Step(old(State()), CancelClose(id))
    {
      hide Inv, Step;
      StepKeepsInv(State(), CancelClose(id));
      LocalStep(State(), CancelClose(id));
      subs := subs[id := CloseOnce(subs[id])];
    }

    /** First part of remove: the stream can no longer be looked up. */
    method RemoveKey(key: Key)
      requires Valid()
      modifies `streams
      ensures Valid() && State() == Step(old(State()), Unlink(key))
    {
      hide Inv;
      StepKeepsInv(State(), Unlink(key));
      streams := streams - {key};
    }

    /** Second part of remove: the stream is marked closed and its subscribers are kicked. */
    method CloseStream(st: StreamId)
      requires Valid() && st in states && !Linked(State(), st)
      modifies this
      ensures Valid() && State() == Step(old(State()), Teardown(st))
    {
      hide Inv, CloseSubs, Linked;
      StepKeepsInv(State(), Teardown(st));
      AttachedAreKnown(State(), st);
      var x := states[st];
      states := states[st := x.(closed := true, subs := {})];
      KickAll(x.subs);
    }
  }
}
