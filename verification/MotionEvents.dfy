/** The motion engine's event state machine: one tick per analysed frame, callbacks out. */
module MotionEvents {
  /** Nanoseconds; the detector runs at 5 fps, so two ticks are 400 ms. */
  const SECOND := 1_000_000_000
  const TICK_SPAN := 400_000_000
  const ZERO_TIME := 0

  datatype Config = Config(minAreaPct: real, postRollS: int, cooldownS: int)

  /** One frame as the state machine sees it: the clock read for it, whether it only (re)started
      the background model, whether the schedule is active, and its motion score. */
  datatype Tick = Tick(now: int, warmup: bool, scheduled: bool, score: real)

  datatype Callback = OnStart(ts: int) | OnEnd(start: int, end: int, peak: real)

  datatype State = State(armed: bool, cooldownUntil: int, consec: int, active: bool,
                         eventStart: int, peak: real, lastAbove: int)

  const INIT := State(true, ZERO_TIME, 0, false, ZERO_TIME, 0.0, ZERO_TIME)

  predicate Above(cfg: Config, t: Tick) {
    t.score >= cfg.minAreaPct
  }

  /** The tick reaches the scoring part: no fresh background, on schedule, no cooldown. */
  predicate Scored(s: State, t: Tick) {
    !t.warmup && t.scheduled && t.now >= s.cooldownUntil
  }

  predicate Opens(cfg: Config, s: State, t: Tick) {
    Scored(s, t) && !s.active && s.armed && Above(cfg, t) && s.consec + 1 >= 3
  }

  predicate ClosesByPostRoll(cfg: Config, s: State, t: Tick) {
    Scored(s, t) && s.active && !Above(cfg, t) && t.now - s.lastAbove >= cfg.postRollS * SECOND
  }

  predicate ClosesOffHours(s: State, t: Tick) {
    !t.warmup && !t.scheduled && s.active
  }

  function Next(cfg: Config, s: State, t: Tick): State {
    if t.warmup then s
    else if !t.scheduled then s.(active := false, consec := 0)
    else if t.now < s.cooldownUntil then s
    else if !s.active then
      if !s.armed then s.(armed := t.now > s.cooldownUntil)
      else if !Above(cfg, t) then s.(consec := 0)
      else if s.consec + 1 >= 3 then
        State(false, s.cooldownUntil, s.consec + 1, true, t.now - TICK_SPAN, t.score, t.now)
      else s.(consec := s.consec + 1)
    else if Above(cfg, t) then s.(lastAbove := t.now, peak := if t.score > s.peak then t.score else s.peak)
    else if t.now - s.lastAbove >= cfg.postRollS * SECOND then
      s.(active := false, cooldownUntil := t.now + cfg.cooldownS * SECOND, consec := 0)
    else s
  }

  function End(s: State): Callback {
    OnEnd(s.eventStart, s.lastAbove, s.peak)
  }

  function Calls(cfg: Config, s: State, t: Tick): seq<Callback> {
    if Opens(cfg, s, t) then [OnStart(t.now - TICK_SPAN)]
    else if ClosesByPostRoll(cfg, s, t) || ClosesOffHours(s, t) then [End(s)]
    else []
  }

  function Run(cfg: Config, ticks: seq<Tick>): State
    decreases |ticks|
  {
    if ticks == [] then INIT else Next(cfg, Run(cfg, ticks[..|ticks| - 1]), ticks[|ticks| - 1])
  }

  function Log(cfg: Config, ticks: seq<Tick>): seq<Callback>
    decreases |ticks|
  {
    if ticks == [] then []
    else
      var g, t := ticks[..|ticks| - 1], ticks[|ticks| - 1];
      Log(cfg, g) + Calls(cfg, Run(cfg, g), t)
  }

  /** Everything a session calls back, its deferred close included. */
  function Session(cfg: Config, ticks: seq<Tick>): seq<Callback> {
    var s := Run(cfg, ticks);
    Log(cfg, ticks) + if s.active then [End(s)] else []
  }

  /** The loop of process over the frames of one session; it ends when the stream does. */
  method Process(cfg: Config, ticks: seq<Tick>) returns (log: seq<Callback>)
    ensures log == Session(cfg, ticks)
  {
    var armed, cooldownUntil, consec, active := true, ZERO_TIME, 0, false;
    var eventStart, peak, lastAbove := ZERO_TIME, 0.0, ZERO_TIME;
    log := [];
    for i := 0 to |ticks|
      invariant State(armed, cooldownUntil, consec, active, eventStart, peak, lastAbove) == Run(cfg, ticks[..i])
      invariant log == Log(cfg, ticks[..i])
    {
      assert ticks[..i + 1][..i] == ticks[..i];
      var now := ticks[i].now;
      if ticks[i].warmup {
        continue;
      }
      if !ticks[i].scheduled {
        if active {
          active := false;
          log := log + [OnEnd(eventStart, lastAbove, peak)];
        }
        consec := 0;
        continue;
      }
      if now < cooldownUntil {
        continue;
      }
      var score := ticks[i].score;
      var above := score >= cfg.minAreaPct;
      if !active {
        if !armed {
          if now > cooldownUntil {
            armed := true;
          }
        } else if above {
          consec := consec + 1;
          if consec >= 3 {
            active, armed := true, false;
            eventStart := now - TICK_SPAN;
            peak, lastAbove := score, now;
            log := log + [OnStart(eventStart)];
          }
        } else {
          consec := 0;
        }
      } else if above {
        lastAbove := now;
        if score > peak {
          peak := score;
        }
      } else if now - lastAbove >= cfg.postRollS * SECOND {
        active := false;
        cooldownUntil := now + cfg.cooldownS * SECOND;
        log := log + [OnEnd(eventStart, lastAbove, peak)];
        consec := 0;
      }
    }
    assert ticks[..|ticks|] == ticks;
    if active {
      log := log + [OnEnd(eventStart, lastAbove, peak)];
    }
  }

  // ---- callbacks alternate and pair up ------------------------------------------------------

  ghost predicate Clock(ticks: seq<Tick>) {
    forall i, j :: 0 <= i < j < |ticks| ==> ticks[i].now <= ticks[j].now
  }

  lemma ClockPrefix(ticks: seq<Tick>, n: nat)
    requires Clock(ticks) && n <= |ticks|
    ensures Clock(ticks[..n])
  {
  }

  /** An OnEnd closes the OnStart before it and lies at least the tick span after it. */
  predicate Closes(start: Callback, end: Callback) {
    start.OnStart? && end.OnEnd? && end.start == start.ts && end.end >= start.ts + TICK_SPAN
  }

  /** The log is OnStart, OnEnd, OnStart, OnEnd, ..., each OnEnd with its own start. */
  predicate Paired(log: seq<Callback>)
    decreases |log|
  {
    log == [] || (|log| >= 2 && Closes(log[|log| - 2], log[|log| - 1]) && Paired(log[..|log| - 2]))
  }

  /** Mid-session: either everything is paired, or one start is open. */
  ghost predicate Pending(log: seq<Callback>, s: State) {
    if s.active then
      && log != [] && log[|log| - 1] == OnStart(s.eventStart) && Paired(log[..|log| - 1])
      && s.lastAbove >= s.eventStart + TICK_SPAN
    else Paired(log)
  }

  lemma CloseCompletesPair(log: seq<Callback>, s: State)
    requires s.active && Pending(log, s)
    ensures Paired(log + [End(s)])
  {
    assert (log + [End(s)])[..|log| - 1] == log[..|log| - 1];
  }

  lemma StartOpensPair(log: seq<Callback>, s: State)
    requires s.active && Paired(log) && s.lastAbove >= s.eventStart + TICK_SPAN
    ensures Pending(log + [OnStart(s.eventStart)], s)
  {
    assert (log + [OnStart(s.eventStart)])[..|log|] == log;
  }

  lemma StepKeepsPending(cfg: Config, s: State, t: Tick, log: seq<Callback>)
    requires Pending(log, s) && (s.active ==> s.lastAbove <= t.now)
    ensures Pending(log + Calls(cfg, s, t), Next(cfg, s, t))
  {
    hide Paired;
    if Opens(cfg, s, t) {
      StartOpensPair(log, Next(cfg, s, t));
    } else if ClosesByPostRoll(cfg, s, t) || ClosesOffHours(s, t) {
      CloseCompletesPair(log, s);
    } else {
      assert log + Calls(cfg, s, t) == log;
    }
  }

  /** The last motion seen is never in the future. */
  lemma {:induction false} LastAboveSeen(cfg: Config, ticks: seq<Tick>, now: int)
    requires Clock(ticks) && (ticks != [] ==> ticks[|ticks| - 1].now <= now)
    ensures Run(cfg, ticks).active ==> Run(cfg, ticks).lastAbove <= now
    decreases |ticks|
  {
    if ticks != [] {
      ClockPrefix(ticks, |ticks| - 1);
      LastAboveSeen(cfg, ticks[..|ticks| - 1], now);
    }
  }

  lemma {:induction false} PendingThroughout(cfg: Config, ticks: seq<Tick>)
    requires Clock(ticks)
    ensures Pending(Log(cfg, ticks), Run(cfg, ticks))
    decreases |ticks|
  {
    if ticks != [] {
      var g, t := ticks[..|ticks| - 1], ticks[|ticks| - 1];
      ClockPrefix(ticks, |ticks| - 1);
      PendingThroughout(cfg, g);
      LastAboveSeen(cfg, g, t.now);
      StepKeepsPending(cfg, Run(cfg, g), t, Log(cfg, g));
    }
  }

  /** For every sequence of frames with a clock that does not run backwards, the callbacks of a
      session alternate, are balanced when it returns, and pair up. */
  lemma CallbacksArePaired(cfg: Config, ticks: seq<Tick>)
    requires Clock(ticks)
    ensures Paired(Session(cfg, ticks))
  {
    PendingThroughout(cfg, ticks);
    if Run(cfg, ticks).active {
      CloseCompletesPair(Log(cfg, ticks), Run(cfg, ticks));
    } else {
      assert Session(cfg, ticks) == Log(cfg, ticks);
    }
  }

  // ---- when an event opens ------------------------------------------------------------------

  /** Ticks that are looked at: those off schedule, which break a streak, and those that are scored. */
  predicate Looked(s: State, t: Tick) {
    !t.warmup && (!t.scheduled || t.now >= s.cooldownUntil)
  }

  /** The ticks looked at since the machine was armed, while no event is open. */
  function SinceArmed(cfg: Config, ticks: seq<Tick>): seq<Tick>
    decreases |ticks|
  {
    if ticks == [] then []
    else
      var g, t := ticks[..|ticks| - 1], ticks[|ticks| - 1];
      var s := Run(cfg, g);
      if s.active || !s.armed then [] else SinceArmed(cfg, g) + if Looked(s, t) then [t] else []
  }

  /** The last n of these ticks are on schedule and above the threshold. */
  ghost predicate EndsAbove(cfg: Config, looked: seq<Tick>, n: int) {
    && n <= |looked|
    && forall i :: 0 <= i < |looked| && i >= |looked| - n ==>
         looked[i].scheduled && looked[i].score >= cfg.minAreaPct
  }

  lemma EndsAboveSnoc(cfg: Config, looked: seq<Tick>, t: Tick, n: nat)
    ensures EndsAbove(cfg, looked + [t], n)
            <==> n == 0 || (t.scheduled && Above(cfg, t) && EndsAbove(cfg, looked, n - 1))
  {
    var more := looked + [t];
    if n > 0 && EndsAbove(cfg, more, n) {
      assert more[|looked|] == t;
      forall i | 0 <= i < |looked| && i >= |looked| - (n - 1) ensures looked[i].scheduled && Above(cfg, looked[i]) {
        assert more[i] == looked[i];
      }
    }
  }

  /** `consec` is the longest streak at the end of these ticks. */
  ghost predicate IsStreak(cfg: Config, looked: seq<Tick>, consec: int) {
    forall n: nat :: EndsAbove(cfg, looked, n) <==> n <= consec
  }

  lemma StreakSnoc(cfg: Config, looked: seq<Tick>, t: Tick, consec: nat)
    requires IsStreak(cfg, looked, consec)
    ensures IsStreak(cfg, looked + [t], if t.scheduled && Above(cfg, t) then consec + 1 else 0)
  {
    forall n: nat
      ensures EndsAbove(cfg, looked + [t], n) <==> n <= if t.scheduled && Above(cfg, t) then consec + 1 else 0
    {
      EndsAboveSnoc(cfg, looked, t, n);
      if n > 0 {
        var before: nat := n - 1;
        assert EndsAbove(cfg, looked, before) <==> before <= consec;
      }
    }
  }

  lemma NoStreakAtFirst(cfg: Config)
    ensures IsStreak(cfg, [], 0)
  {
  }

  /** The streak counter of an armed idle machine is exactly the streak of ticks above the threshold, off-schedule
      ticks breaking it and ticks in a cooldown or of a fresh background passing by. */
  lemma {:induction false} StreakIsExact(cfg: Config, ticks: seq<Tick>)
    ensures var s := Run(cfg, ticks);
      && s.consec >= 0
      && (!s.active ==> IsStreak(cfg, SinceArmed(cfg, ticks), s.consec) && (!s.armed ==> s.consec == 0))
    decreases |ticks|
  {
    hide IsStreak;
    NoStreakAtFirst(cfg);
    if ticks != [] {
      var g, t := ticks[..|ticks| - 1], ticks[|ticks| - 1];
      StreakIsExact(cfg, g);
      var s := Run(cfg, g);
      assert SinceArmed(cfg, g) + [] == SinceArmed(cfg, g);
      if !s.active && s.armed && Looked(s, t) {
        StreakSnoc(cfg, SinceArmed(cfg, g), t, s.consec);
      }
    }
  }

  /** An event opens exactly when an armed idle machine looks at the third tick in a row above the threshold since
      it was armed, and is dated back by the tick span. */
  lemma OpensExactly(cfg: Config, g: seq<Tick>, t: Tick)
    ensures var s := Run(cfg, g);
      Opens(cfg, s, t) <==> !s.active && s.armed && Looked(s, t) && EndsAbove(cfg, SinceArmed(cfg, g + [t]), 3)
    ensures Opens(cfg, Run(cfg, g), t) ==> Calls(cfg, Run(cfg, g), t) == [OnStart(t.now - TICK_SPAN)]
    ensures Opens(cfg, Run(cfg, g), t) <==> !Run(cfg, g).active && Run(cfg, g + [t]).active
  {
    StreakIsExact(cfg, g);
    assert (g + [t])[..|g|] == g;
    var s := Run(cfg, g);
    if !s.active && s.armed && Looked(s, t) {
      hide EndsAbove;
      EndsAboveSnoc(cfg, SinceArmed(cfg, g), t, 3);
      var two: nat := 2;
      assert EndsAbove(cfg, SinceArmed(cfg, g), two) <==> two <= s.consec;
    }
  }

  // ---- when the machine is armed -----------------------------------------------------------

  /** The end of the last cooldown begun. */
  function CooldownEnd(cfg: Config, ticks: seq<Tick>): int
    decreases |ticks|
  {
    if ticks == [] then ZERO_TIME
    else
      var g, t := ticks[..|ticks| - 1], ticks[|ticks| - 1];
      if ClosesByPostRoll(cfg, Run(cfg, g), t) then t.now + cfg.cooldownS * SECOND else CooldownEnd(cfg, g)
  }

  lemma {:induction false} CooldownIsLast(cfg: Config, ticks: seq<Tick>)
    ensures Run(cfg, ticks).cooldownUntil == CooldownEnd(cfg, ticks)
    decreases |ticks|
  {
    if ticks != [] {
      CooldownIsLast(cfg, ticks[..|ticks| - 1]);
    }
  }

  ghost predicate OpensAt(cfg: Config, ticks: seq<Tick>, i: nat) {
    i < |ticks| && Opens(cfg, Run(cfg, ticks[..i]), ticks[i])
  }

  /** Tick j comes after the cooldown, on schedule, with no event open. */
  ghost predicate ArmsAt(cfg: Config, ticks: seq<Tick>, j: nat) {
    && j < |ticks| && !Run(cfg, ticks[..j]).active
    && !ticks[j].warmup && ticks[j].scheduled && ticks[j].now > CooldownEnd(cfg, ticks[..j])
  }

  /** Such a tick has come since the last event opened. */
  ghost predicate Rearmed(cfg: Config, ticks: seq<Tick>) {
    forall i: nat :: OpensAt(cfg, ticks, i) ==> exists j: nat :: i < j && ArmsAt(cfg, ticks, j)
  }

  lemma SameTicks(cfg: Config, g: seq<Tick>, t: Tick, i: nat)
    ensures OpensAt(cfg, g + [t], i) <==> if i == |g| then Opens(cfg, Run(cfg, g), t) else OpensAt(cfg, g, i)
    ensures i < |g| ==> (ArmsAt(cfg, g + [t], i) <==> ArmsAt(cfg, g, i))
    ensures i > |g| ==> !ArmsAt(cfg, g + [t], i) && !ArmsAt(cfg, g, i)
    ensures i == |g| ==> !ArmsAt(cfg, g, i)
  {
    hide Run, Opens, CooldownEnd;
    if i < |g| {
      assert (g + [t])[..i] == g[..i] && (g + [t])[i] == g[i];
    }
    if i == |g| {
      assert (g + [t])[..i] == g && (g + [t])[i] == t;
    }
  }

  lemma OpensInRange(cfg: Config, ticks: seq<Tick>, i: nat)
    requires OpensAt(cfg, ticks, i)
    ensures i < |ticks|
  {
  }

  lemma RearmedSnoc(cfg: Config, g: seq<Tick>, t: Tick)
    ensures Rearmed(cfg, g + [t]) <==>
      !Opens(cfg, Run(cfg, g), t) && (Rearmed(cfg, g) || ArmsAt(cfg, g + [t], |g|))
  {
    hide Opens, Run, OpensAt, ArmsAt;
    forall i: nat
      ensures OpensAt(cfg, g + [t], i) <==> if i == |g| then Opens(cfg, Run(cfg, g), t) else OpensAt(cfg, g, i)
      ensures i < |g| ==> (ArmsAt(cfg, g + [t], i) <==> ArmsAt(cfg, g, i))
      ensures i > |g| ==> !ArmsAt(cfg, g + [t], i) && !ArmsAt(cfg, g, i)
      ensures i == |g| ==> !ArmsAt(cfg, g, i)
    {
      SameTicks(cfg, g, t, i);
    }
    forall i: nat | OpensAt(cfg, g, i) ensures i < |g| {
      OpensInRange(cfg, g, i);
    }
    var more := g + [t];
    if Opens(cfg, Run(cfg, g), t) {
      assert OpensAt(cfg, more, |g|);
    } else if ArmsAt(cfg, more, |g|) {
      assert forall i: nat :: OpensAt(cfg, more, i) ==> i < |g|;
    } else {
      forall i: nat | OpensAt(cfg, g, i)
        ensures (exists j: nat :: i < j && ArmsAt(cfg, more, j)) <==> exists j: nat :: i < j && ArmsAt(cfg, g, j)
      {
        assert forall j: nat :: ArmsAt(cfg, more, j) <==> ArmsAt(cfg, g, j);
      }
    }
  }

  lemma ArmedAtFirst(cfg: Config)
    ensures Rearmed(cfg, [])
  {
  }

  lemma {:induction false} DisarmedWhileActive(cfg: Config, ticks: seq<Tick>)
    ensures Run(cfg, ticks).active ==> !Run(cfg, ticks).armed
    decreases |ticks|
  {
    if ticks != [] {
      DisarmedWhileActive(cfg, ticks[..|ticks| - 1]);
    }
  }

  /** The machine is armed exactly when, since the last event opened, an on-schedule tick has come after the cooldown
      with no event open. */
  lemma {:induction false} ArmedExactly(cfg: Config, ticks: seq<Tick>)
    ensures Run(cfg, ticks).armed <==> Rearmed(cfg, ticks)
    decreases |ticks|
  {
    hide Rearmed;
    if ticks == [] {
      ArmedAtFirst(cfg);
    } else {
      var g, t := ticks[..|ticks| - 1], ticks[|ticks| - 1];
      assert ticks == g + [t];
      ArmedExactly(cfg, g);
      RearmedSnoc(cfg, g, t);
      CooldownIsLast(cfg, g);
      DisarmedWhileActive(cfg, g);
      assert ticks[..|g|] == g;
    }
  }

  lemma RunSnoc(cfg: Config, g: seq<Tick>, t: Tick)
    ensures Run(cfg, g + [t]) == Next(cfg, Run(cfg, g), t)
  {
    assert (g + [t])[..|g|] == g;
  }

  lemma RunFour(cfg: Config, g: seq<Tick>, c: Tick, t1: Tick, t2: Tick, t3: Tick)
    ensures Run(cfg, g + [c, t1, t2, t3]) == Next(cfg, Next(cfg, Next(cfg, Next(cfg, Run(cfg, g), c), t1), t2), t3)
  {
    RunSnoc(cfg, g, c);
    RunSnoc(cfg, g + [c], t1);
    RunSnoc(cfg, g + [c] + [t1], t2);
    RunSnoc(cfg, g + [c] + [t1] + [t2], t3);
    assert g + [c] + [t1] + [t2] + [t3] == g + [c, t1, t2, t3];
  }

  /** Another event can always follow: whatever came before, one tick after the cooldown and three
      above the threshold, all on schedule, leave an event open. */
  lemma NextEventOpens(cfg: Config, g: seq<Tick>, c: Tick, t1: Tick, t2: Tick, t3: Tick)
    requires !Run(cfg, g).active && CooldownEnd(cfg, g) < c.now <= t1.now <= t2.now <= t3.now
    requires forall t :: t in [c, t1, t2, t3] ==> !t.warmup && t.scheduled
    requires t1.score >= cfg.minAreaPct && t2.score >= cfg.minAreaPct && t3.score >= cfg.minAreaPct
    ensures Run(cfg, g + [c, t1, t2, t3]).active
  {
    CooldownIsLast(cfg, g);
    StreakIsExact(cfg, g);
    RunFour(cfg, g, c, t1, t2, t3);
    assert c in [c, t1, t2, t3] && t1 in [c, t1, t2, t3] && t2 in [c, t1, t2, t3] && t3 in [c, t1, t2, t3];
    hide Run, CooldownEnd, SinceArmed, IsStreak;
  }

  /** Armed and idle, three scored ticks in a row above are enough. */
  lemma ThreeAboveOpen(cfg: Config, s0: State, t1: Tick, t2: Tick, t3: Tick)
    requires s0.armed && !s0.active && s0.consec >= 0
    requires Above(cfg, t1) && Above(cfg, t2) && Above(cfg, t3)
    requires Scored(s0, t1) && Scored(s0, t2) && Scored(s0, t3)
    ensures Next(cfg, Next(cfg, Next(cfg, s0, t1), t2), t3).active
  {
  }

  // ---- what an event reports ----------------------------------------------------------------

  /** The above-threshold scored ticks of the open event, the opening one first. */
  function Motion(cfg: Config, ticks: seq<Tick>): seq<Tick>
    decreases |ticks|
  {
    if ticks == [] then []
    else
      var g, t := ticks[..|ticks| - 1], ticks[|ticks| - 1];
      var s := Run(cfg, g);
      if Opens(cfg, s, t) then [t]
      else if !Next(cfg, s, t).active then []
      else if Scored(s, t) && Above(cfg, t) then Motion(cfg, g) + [t]
      else Motion(cfg, g)
  }

  /** p is the greatest score among the ticks. */
  ghost predicate IsPeak(p: real, ticks: seq<Tick>) {
    && (exists i :: 0 <= i < |ticks| && ticks[i].score == p)
    && (forall i :: 0 <= i < |ticks| ==> ticks[i].score <= p)
  }

  /** The report of an event with these motion ticks. */
  ghost predicate Reports(s: State, motion: seq<Tick>) {
    && motion != []
    && s.eventStart == motion[0].now - TICK_SPAN
    && s.lastAbove == motion[|motion| - 1].now
    && IsPeak(s.peak, motion)
  }

  lemma PeakGrows(p: real, ticks: seq<Tick>, t: Tick)
    requires IsPeak(p, ticks)
    ensures IsPeak(if t.score > p then t.score else p, ticks + [t])
  {
    var i :| 0 <= i < |ticks| && ticks[i].score == p;
    assert (ticks + [t])[i].score == p;
    assert (ticks + [t])[|ticks|] == t;
  }

  /** At every moment of an open event its start, last motion and peak are those of its motion
      ticks; OnEnd passes exactly these three on. */
  lemma {:induction false} ReportIsTrue(cfg: Config, ticks: seq<Tick>)
    ensures Run(cfg, ticks).active ==> Reports(Run(cfg, ticks), Motion(cfg, ticks))
    decreases |ticks|
  {
    if ticks != [] {
      var g, t := ticks[..|ticks| - 1], ticks[|ticks| - 1];
      ReportIsTrue(cfg, g);
      var s := Run(cfg, g);
      if Opens(cfg, s, t) {
        assert [t][0].score == t.score;
      } else if s.active && Scored(s, t) && Above(cfg, t) {
        PeakGrows(s.peak, Motion(cfg, g), t);
      }
    }
  }

  /** Whatever closes an event reports it as it was before the closing tick. */
  lemma EndsReportMotion(cfg: Config, g: seq<Tick>, t: Tick)
    requires var s := Run(cfg, g); ClosesByPostRoll(cfg, s, t) || ClosesOffHours(s, t)
    ensures Calls(cfg, Run(cfg, g), t) == [End(Run(cfg, g))]
    ensures Reports(Run(cfg, g), Motion(cfg, g))
  {
    ReportIsTrue(cfg, g);
  }

  /** An open event is never inside a cooldown. */
  lemma {:induction false} NeverOpenInCooldown(cfg: Config, ticks: seq<Tick>)
    requires Clock(ticks) && ticks != [] && Run(cfg, ticks).active
    ensures Run(cfg, ticks).cooldownUntil <= ticks[|ticks| - 1].now
    decreases |ticks|
  {
    var g := ticks[..|ticks| - 1];
    if Run(cfg, g).active {
      ClockPrefix(ticks, |ticks| - 1);
      assert g != [];
      NeverOpenInCooldown(cfg, g);
      assert g[|g| - 1] == ticks[|g| - 1];
    }
  }

  /** An open event closes exactly when detection goes off schedule, or at a tick below the threshold once the
      post-roll has passed since its last motion tick. */
  lemma ClosesExactly(cfg: Config, g: seq<Tick>, t: Tick)
    requires Clock(g + [t]) && Run(cfg, g).active
    ensures var motion := Motion(cfg, g);
      && motion != []
      && (!Run(cfg, g + [t]).active <==>
            !t.warmup
            && (!t.scheduled
                || (t.score < cfg.minAreaPct && t.now - motion[|motion| - 1].now >= cfg.postRollS * SECOND)))
  {
    assert (g + [t])[..|g|] == g;
    ReportIsTrue(cfg, g);
    ClockPrefix(g + [t], |g|);
    assert g != [];
    NeverOpenInCooldown(cfg, g);
    assert (g + [t])[|g| - 1] == g[|g| - 1] && (g + [t])[|g|] == t;
    hide Motion, IsPeak;
  }

  // ---- cooldown -----------------------------------------------------------------------------

  /** Not before `until`: the cooldown reaches at least there, and the machine is armed again only
      once the clock has passed it. */
  ghost predicate HoldsOff(s: State, until: int, now: int) {
    s.cooldownUntil >= until && (s.armed ==> now > until)
  }

  lemma StepHoldsOff(cfg: Config, s: State, t: Tick, until: int, last: int, closed: int)
    requires HoldsOff(s, until, last) && closed <= last <= t.now && until == closed + cfg.cooldownS * SECOND
    ensures HoldsOff(Next(cfg, s, t), until, t.now)
    ensures Opens(cfg, s, t) ==> t.now > until
  {
  }

  /** After an event was closed by its post-roll at tick c, no OnStart fires at a tick at or before
      the end of the cooldown, whatever happens in between. */
  lemma {:induction false} NoStartInCooldown(cfg: Config, a: seq<Tick>, c: Tick, b: seq<Tick>, t: Tick)
    requires Clock(a + [c] + b + [t])
    requires ClosesByPostRoll(cfg, Run(cfg, a), c)
    ensures HoldsOff(Run(cfg, a + [c] + b + [t]), c.now + cfg.cooldownS * SECOND, t.now)
    ensures Opens(cfg, Run(cfg, a + [c] + b), t) ==> t.now > c.now + cfg.cooldownS * SECOND
    decreases |b|
  {
    var until := c.now + cfg.cooldownS * SECOND;
    var h := a + [c] + b;
    assert (h + [t])[..|h|] == h;
    if b == [] {
      assert h == a + [c] && h[..|a|] == a;
      DisarmedWhileActive(cfg, a);
      assert h[|a|] == c && (h + [t])[|a|] == c && (h + [t])[|h|] == t;
      StepHoldsOff(cfg, Run(cfg, h), t, until, c.now, c.now);
    } else {
      var b', last := b[..|b| - 1], b[|b| - 1];
      assert h == a + [c] + b' + [last];
      ClockPrefix(h + [t], |h|);
      NoStartInCooldown(cfg, a, c, b', last);
      assert (h + [t])[|a|] == c && (h + [t])[|h| - 1] == last && (h + [t])[|h|] == t;
      StepHoldsOff(cfg, Run(cfg, h), t, until, last.now, c.now);
    }
  }

  /** Two events in a row do not overlap as reported, although a start is dated back: the next one after a
      post-roll close starts at or after the end that close reported, as long as post-roll and cooldown together
      reach the tick span. */
  lemma EventsDoNotOverlap(cfg: Config, a: seq<Tick>, c: Tick, b: seq<Tick>, t: Tick)
    requires Clock(a + [c] + b + [t]) && (cfg.postRollS + cfg.cooldownS) * SECOND >= TICK_SPAN
    requires ClosesByPostRoll(cfg, Run(cfg, a), c) && Opens(cfg, Run(cfg, a + [c] + b), t)
    ensures Calls(cfg, Run(cfg, a), c) == [End(Run(cfg, a))]
    ensures var started := Calls(cfg, Run(cfg, a + [c] + b), t);
      |started| == 1 && started[0].OnStart? && started[0].ts >= End(Run(cfg, a)).end
  {
    NoStartInCooldown(cfg, a, c, b, t);
  }
}
