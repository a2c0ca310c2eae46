/** The recorder itself: parallel slices, a pre-roll ring and cached first/last times, updated in
    place call by call. */
module Recording {
  import opened Durations
  import opened MachineInts
  import opened Options
  import opened PreRoll
  import opened Segmenter

  /** What is handed to the marshaller. */
  datatype MarshalJob = MarshalJob(
    seqNo: int, start: int, end: int,
    v: seq<Sample>, vPTS: seq<int>, vFirst: int,
    a: seq<Sample>, aPTS: seq<int>, aFirst: int, aRate: int)

  /** The zero Time. */
  const ZERO_TIME := 0

  function RawVideo(fs: seq<Frame>): (out: seq<Sample>)
    ensures |out| == |fs|
  {
    seq(|fs|, i requires 0 <= i < |fs| => Sample(!fs[i].sync, fs[i].payload, 0, 0))
  }

  function VideoPTS(fs: seq<Frame>): (out: seq<int>)
    ensures |out| == |fs|
  {
    seq(|fs|, i requires 0 <= i < |fs| => fs[i].pts)
  }

  function Times(fs: seq<Frame>): (out: seq<int>)
    ensures |out| == |fs|
  {
    seq(|fs|, i requires 0 <= i < |fs| => fs[i].ntp)
  }

  function RawAudio(aus: seq<AudioFrame>): (out: seq<Sample>)
    ensures |out| == |aus|
  {
    seq(|aus|, i requires 0 <= i < |aus| => Sample(false, aus[i].payload, 0, 0))
  }

  function AudioPTS(aus: seq<AudioFrame>): (out: seq<int>)
    ensures |out| == |aus|
  {
    seq(|aus|, i requires 0 <= i < |aus| => aus[i].pts)
  }

  lemma VideoSnoc(fs: seq<Frame>, f: Frame)
    ensures RawVideo(fs + [f]) == RawVideo(fs) + [Sample(!f.sync, f.payload, 0, 0)]
    ensures VideoPTS(fs + [f]) == VideoPTS(fs) + [f.pts]
    ensures Times(fs + [f]) == Times(fs) + [f.ntp]
  {
  }

  lemma VideoDrop(fs: seq<Frame>, n: nat)
    requires n <= |fs|
    ensures RawVideo(fs[n..]) == RawVideo(fs)[n..]
    ensures VideoPTS(fs[n..]) == VideoPTS(fs)[n..]
    ensures Times(fs[n..]) == Times(fs)[n..]
  {
  }

  lemma VideoNone()
    ensures RawVideo([]) == [] && VideoPTS([]) == [] && Times([]) == []
    ensures RawAudio([]) == [] && AudioPTS([]) == []
  {
  }

  lemma AudioSnoc(aus: seq<AudioFrame>, a: AudioFrame)
    ensures RawAudio(aus + [a]) == RawAudio(aus) + [Sample(false, a.payload, 0, 0)]
    ensures AudioPTS(aus + [a]) == AudioPTS(aus) + [a.pts]
  {
  }

  /** End of a segment: the last frame's time plus its duration, or the fallback when that lies
      before the start or is the zero Time. */
  function EndTime(g: Segment): int
    requires g.frames != []
  {
    var n := |g.frames|;
    var track := TimedTrack(RawVideo(g.frames), VideoPTS(g.frames), g.frames[0].pts);
    var end := g.frames[n - 1].ntp + track[n - 1].duration * SECOND / VIDEO_CLOCK;
    if end < g.frames[0].ntp || end == ZERO_TIME then g.fallback else end
  }

  /** A uint32 counter that has been incremented n times. */
  function Counter(n: nat): int {
    n % 0x1_0000_0000
  }

  lemma CounterNext(n: nat)
    ensures (Counter(n) + 1) % 0x1_0000_0000 == Counter(n + 1)
  {
  }

  /** `job` carries segment g as number k (counted from 0) of this recorder. */
  ghost predicate Carries(job: MarshalJob, g: Segment, k: nat) {
    && g.frames != []
    && job.seqNo == Counter(k + 1)
    && job.start == g.frames[0].ntp
    && job.end == EndTime(g)
    && job.vPTS == VideoPTS(g.frames)
    && job.vFirst == g.frames[0].pts
    && job.v == TimedTrack(RawVideo(g.frames), job.vPTS, job.vFirst)
    && job.aPTS == AudioPTS(g.audio)
    && job.aRate == g.rate
    && (g.audio == [] ==> job.a == [])
    && (g.audio != [] ==> job.aFirst == g.audio[0].pts
                          && job.a == TimedTrack(RawAudio(g.audio), job.aPTS, job.aFirst))
  }

  /** The jobs handed over so far carry the finished segments, numbered 1, 2, 3, ... */
  ghost predicate Jobs(emitted: seq<MarshalJob>, segs: seq<Segment>) {
    && |emitted| == |segs|
    && forall k :: 0 <= k < |emitted| ==> Carries(emitted[k], segs[k], k)
  }

  lemma JobsCount(emitted: seq<MarshalJob>, segs: seq<Segment>)
    requires Jobs(emitted, segs)
    ensures |emitted| == |segs|
  {
  }

  lemma JobsSnoc(emitted: seq<MarshalJob>, segs: seq<Segment>, job: MarshalJob, g: Segment)
    requires Jobs(emitted, segs) && Carries(job, g, |segs|)
    ensures Jobs(emitted + [job], segs + [g])
  {
    hide Carries;
  }

  /** The millisecond that names a segment's object. */
  function KeyMilli(g: Segment): int
    requires g.frames != []
  {
    g.frames[0].ntp / 1_000_000
  }

  lemma LaterStartsLater(segs: seq<Segment>, fs: seq<Frame>, end: nat, i: nat, j: nat)
    requires OrderedBlocks(segs, fs, end) && NeverBack(fs) && i <= j < |segs|
    requires segs[i].frames != [] && segs[j].frames != []
    ensures segs[i].frames[0].ntp <= segs[j].frames[0].ntp
  {
    assert Block(segs[i].frames, segs[i].first, fs) && Block(segs[j].frames, segs[j].first, fs);
    assert segs[i].frames[0] == fs[segs[i].first] && segs[j].frames[0] == fs[segs[j].first];
  }

  /** With wall-clock times that do not run backwards, a segment that was cut by a rotation starts at
      least a second before every later one, so their objects have different keys. */
  lemma RotatedKeysDiffer(mode: Mode, h: seq<Input>, k: nat, j: nat)
    requires NeverBack(Frames(h))
    requires k < j < |Run(mode, h).segs| && Run(mode, h).segs[k].rotated
    ensures var segs := Run(mode, h).segs;
      && segs[k].frames != [] && segs[j].frames != []
      && segs[j].frames[0].ntp - segs[k].frames[0].ntp >= SECOND && KeyMilli(segs[j]) > KeyMilli(segs[k])
  {
    var s, fs := Run(mode, h), Frames(h);
    ShapeOfRuns(mode, h);
    RotationsAreDue(mode, h);
    SegmentsAreBlocks(mode, h);
    assert RotatedWell(s, k);
    LaterStartsLater(s.segs, fs, Front(s), k + 1, j);
  }

  /** Segment g is one that call i ends, when the audio rate is `rate`: a frame rotates and is the fallback for
      the end time, a Close or a deactivation does not and gives its clock as that. */
  predicate EndedBy(g: Segment, i: Input, rate: int) {
    && g.rate == rate
    && match i {
      case Video(f) => g.rotated && f.sync && g.fallback == f.ntp
      case Shut(now) => !g.rotated && g.fallback == now
      case Window(on, now) => !on && !g.rotated && g.fallback == now
      case _ => false
    }
  }

  lemma StepEnds(mode: Mode, s: Segmenter.State, i: Input)
    ensures var t := Step(mode, s, i);
      || t.segs == s.segs
      || (&& |t.segs| == |s.segs| + 1 && t.segs[..|s.segs|] == s.segs && EndedBy(t.segs[|s.segs|], i, s.rate)
          && t.segs[|s.segs|].frames == s.buf)
  {
    hide Cut;
  }

  /** Call n of the history is the one that ends segment k, with the audio rate of that moment and the frames
      buffered till then. */
  ghost predicate Ends(mode: Mode, h: seq<Input>, n: nat, k: nat, g: Segment) {
    && n < |h| && |Run(mode, h[..n]).segs| == k && |Run(mode, h[..n + 1]).segs| == k + 1
    && EndedBy(g, h[n], RateAfter(h[..n])) && g.frames == Run(mode, h[..n]).buf
  }

  lemma EndsLater(mode: Mode, h: seq<Input>, n: nat, k: nat, g: Segment)
    requires h != [] && Ends(mode, h[..|h| - 1], n, k, g)
    ensures Ends(mode, h, n, k, g)
  {
    var init := h[..|h| - 1];
    assert init[..n] == h[..n] && init[..n + 1] == h[..n + 1];
    hide EndedBy, Run, RateAfter;
  }

  lemma EndsNow(mode: Mode, h: seq<Input>, k: nat)
    requires h != [] && |Run(mode, h[..|h| - 1]).segs| <= k < |Run(mode, h).segs|
    ensures Ends(mode, h, |h| - 1, k, Run(mode, h).segs[k])
  {
    var g := h[..|h| - 1];
    assert h[..|h|] == h && h == g + [h[|h| - 1]];
    RunSnoc(mode, g, h[|h| - 1]);
    StepEnds(mode, Run(mode, g), h[|h| - 1]);
    AudioGoesToTheOpenSegment(mode, g);
    hide Step, EndedBy, RateAfter, Run;
  }

  lemma SegmentsStay(mode: Mode, h: seq<Input>, k: nat)
    requires h != [] && k < |Run(mode, h[..|h| - 1]).segs|
    ensures k < |Run(mode, h).segs| && Run(mode, h).segs[k] == Run(mode, h[..|h| - 1]).segs[k]
  {
    StepEnds(mode, Run(mode, h[..|h| - 1]), h[|h| - 1]);
    hide Step;
  }

  lemma NoneAtFirst(mode: Mode)
    ensures Run(mode, []).segs == []
  {
  }

  /** Every segment is ended by one call: by a keyframe, and is then a rotated one, or else by a Close or a
      deactivation. */
  lemma {:induction false} EveryEndHasItsCall(mode: Mode, h: seq<Input>, k: nat)
    requires k < |Run(mode, h).segs|
    ensures exists n: nat :: Ends(mode, h, n, k, Run(mode, h).segs[k])
    decreases |h|
  {
    hide Run, Ends;
    NoneAtFirst(mode);
    if h != [] && k < |Run(mode, h[..|h| - 1]).segs| {
      SegmentsStay(mode, h, k);
      EveryEndHasItsCall(mode, h[..|h| - 1], k);
      var n: nat :| Ends(mode, h[..|h| - 1], n, k, Run(mode, h).segs[k]);
      EndsLater(mode, h, n, k, Run(mode, h).segs[k]);
    } else if h != [] {
      EndsNow(mode, h, k);
    }
  }

  /** A segment that a Close or a deactivation ended has the key of the next one. */
  predicate SharesWithNext(segs: seq<Segment>, i: nat)
    requires i + 1 < |segs|
  {
    && segs[i].frames != [] && segs[i + 1].frames != []
    && !segs[i].rotated && KeyMilli(segs[i]) == KeyMilli(segs[i + 1])
  }

  lemma LaterKeyIsNotLess(mode: Mode, h: seq<Input>, i: nat, j: nat)
    requires NeverBack(Frames(h)) && i <= j < |Run(mode, h).segs|
    ensures var segs := Run(mode, h).segs;
      segs[i].frames != [] && segs[j].frames != [] && KeyMilli(segs[i]) <= KeyMilli(segs[j])
  {
    var s := Run(mode, h);
    ShapeOfRuns(mode, h);
    SegmentsAreBlocks(mode, h);
    LaterStartsLater(s.segs, Frames(h), Front(s), i, j);
  }

  lemma {:induction false} ChainedKeys(segs: seq<Segment>, k: nat, j: nat)
    requires k < j < |segs| && forall i: nat :: k <= i < j ==> SharesWithNext(segs, i)
    ensures segs[k].frames != [] && segs[j].frames != [] && KeyMilli(segs[k]) == KeyMilli(segs[j])
    decreases j - k
  {
    hide KeyMilli;
    assert SharesWithNext(segs, j - 1);
    if k < j - 1 {
      ChainedKeys(segs, k, j - 1);
    }
  }

  /** With times that do not run backwards, two segments have one key exactly when every segment from the first
      on until the second has the key of the next and was ended by a Close or a deactivation. */
  lemma KeysAreSharedInChains(mode: Mode, h: seq<Input>, k: nat, j: nat)
    requires NeverBack(Frames(h)) && k < j < |Run(mode, h).segs|
    ensures var segs := Run(mode, h).segs;
      && segs[k].frames != [] && segs[j].frames != []
      && (KeyMilli(segs[k]) == KeyMilli(segs[j]) <==> forall i: nat :: k <= i < j ==> SharesWithNext(segs, i))
  {
    hide Run, NeverBack, Frames, KeyMilli;
    var segs := Run(mode, h).segs;
    LaterKeyIsNotLess(mode, h, k, j);
    if KeyMilli(segs[k]) == KeyMilli(segs[j]) {
      forall i: nat | k <= i < j ensures SharesWithNext(segs, i) {
        LaterKeyIsNotLess(mode, h, k, i);
        LaterKeyIsNotLess(mode, h, i, i + 1);
        LaterKeyIsNotLess(mode, h, i + 1, j);
        if segs[i].rotated {
          RotatedKeysDiffer(mode, h, i, i + 1);
        }
      }
    } else if forall i: nat :: k <= i < j ==> SharesWithNext(segs, i) {
      ChainedKeys(segs, k, j);
    }
  }

  /** So some key is used twice exactly when some segment that a Close or a deactivation ended begins in the
      millisecond the next one begins in. */
  lemma KeyIsSharedExactly(mode: Mode, h: seq<Input>)
    requires NeverBack(Frames(h))
    ensures var segs := Run(mode, h).segs;
      && (forall k :: 0 <= k < |segs| ==> segs[k].frames != [])
      && ((exists k, j :: 0 <= k < j < |segs| && KeyMilli(segs[k]) == KeyMilli(segs[j]))
          <==> exists i: nat :: i + 1 < |segs| && SharesWithNext(segs, i))
  {
    ShapeOfRuns(mode, h);
    hide Run, NeverBack, Frames, KeyMilli;
    var segs := Run(mode, h).segs;
    if k, j :| 0 <= k < j < |segs| && KeyMilli(segs[k]) == KeyMilli(segs[j]) {
      KeysAreSharedInChains(mode, h, k, j);
      assert SharesWithNext(segs, k);
    }
    if i: nat :| i + 1 < |segs| && SharesWithNext(segs, i) {
      assert KeyMilli(segs[i]) == KeyMilli(segs[i + 1]);
    }
  }

  /** A keyframe recorded, then a Close. */
  lemma KeyframeThenClose(h: seq<Input>, f: Frame, t: int)
    requires f.sync && !Run(Continuous, h).open && Run(Continuous, h).buf == []
    ensures var s, g := Run(Continuous, h), h + [Video(f)] + [Shut(t)];
      && Run(Continuous, g).segs == s.segs + [Segment([f], s.seen, s.audio, s.rate, t, false)]
      && Run(Continuous, g).buf == [] && !Run(Continuous, g).open && Frames(g) == Frames(h) + [f]
  {
    RunSnoc(Continuous, h, Video(f));
    RunSnoc(Continuous, h + [Video(f)], Shut(t));
    assert (h + [Video(f)])[..|h|] == h;
    assert (h + [Video(f)] + [Shut(t)])[..|h| + 1] == h + [Video(f)];
    assert Frames(h + [Video(f)]) == Frames(h) + [f];
    hide Run;
  }

  /** It happens: a keyframe after a Close that has the time of the one before it. */
  lemma CloseCanShareAKey(f: Frame, t: int, u: int)
    requires f.sync
    ensures var h := [Video(f), Shut(t), Video(f), Shut(u)];
      var segs := Run(Continuous, h).segs;
      NeverBack(Frames(h)) && |segs| == 2 && segs[0].frames == [f] && segs[1].frames == [f] && SharesWithNext(segs, 0)
  {
    assert Run(Continuous, []) == INIT && Frames([]) == [];
    hide Run, Frames;
    var g := [Video(f), Shut(t)];
    assert g == [] + [Video(f)] + [Shut(t)];
    assert [Video(f), Shut(t), Video(f), Shut(u)] == g + [Video(f)] + [Shut(u)];
    KeyframeThenClose([], f, t);
    KeyframeThenClose(g, f, u);
  }

  /** The video track of every job, in every mode: adding durations and offsets gives back the access units
      with the PTS they came with, for every track within the container's ranges. */
  lemma VideoTrackPlays(job: MarshalJob, g: Segment, k: nat, i: nat)
    requires Carries(job, g, k) && i < |g.frames| && FitsContainer(VideoPTS(g.frames), g.frames[0].pts)
    ensures |job.v| == |g.frames|
    ensures job.v[i].payload == g.frames[i].payload && (job.v[i].isNonSync <==> !g.frames[i].sync)
    ensures SumDurations(job.v, i) + job.v[i].ptsOffset == g.frames[i].pts - g.frames[0].pts && job.v[i].duration > 0
  {
    hide SumDurations, FitsContainer, EndTime;
    PtsReconstructed(RawVideo(g.frames), VideoPTS(g.frames), g.frames[0].pts, i);
  }

  /** And its audio track. */
  lemma AudioTrackPlays(job: MarshalJob, g: Segment, k: nat, i: nat)
    requires Carries(job, g, k) && i < |g.audio| && FitsContainer(AudioPTS(g.audio), g.audio[0].pts)
    ensures |job.a| == |g.audio| && job.a[i].payload == g.audio[i].payload && !job.a[i].isNonSync
    ensures SumDurations(job.a, i) + job.a[i].ptsOffset == g.audio[i].pts - g.audio[0].pts && job.a[i].duration > 0
  {
    hide SumDurations, FitsContainer, EndTime;
    PtsReconstructed(RawAudio(g.audio), AudioPTS(g.audio), g.audio[0].pts, i);
  }

  lemma {:induction false} OffRecordsNothing(h: seq<Input>)
    ensures Run(Off, h).segs == []
    decreases |h|
  {
    if h != [] {
      OffRecordsNothing(h[..|h| - 1]);
      ShapeOfRuns(Off, h[..|h| - 1]);
    }
  }

  lemma FirstIsSync(job: MarshalJob, g: Segment, k: nat)
    requires Carries(job, g, k)
    ensures g.frames != [] && |job.v| == |g.frames| && (job.v[0].isNonSync <==> !g.frames[0].sync)
    ensures k + 1 < 0x1_0000_0000 ==> job.seqNo == k + 1
  {
    hide EndTime;
  }

  /** Jobs are numbered 1, 2, 3, ... Every job of continuous mode starts with a sync sample. A job of motion
      mode does unless its segment began by adopting a ring that does not start with a keyframe. */
  lemma FirstSampleOfAJob(mode: Mode, h: seq<Input>, emitted: seq<MarshalJob>, k: nat)
    requires Jobs(emitted, Run(mode, h).segs) && k < |emitted|
    ensures emitted[k].v != [] && mode != Off && (k + 1 < 0x1_0000_0000 ==> emitted[k].seqNo == k + 1)
    ensures mode == Continuous ==> !emitted[k].v[0].isNonSync
    ensures mode == Motion ==> (emitted[k].v[0].isNonSync <==> EverAdopts(h, k))
  {
    hide Run, Carries, EverAdopts;
    FirstIsSync(emitted[k], Run(mode, h).segs[k], k);
    match mode
    case Continuous =>
      ContinuousSegmentsAreWellCut(h);
      assert WellCut(Run(mode, h).segs[k].frames);
    case Motion => UndecodableSegments(h, k);
    case Off => OffRecordsNothing(h);
  }

  /** Job k is about a block of the frames that came in: it starts at the time of the first, ends when that segment
      does, carries their payloads in order, and the audio that came in while the segment was open. */
  lemma JobIsOfItsBlock(mode: Mode, h: seq<Input>, emitted: seq<MarshalJob>, k: nat)
    requires Jobs(emitted, Run(mode, h).segs) && k < |emitted|
    ensures var job, fs, g := emitted[k], Frames(h), Run(mode, h).segs[k];
      var first := g.first;
      var audio := AudioOf(mode, h, k);
      && job.v != [] && first + |job.v| <= |fs|
      && g.frames != [] && job.start == fs[first].ntp && job.vFirst == fs[first].pts
      && job.end == EndTime(g) && job.aRate == g.rate
      && (forall i :: 0 <= i < |job.v| ==>
            job.v[i].payload == fs[first + i].payload && job.v[i].isNonSync == !fs[first + i].sync)
      && |job.a| == |audio|
      && (forall i :: 0 <= i < |audio| ==> job.a[i].payload == audio[i].payload && job.aPTS[i] == audio[i].pts)
  {
    SegmentsAreBlocks(mode, h);
    AudioGoesToTheOpenSegment(mode, h);
    hide Run, Frames, AudioOf, EndTime;
    var g := Run(mode, h).segs[k];
    assert Carries(emitted[k], g, k) && Block(g.frames, g.first, Frames(h));
  }

  /** A rotated segment ends no earlier than it starts. */
  lemma RotatedEndsAfterStart(mode: Mode, h: seq<Input>, k: nat)
    requires k < |Run(mode, h).segs| && Run(mode, h).segs[k].rotated
    ensures var g := Run(mode, h).segs[k];
      g.frames != [] && g.frames[0].ntp <= EndTime(g)
  {
    ShapeOfRuns(mode, h);
    RotationsAreDue(mode, h);
    assert RotatedWell(Run(mode, h), k);
  }

  /** The step of the last frame: the PTS has grown by it last, from frame j on, or has never grown. */
  ghost predicate StepOf(g: Segment, step: int, j: nat)
    requires g.frames != []
  {
    var pts, n := VideoPTS(g.frames), |g.frames|;
    if NeverGrows(pts, n - 1) then step == 1 else LastGrowth(pts, n - 1, j) && step == pts[j + 1] - pts[j]
  }

  lemma StepIsDelta(g: Segment, step: int, j: nat)
    requires g.frames != [] && StepOf(g, step, j)
    ensures step == Delta(VideoPTS(g.frames), |g.frames| - 1)
  {
    hide LastGrowth, NeverGrows, Delta, VideoPTS;
    DeltaIsLastGrowth(VideoPTS(g.frames), |g.frames| - 1);
  }

  lemma EndAfterDelta(g: Segment, step: int)
    requires g.frames != [] && step == Delta(VideoPTS(g.frames), |g.frames| - 1)
    ensures var end := g.frames[|g.frames| - 1].ntp + ToUint32(step) * SECOND / VIDEO_CLOCK;
      EndTime(g) == if end < g.frames[0].ntp || end == ZERO_TIME then g.fallback else end
  {
    hide Delta, VideoPTS, RawVideo, Dts, ToUint32;
  }

  /** A segment ends one step of its last frame after that frame, the step being the last by which the PTS has
      grown, or one tick, in 32 bits; if that is before its start or the zero time, where the call that ended it
      says. */
  lemma EndTimeExactly(g: Segment, step: int, j: nat)
    requires g.frames != [] && StepOf(g, step, j)
    ensures var end := g.frames[|g.frames| - 1].ntp + ToUint32(step) * SECOND / VIDEO_CLOCK;
      EndTime(g) == if end < g.frames[0].ntp || end == ZERO_TIME then g.fallback else end
  {
    hide EndTime, StepOf;
    StepIsDelta(g, step, j);
    EndAfterDelta(g, step);
  }

  lemma LastOfSteady(g: Segment)
    requires |g.frames| >= 2 && g.frames[|g.frames| - 1].pts > g.frames[|g.frames| - 2].pts
    ensures StepOf(g, g.frames[|g.frames| - 1].pts - g.frames[|g.frames| - 2].pts, |g.frames| - 2)
  {
    var pts, n := VideoPTS(g.frames), |g.frames|;
    assert Grows(pts, n - 2) && !Grows(pts, n - 1);
  }

  /** A rotated segment of a steady stream ends exactly where the next one starts: when the rotating keyframe
      comes as much later by the clock as the last step of PTS says. */
  lemma SteadySegmentsAbut(mode: Mode, h: seq<Input>, k: nat)
    requires k < |Run(mode, h).segs| && Run(mode, h).segs[k].rotated
    ensures var s := Run(mode, h);
      var g, n, next := s.segs[k], |s.segs[k].frames|, Following(s, k);
      && next != []
      && (n >= 2 ==>
            var step := g.frames[n - 1].pts - g.frames[n - 2].pts;
            0 < step < 0x1_0000_0000 && next[0].ntp == g.frames[n - 1].ntp + step * SECOND / VIDEO_CLOCK ==>
              EndTime(g) == next[0].ntp)
  {
    ShapeOfRuns(mode, h);
    RotationsAreDue(mode, h);
    assert RotatedWell(Run(mode, h), k);
    hide Run, EndTime, StepOf;
    var g, n := Run(mode, h).segs[k], |Run(mode, h).segs[k].frames|;
    if n >= 2 && 0 < g.frames[n - 1].pts - g.frames[n - 2].pts < 0x1_0000_0000 {
      LastOfSteady(g);
      EndTimeExactly(g, g.frames[n - 1].pts - g.frames[n - 2].pts, n - 2);
    }
  }

  class Recorder {
    const mode: Mode
    var audioRate: int
    var open: bool
    var vSamples: seq<Sample>
    var vPTS: seq<int>
    var aSamples: seq<Sample>
    var aPTS: seq<int>
    var vFirstPTS: int
    var aFirstPTS: int
    var startNTP: int
    var lastNTP: int
    var seqNo: int
    var motionActive: bool
    var vNTP: seq<int>

    ghost var history: seq<Input>
    ghost var emitted: seq<MarshalJob>

    /** The fold over all calls so far. */
    ghost function State(): Segmenter.State
      reads this
    {
      Run(mode, history)
    }

    /** The slices and cached times hold what the fold's buffers hold. */
    ghost predicate Represents(s: Segmenter.State)
      reads this
    {
      && audioRate == s.rate && open == s.open && motionActive == s.active
      && vSamples == RawVideo(s.buf) && vPTS == VideoPTS(s.buf)
      && aSamples == RawAudio(s.audio) && aPTS == AudioPTS(s.audio)
      && (s.audio != [] ==> aFirstPTS == s.audio[0].pts)
      && (s.open && s.buf != [] ==> vFirstPTS == s.buf[0].pts && startNTP == s.buf[0].ntp
                                    && lastNTP == s.buf[|s.buf| - 1].ntp)
      && (!s.open ==> vNTP == Times(s.buf))
    }

    ghost predicate Emitted(s: Segmenter.State)
      reads this
    {
      seqNo == Counter(|emitted|) && Jobs(emitted, s.segs)
    }

    ghost predicate Valid()
      reads this
    {
      Represents(State()) && Emitted(State())
    }

    constructor (mode: Mode)
      ensures Valid() && this.mode == mode && history == [] && emitted == []
    {
      this.mode := mode;
      audioRate, open, motionActive, seqNo := 0, false, false, 0;
      vSamples, vPTS, aSamples, aPTS, vNTP := [], [], [], [], [];
      history, emitted := [], [];
    }

    /** The job for the open segment; the slices are still in place. */
    method BuildJob(nextSegStart: int, number: int, ghost g: Segment) returns (job: MarshalJob)
      requires g.frames != [] && g.fallback == nextSegStart && g.rate == audioRate
      requires vSamples == RawVideo(g.frames) && vPTS == VideoPTS(g.frames)
      requires aSamples == RawAudio(g.audio) && aPTS == AudioPTS(g.audio)
      requires g.audio != [] ==> aFirstPTS == g.audio[0].pts
      requires vFirstPTS == g.frames[0].pts && startNTP == g.frames[0].ntp
      requires lastNTP == g.frames[|g.frames| - 1].ntp
      ensures job.seqNo == number
      ensures forall k: nat :: number == Counter(k + 1) ==> Carries(job, g, k)
    {
      hide Counter;
      var v := AssignDurations(vSamples, vPTS, vFirstPTS);
      var a := aSamples;
      if |aSamples| > 0 {
        a := AssignDurations(aSamples, aPTS, aFirstPTS);
      }
      var start, end := startNTP, lastNTP;
      if |v| > 0 {
        end := end + v[|v| - 1].duration * SECOND / VIDEO_CLOCK;
      }
      if end < start || end == ZERO_TIME {
        end := nextSegStart;
      }
      job := MarshalJob(number, start, end, v, vPTS, vFirstPTS, a, aPTS, aFirstPTS, audioRate);
    }

    /** Hands the open segment over and resets the per-segment state. */
    method Snapshot(nextSegStart: int, ghost s: Segmenter.State, ghost rotated: bool) returns (job: Option<MarshalJob>)
      requires Shape(mode, s) && s.open && Represents(s) && Emitted(s)
      modifies this
      ensures history == old(history)
      ensures job.Some? && emitted == old(emitted) + [job.value]
      ensures Represents(Flush(s, nextSegStart, rotated)) && Emitted(Flush(s, nextSegStart, rotated))
    {
      hide Carries, Counter, Jobs, RawVideo, VideoPTS, Times, RawAudio, AudioPTS;
      VideoNone();
      JobsCount(emitted, s.segs);
      open := false;
      ghost var g := Segment(s.buf, s.first, s.audio, s.rate, nextSegStart, rotated);
      CounterNext(|emitted|);
      seqNo := (seqNo + 1) % 0x1_0000_0000;
      var j := BuildJob(nextSegStart, seqNo, g);
      JobsSnoc(emitted, s.segs, j, g);
      emitted := emitted + [j];
      vSamples, vPTS, vNTP := [], [], [];
      aSamples, aPTS := [], [];
      job := Some(j);
    }

    /** Bounds the ring to the pre-roll, cutting only at a keyframe. */
    method TrimRing(ghost buf: seq<Frame>)
      requires buf != [] && vSamples == RawVideo(buf) && |vPTS| == |buf| && vNTP == Times(buf)
      modifies `vSamples, `vPTS, `vNTP
      ensures vSamples == old(vSamples)[Cut(buf)..]
      ensures vPTS == old(vPTS)[Cut(buf)..]
      ensures vNTP == old(vNTP)[Cut(buf)..]
    {
      hide RawVideo, LeadingOld, LastSync;
      var latest := vNTP[|vNTP| - 1];
      if latest - vNTP[0] <= PRE_ROLL {
        assert Cut(buf) == 0;
        return;
      }
      var cut := RingCut(vNTP, vSamples, latest - PRE_ROLL, buf);
      assert cut == Cut(buf);
      if cut > 0 {
        vSamples, vPTS, vNTP := vSamples[cut..], vPTS[cut..], vNTP[cut..];
      }
    }

    /** The loop of the trimming: the newest keyframe at or before the cutoff. */
    static method RingCut(times: seq<int>, samples: seq<Sample>, cutoff: int, ghost buf: seq<Frame>) returns (cut: nat)
      requires samples == RawVideo(buf) && times == Times(buf)
      ensures cut == LastSync(buf, LeadingOld(buf, cutoff))
    {
      cut := 0;
      var i := 0;
      ghost var n := LeadingOld(buf, cutoff);
      while i < |times|
        invariant 0 <= i <= n
        invariant cut == LastSync(buf, i)
      {
        if times[i] > cutoff {
          break;
        }
        if !samples[i].isNonSync {
          cut := i;
        }
        i := i + 1;
      }
    }

    /** Adds a frame to the ring of an inactive motion window. */
    method Retain(f: Frame, ghost s: Segmenter.State)
      requires Shape(mode, s) && Represents(s) && !s.open
      modifies `vSamples, `vPTS, `vNTP
      ensures Represents(Push(s, f))
    {
      hide RawVideo, VideoPTS, Times, RawAudio, AudioPTS, Cut;
      VideoSnoc(s.buf, f);
      VideoDrop(s.buf + [f], Cut(s.buf + [f]));
      vSamples := vSamples + [Sample(!f.sync, f.payload, 0, 0)];
      vPTS := vPTS + [f.pts];
      vNTP := vNTP + [f.ntp];
      TrimRing(s.buf + [f]);
    }

    /** Adds a frame to the open segment, or as the first frame of a new one. */
    method Append(f: Frame, ghost buf: seq<Frame>)
      requires vSamples == RawVideo(buf) && vPTS == VideoPTS(buf)
      modifies `vSamples, `vPTS, `lastNTP
      ensures vSamples == RawVideo(buf + [f]) && vPTS == VideoPTS(buf + [f]) && lastNTP == f.ntp
    {
      VideoSnoc(buf, f);
      vSamples := vSamples + [Sample(!f.sync, f.payload, 0, 0)];
      vPTS := vPTS + [f.pts];
      lastNTP := f.ntp;
    }

    /** The first frame of a new segment. */
    method Start(f: Frame)
      requires vSamples == RawVideo([]) && vPTS == VideoPTS([])
      modifies `open, `vFirstPTS, `startNTP, `vSamples, `vPTS, `lastNTP
      ensures open && vFirstPTS == f.pts && startNTP == f.ntp && lastNTP == f.ntp
      ensures vSamples == RawVideo([f]) && vPTS == VideoPTS([f])
    {
      hide RawVideo, VideoPTS;
      open := true;
      vFirstPTS, startNTP := f.pts, f.ntp;
      assert [] + [f] == [f];
      Append(f, []);
    }

    /** The body of WriteVideo; s is the state the recorder represents. */
    method Accept(f: Frame, ghost s: Segmenter.State) returns (job: Option<MarshalJob>)
      requires Shape(mode, s) && Represents(s) && Emitted(s)
      modifies this
      ensures history == old(history) && emitted == old(emitted) + Handed(job)
      ensures Represents(StepVideo(mode, s, f)) && Emitted(StepVideo(mode, s, f))
    {
      hide RawVideo, VideoPTS, Times, RawAudio, AudioPTS, Push, Jobs, Counter;
      job := None;
      if mode == Off {
        return;
      }
      if mode == Motion && !motionActive {
        Retain(f, s);
        KeptByPush(s, f);
        return;
      }
      if !open {
        if !f.sync {
          return;
        }
        Start(f);
      } else if f.sync && f.ntp - startNTP >= TARGET_SEGMENT {
        job := Snapshot(f.ntp, s, true);
        Start(f);
      } else {
        Append(f, s.buf);
      }
    }

    /** A video access unit. `job` is what goes to the marshaller. */
    method WriteVideo(f: Frame) returns (job: Option<MarshalJob>)
      requires Valid()
      modifies this
      ensures Valid() && history == old(history) + [Video(f)]
      ensures emitted == old(emitted) + Handed(job)
    {
      ghost var s := State();
      ShapeOfRuns(mode, history);
      RunSnoc(mode, history, Video(f));
      hide Run, Jobs, RawVideo, VideoPTS, Times, RawAudio, AudioPTS, StepVideo, Shape;
      job := Accept(f, s);
      history := history + [Video(f)];
    }

    static lemma KeptByPush(s: Segmenter.State, f: Frame)
      ensures Push(s, f).segs == s.segs
    {
    }

    /** An audio access unit; dropped unless a segment is open and there is an audio track. */
    method WriteAudio(a: AudioFrame)
      requires Valid()
      modifies this
      ensures Valid() && history == old(history) + [Audio(a)] && emitted == old(emitted)
    {
      ShapeOfRuns(mode, history);
      RunSnoc(mode, history, Audio(a));
      AudioSnoc(State().audio, a);
      hide Run, Jobs, RawVideo, VideoPTS, Times, RawAudio, AudioPTS;
      history := history + [Audio(a)];
      if !open || audioRate == 0 {
        return;
      }
      if |aSamples| == 0 {
        aFirstPTS := a.pts;
      }
      aSamples := aSamples + [Sample(false, a.payload, 0, 0)];
      aPTS := aPTS + [a.pts];
    }

    method SetAudio(timescale: int)
      requires Valid()
      modifies this
      ensures Valid() && history == old(history) + [AudioRate(timescale)] && emitted == old(emitted)
    {
      RunSnoc(mode, history, AudioRate(timescale));
      hide Run, Jobs, RawVideo, VideoPTS, Times, RawAudio, AudioPTS;
      history := history + [AudioRate(timescale)];
      audioRate := timescale;
    }

    /** Adopts the ring, if it holds anything, as the open segment. */
    method Adopt(ghost s: Segmenter.State)
      requires Shape(mode, s) && Represents(s) && !s.open
      modifies this
      ensures Represents(s.(open := s.buf != []))
      ensures history == old(history) && emitted == old(emitted) && seqNo == old(seqNo)
    {
      hide RawVideo, RawAudio, AudioPTS;
      if !open && |vSamples| > 0 {
        open := true;
        vFirstPTS := vPTS[0];
        startNTP := vNTP[0];
        lastNTP := vNTP[|vNTP| - 1];
      }
    }

    /** Opens or closes the persistence window of motion mode; `now` is the clock it reads. */
    method MotionActive(active: bool, now: int) returns (job: Option<MarshalJob>)
      requires Valid()
      modifies this
      ensures Valid() && history == old(history) + [Window(active, now)]
      ensures emitted == old(emitted) + Handed(job)
    {
      ghost var s := State();
      ShapeOfRuns(mode, history);
      RunSnoc(mode, history, Window(active, now));
      hide Run, Jobs, RawVideo, VideoPTS, Times, RawAudio, AudioPTS, Counter;
      history := history + [Window(active, now)];
      job := None;
      if mode != Motion || active == motionActive {
        return;
      }
      if !active {
        if open {
          job := Snapshot(now, s, false);
        }
      } else {
        Adopt(s);
      }
      motionActive := active;
    }

    /** Flushes any open segment. */
    method Close(now: int) returns (job: Option<MarshalJob>)
      requires Valid()
      modifies this
      ensures Valid() && history == old(history) + [Shut(now)]
      ensures emitted == old(emitted) + Handed(job)
    {
      ghost var s := State();
      ShapeOfRuns(mode, history);
      RunSnoc(mode, history, Shut(now));
      hide Run, Jobs, RawVideo, VideoPTS, Times, RawAudio, AudioPTS;
      history := history + [Shut(now)];
      job := None;
      if open {
        job := Snapshot(now, s, false);
      }
    }

    /** What a call adds to the emitted jobs. */
    static function Handed(job: Option<MarshalJob>): seq<MarshalJob> {
      if job.Some? then [job.value] else []
    }
  }
}
