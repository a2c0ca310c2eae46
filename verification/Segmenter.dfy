/** What the recorder promises, as a fold over everything it is called with: which frames end up
    in which segment, in continuous, motion and off mode. The class Recording.Recorder is proved
    against this fold; the lemmas here are about every run of it. */
module Segmenter {
  import opened Durations

  /** Times are nanoseconds since the zero Time. */
  const SECOND := 1_000_000_000
  const TARGET_SEGMENT := 1_000_000_000
  const PRE_ROLL := 10_000_000_000
  const VIDEO_CLOCK := 90_000

  datatype Mode = Continuous | Motion | Off

  /** A video access unit; `sync` is the outcome of the codec's random-access test. */
  datatype Frame = Frame(sync: bool, payload: Payload, pts: int, ntp: int)
  datatype AudioFrame = AudioFrame(payload: Payload, pts: int)

  /** One call on the recorder. `now` is the clock the call reads. */
  datatype Input =
    | Video(f: Frame)
    | Audio(a: AudioFrame)
    | AudioRate(rate: int)
    | Window(on: bool, now: int)
    | Shut(now: int)

  /** A finished segment. `first` is the index of its first frame among all video inputs,
      `fallback` the end time used when the computed one is unusable, `rotated` tells whether the
      next segment starts with the very next frame. */
  datatype Segment = Segment(frames: seq<Frame>, first: nat, audio: seq<AudioFrame>, rate: int,
                             fallback: int, rotated: bool)

  /** `buf` is the open segment, or the pre-roll ring while the motion window is inactive;
      `seen` counts the video inputs and `first` is the index of buf[0] among them. */
  datatype State = State(rate: int, active: bool, open: bool, buf: seq<Frame>, first: nat,
                         audio: seq<AudioFrame>, segs: seq<Segment>, seen: nat)

  const INIT := State(0, false, false, [], 0, [], [], 0)

  function Flush(s: State, fallback: int, rotated: bool): State {
    var segs := if s.buf == [] then s.segs
                else s.segs + [Segment(s.buf, s.first, s.audio, s.rate, fallback, rotated)];
    s.(open := false, buf := [], audio := [], segs := segs)
  }

  /** How many frames at the front are not newer than the cutoff. */
  function LeadingOld(buf: seq<Frame>, cutoff: int): (n: nat)
    ensures n <= |buf|
    ensures forall i :: 0 <= i < n ==> buf[i].ntp <= cutoff
    ensures n < |buf| ==> buf[n].ntp > cutoff
  {
    if buf == [] || buf[0].ntp > cutoff then 0 else 1 + LeadingOld(buf[1..], cutoff)
  }

  /** The last keyframe among the first n frames, 0 when there is none. */
  function LastSync(buf: seq<Frame>, n: nat): (cut: nat)
    requires n <= |buf|
    ensures cut <= n && (n > 0 ==> cut < n)
    ensures cut > 0 ==> buf[cut].sync
    ensures forall i :: cut < i < n ==> !buf[i].sync
    decreases n
  {
    if n == 0 then 0 else if buf[n - 1].sync then n - 1 else LastSync(buf, n - 1)
  }

  /** How many frames the ring drops once its newest frame has been added. */
  function Cut(buf: seq<Frame>): (cut: nat)
    requires buf != []
    ensures cut < |buf|
    ensures forall i :: 0 <= i < cut ==> buf[i].ntp <= buf[|buf| - 1].ntp - PRE_ROLL
    ensures cut > 0 ==> buf[cut].sync && buf[cut].ntp <= buf[|buf| - 1].ntp - PRE_ROLL
  {
    var latest := buf[|buf| - 1].ntp;
    if latest - buf[0].ntp <= PRE_ROLL then 0
    else
      var n := LeadingOld(buf, latest - PRE_ROLL);
      LastSync(buf, n)
  }

  function Push(s: State, f: Frame): State {
    var buf := s.buf + [f];
    var first := if s.buf == [] then s.seen else s.first;
    s.(buf := buf[Cut(buf)..], first := first + Cut(buf))
  }

  predicate Due(s: State, f: Frame) {
    f.sync && s.buf != [] && f.ntp - s.buf[0].ntp >= TARGET_SEGMENT
  }

  function StepVideo(mode: Mode, s: State, f: Frame): State {
    if mode == Off then s
    else if mode == Motion && !s.active then Push(s, f)
    else if !s.open then
      if f.sync then s.(open := true, buf := [f], first := s.seen) else s
    else if Due(s, f) then Flush(s, f.ntp, true).(open := true, buf := [f], first := s.seen)
    else s.(buf := s.buf + [f])
  }

  function Step(mode: Mode, s: State, i: Input): State {
    match i
    case Video(f) => StepVideo(mode, s, f).(seen := s.seen + 1)
    case Audio(a) => if s.open && s.rate != 0 then s.(audio := s.audio + [a]) else s
    case AudioRate(rate) => s.(rate := rate)
    case Window(on, now) =>
      if mode != Motion || on == s.active then s
      else if on then s.(active := true, open := s.buf != [])
      else (if s.open then Flush(s, now, false) else s).(active := false)
    case Shut(now) => if s.open then Flush(s, now, false) else s
  }

  function Run(mode: Mode, h: seq<Input>): State
    decreases |h|
  {
    if h == [] then INIT else Step(mode, Run(mode, h[..|h| - 1]), h[|h| - 1])
  }

  lemma RunSnoc(mode: Mode, h: seq<Input>, i: Input)
    ensures Run(mode, h + [i]) == Step(mode, Run(mode, h), i)
  {
    assert (h + [i])[..|h|] == h;
  }

  // ---- the shape every reachable state has -------------------------------------------------

  ghost predicate Shape(mode: Mode, s: State) {
    && (s.open ==> s.buf != [])
    && (!s.open ==> s.audio == [])
    && (mode != Motion ==> !s.active)
    && (mode == Motion && !s.active ==> !s.open)
    && (!s.open && (mode == Motion ==> s.active) ==> s.buf == [])
    && (mode == Off ==> !s.open)
    && (forall k :: 0 <= k < |s.segs| ==> s.segs[k].frames != [])
  }

  lemma {:induction false} ShapeOfRuns(mode: Mode, h: seq<Input>)
    ensures Shape(mode, Run(mode, h))
    decreases |h|
  {
    if h != [] {
      ShapeOfRuns(mode, h[..|h| - 1]);
    }
  }

  // ---- segments are consecutive blocks of the input ----------------------------------------

  function NewFrames(i: Input): seq<Frame> {
    if i.Video? then [i.f] else []
  }

  /** All video frames handed in, in order. */
  function Frames(h: seq<Input>): (fs: seq<Frame>)
    decreases |h|
  {
    if h == [] then [] else Frames(h[..|h| - 1]) + NewFrames(h[|h| - 1])
  }

  /** The clock never runs back from frame to frame. */
  ghost predicate NeverBack(fs: seq<Frame>) {
    forall a, b :: 0 <= a <= b < |fs| ==> fs[a].ntp <= fs[b].ntp
  }

  /** `frames` is the block of `all` that starts at `first`. */
  ghost predicate Block(frames: seq<Frame>, first: nat, all: seq<Frame>) {
    && first + |frames| <= |all|
    && forall i :: 0 <= i < |frames| ==> frames[i] == all[first + i]
  }

  /** Disjoint blocks in input order, none beyond position `end`. */
  ghost predicate OrderedBlocks(segs: seq<Segment>, all: seq<Frame>, end: nat) {
    && (forall k :: 0 <= k < |segs| ==>
          Block(segs[k].frames, segs[k].first, all) && segs[k].first + |segs[k].frames| <= end)
    && (forall j, k :: 0 <= j < k < |segs| ==> segs[j].first + |segs[j].frames| <= segs[k].first)
  }

  /** Where the open segment or ring begins, if there is one. */
  function Front(s: State): nat {
    if s.buf == [] then s.seen else s.first
  }

  ghost predicate Blocks(s: State, all: seq<Frame>) {
    && s.seen == |all|
    && OrderedBlocks(s.segs, all, Front(s))
    && Block(s.buf, Front(s), all)
    && Front(s) + |s.buf| == |all|
  }

  lemma BlocksExtend(segs: seq<Segment>, all: seq<Frame>, end: nat, f: Frame, end': nat)
    requires OrderedBlocks(segs, all, end) && end <= end'
    ensures OrderedBlocks(segs, all + [f], end')
  {
  }

  lemma FlushKeepsBlocks(s: State, fallback: int, rotated: bool, all: seq<Frame>)
    requires Blocks(s, all)
    ensures Blocks(Flush(s, fallback, rotated), all)
  {
  }

  lemma PushKeepsBlocks(s: State, f: Frame, all: seq<Frame>)
    requires Blocks(s, all)
    ensures Blocks(Push(s, f).(seen := s.seen + 1), all + [f])
  {
    hide OrderedBlocks;
    hide Cut;
    var t := Push(s, f).(seen := s.seen + 1);
    BlocksExtend(s.segs, all, Front(s), f, Front(t));
  }

  lemma AppendKeepsBlocks(s: State, f: Frame, all: seq<Frame>)
    requires Blocks(s, all) && s.buf != []
    ensures Blocks(s.(buf := s.buf + [f], seen := s.seen + 1), all + [f])
  {
    hide OrderedBlocks;
    BlocksExtend(s.segs, all, Front(s), f, Front(s));
  }

  lemma OpenKeepsBlocks(s: State, f: Frame, all: seq<Frame>)
    requires Blocks(s, all) && s.buf == []
    ensures Blocks(s.(seen := s.seen + 1), all + [f])
    ensures Blocks(s.(open := true, buf := [f], first := s.seen, seen := s.seen + 1), all + [f])
  {
    hide OrderedBlocks;
    BlocksExtend(s.segs, all, |all|, f, |all| + 1);
    BlocksExtend(s.segs, all, |all|, f, |all|);
  }

  lemma FlushEmpties(s: State, fallback: int, rotated: bool)
    ensures var t := Flush(s, fallback, rotated);
      t.buf == [] && t.seen == s.seen && !t.open && t.rate == s.rate && t.active == s.active
  {
  }

  lemma VideoKeepsBlocks(mode: Mode, s: State, f: Frame, all: seq<Frame>)
    requires Shape(mode, s) && Blocks(s, all)
    ensures Blocks(StepVideo(mode, s, f).(seen := s.seen + 1), all + [f])
  {
    hide OrderedBlocks, Block, Push, Flush;
    if mode == Motion && !s.active {
      PushKeepsBlocks(s, f, all);
    } else if mode == Off || !s.open {
      OpenKeepsBlocks(s, f, all);
    } else if Due(s, f) {
      FlushKeepsBlocks(s, f.ntp, true, all);
      FlushEmpties(s, f.ntp, true);
      OpenKeepsBlocks(Flush(s, f.ntp, true), f, all);
    } else {
      AppendKeepsBlocks(s, f, all);
    }
  }

  lemma StepKeepsBlocks(mode: Mode, s: State, i: Input, all: seq<Frame>)
    requires Shape(mode, s) && Blocks(s, all)
    ensures Blocks(Step(mode, s, i), all + NewFrames(i))
  {
    hide OrderedBlocks, Block, StepVideo, Flush, Shape;
    if i.Video? {
      VideoKeepsBlocks(mode, s, i.f, all);
    } else {
      assert all + NewFrames(i) == all;
      if i.Window? || i.Shut? {
        FlushKeepsBlocks(s, i.now, false, all);
      }
    }
  }

  /** In every mode, over every run: each segment is a block of consecutive input frames, the
      blocks are disjoint and in order, and the open segment or ring is the newest block. */
  lemma {:induction false} SegmentsAreBlocks(mode: Mode, h: seq<Input>)
    ensures Blocks(Run(mode, h), Frames(h))
    decreases |h|
  {
    if h != [] {
      var g := h[..|h| - 1];
      SegmentsAreBlocks(mode, g);
      ShapeOfRuns(mode, g);
      StepKeepsBlocks(mode, Run(mode, g), h[|h| - 1], Frames(g));
    }
  }

  // ---- continuous mode: nothing is lost, cuts are where they should be ---------------------

  /** A segment is being recorded: some keyframe came in after the last Close. */
  predicate Recording(h: seq<Input>)
    decreases |h|
  {
    h != [] && match h[|h| - 1] {
      case Video(f) => f.sync || Recording(h[..|h| - 1])
      case Shut(_) => false
      case _ => Recording(h[..|h| - 1])
    }
  }

  /** The frames continuous mode owes: from the first keyframe after the start, or after each
      Close, onwards. */
  function Owed(h: seq<Input>): seq<Frame>
    decreases |h|
  {
    if h == [] then []
    else
      var g, i := h[..|h| - 1], h[|h| - 1];
      Owed(g) + if i.Video? && (i.f.sync || Recording(g)) then [i.f] else []
  }

  function RateAfter(h: seq<Input>): int
    decreases |h|
  {
    if h == [] then 0
    else match h[|h| - 1] { case AudioRate(r) => r case _ => RateAfter(h[..|h| - 1]) }
  }

  /** The audio owed: what arrives while recording with a non-zero audio rate. */
  function OwedAudio(h: seq<Input>): seq<AudioFrame>
    decreases |h|
  {
    if h == [] then []
    else
      var g, i := h[..|h| - 1], h[|h| - 1];
      OwedAudio(g) + if i.Audio? && Recording(g) && RateAfter(g) != 0 then [i.a] else []
  }

  function JoinFrames(segs: seq<Segment>): seq<Frame>
    decreases |segs|
  {
    if segs == [] then [] else JoinFrames(segs[..|segs| - 1]) + segs[|segs| - 1].frames
  }

  function JoinAudio(segs: seq<Segment>): seq<AudioFrame>
    decreases |segs|
  {
    if segs == [] then [] else JoinAudio(segs[..|segs| - 1]) + segs[|segs| - 1].audio
  }

  lemma JoinSnoc(segs: seq<Segment>, s: Segment)
    ensures JoinFrames(segs + [s]) == JoinFrames(segs) + s.frames
    ensures JoinAudio(segs + [s]) == JoinAudio(segs) + s.audio
  {
    assert (segs + [s])[..|segs|] == segs;
  }

  lemma JoinNone()
    ensures JoinFrames([]) == [] && JoinAudio([]) == []
  {
  }

  lemma FlushJoins(s: State, fallback: int, rotated: bool)
    requires Shape(Continuous, s)
    ensures var t := Flush(s, fallback, rotated);
      && JoinFrames(t.segs) + t.buf == JoinFrames(s.segs) + s.buf
      && JoinAudio(t.segs) + t.audio == JoinAudio(s.segs) + s.audio
  {
    if s.buf != [] {
      JoinSnoc(s.segs, Segment(s.buf, s.first, s.audio, s.rate, fallback, rotated));
    }
  }

  lemma ContinuousVideo(s: State, f: Frame)
    requires Shape(Continuous, s)
    ensures var t := StepVideo(Continuous, s, f);
      && JoinFrames(t.segs) + t.buf == JoinFrames(s.segs) + s.buf + (if f.sync || s.open then [f] else [])
      && JoinAudio(t.segs) + t.audio == JoinAudio(s.segs) + s.audio
      && t.open == (f.sync || s.open)
      && t.rate == s.rate
  {
    if s.open && Due(s, f) {
      FlushJoins(s, f.ntp, true);
    }
  }

  /** Over every run in continuous mode the finished segments, followed by the open one, hold
      exactly the frames and the audio owed: none lost, none repeated, none out of order. */
  lemma {:induction false} ContinuousLosesNothing(h: seq<Input>)
    ensures var s := Run(Continuous, h);
      && JoinFrames(s.segs) + s.buf == Owed(h)
      && JoinAudio(s.segs) + s.audio == OwedAudio(h)
      && s.open == Recording(h)
      && s.rate == RateAfter(h)
    decreases |h|
  {
    hide StepVideo, Flush, JoinFrames, JoinAudio;
    if h == [] {
      JoinNone();
    } else {
      var g, i := h[..|h| - 1], h[|h| - 1];
      ContinuousLosesNothing(g);
      ShapeOfRuns(Continuous, g);
      var s := Run(Continuous, g);
      match i
      case Video(f) => ContinuousVideo(s, f);
      case Shut(now) => FlushJoins(s, now, false); FlushEmpties(s, now, false);
      case Audio(a) => assert JoinAudio(s.segs) + (s.audio + [a]) == (JoinAudio(s.segs) + s.audio) + [a];
      case _ =>
    }
  }

  /** A segment that starts with a keyframe and was cut at the first keyframe at which it could be. */
  ghost predicate WellCut(frames: seq<Frame>) {
    && frames != [] && frames[0].sync
    && forall i :: 0 < i < |frames| && frames[i].sync ==> frames[i].ntp - frames[0].ntp < TARGET_SEGMENT
  }

  lemma {:induction false} ContinuousSegmentsAreWellCut(h: seq<Input>)
    ensures var s := Run(Continuous, h);
      && (forall k :: 0 <= k < |s.segs| ==> WellCut(s.segs[k].frames))
      && (s.open ==> WellCut(s.buf))
    decreases |h|
  {
    if h != [] {
      ContinuousSegmentsAreWellCut(h[..|h| - 1]);
      ShapeOfRuns(Continuous, h[..|h| - 1]);
    }
  }

  /** What comes after segment k: the next segment, or the open one. */
  function Following(s: State, k: nat): seq<Frame>
    requires k < |s.segs|
  {
    if k + 1 < |s.segs| then s.segs[k + 1].frames else s.buf
  }

  function FollowingFirst(s: State, k: nat): nat
    requires k < |s.segs|
  {
    if k + 1 < |s.segs| then s.segs[k + 1].first else s.first
  }

  /** `next` may follow a segment that starts with frame `start`: it opens with a keyframe at
      least the target duration later. */
  ghost predicate DueAfter(start: Frame, next: seq<Frame>) {
    next != [] && next[0].sync && next[0].ntp - start.ntp >= TARGET_SEGMENT
  }

  ghost predicate RotatedWell(s: State, k: nat)
    requires k < |s.segs|
  {
    s.segs[k].rotated && s.segs[k].frames != [] ==>
      && DueAfter(s.segs[k].frames[0], Following(s, k))
      && s.segs[k].fallback == Following(s, k)[0].ntp
      && FollowingFirst(s, k) == s.segs[k].first + |s.segs[k].frames|
  }

  ghost predicate Rotations(s: State) {
    && (forall k :: 0 <= k < |s.segs| ==> RotatedWell(s, k))
    && (s.segs != [] && s.segs[|s.segs| - 1].rotated ==> s.open)
  }

  lemma FlushKeepsRotations(s: State, fallback: int)
    requires Rotations(s) && s.open && s.buf != [] && s.first + |s.buf| == s.seen
    ensures Rotations(Flush(s, fallback, false))
  {
    var t := Flush(s, fallback, false);
    forall k | 0 <= k < |t.segs| ensures RotatedWell(t, k) {
      if k < |s.segs| {
        assert RotatedWell(s, k);
        assert Following(t, k) == Following(s, k);
      }
    }
  }

  lemma RotateKeepsRotations(s: State, f: Frame)
    requires Rotations(s) && s.open && Due(s, f) && s.first + |s.buf| == s.seen
    ensures Rotations(Flush(s, f.ntp, true).(open := true, buf := [f], first := s.seen))
  {
    var t := Flush(s, f.ntp, true).(open := true, buf := [f], first := s.seen);
    forall k | 0 <= k < |t.segs| ensures RotatedWell(t, k) {
      if k < |s.segs| {
        assert RotatedWell(s, k);
        assert Following(t, k) == Following(s, k);
      }
    }
  }

  lemma AppendKeepsRotations(s: State, f: Frame)
    requires Rotations(s) && s.buf != []
    ensures Rotations(s.(buf := s.buf + [f]))
  {
    var t := s.(buf := s.buf + [f]);
    forall k | 0 <= k < |t.segs| ensures RotatedWell(t, k) {
      assert RotatedWell(s, k);
    }
  }

  lemma UnrotatedEndFreesBuffer(s: State, t: State)
    requires Rotations(s) && t.segs == s.segs && (s.segs != [] ==> !s.segs[|s.segs| - 1].rotated)
    ensures Rotations(t)
  {
    forall k | 0 <= k < |t.segs| ensures RotatedWell(t, k) {
      assert RotatedWell(s, k);
    }
  }

  lemma RotatedWellReadsBufferAndSegments(s: State, t: State)
    requires Rotations(s)
    requires t.segs == s.segs && t.buf == s.buf && t.first == s.first && t.open == s.open
    ensures Rotations(t)
  {
    forall k | 0 <= k < |t.segs| ensures RotatedWell(t, k) {
      assert RotatedWell(s, k);
    }
  }

  lemma StepKeepsRotations(mode: Mode, s: State, i: Input)
    requires Shape(mode, s) && Rotations(s)
    requires s.buf != [] ==> s.first + |s.buf| == s.seen
    ensures Rotations(Step(mode, s, i))
  {
    hide RotatedWell, Flush;
    match i
    case Video(f) =>
      if !s.open {
        UnrotatedEndFreesBuffer(s, Step(mode, s, i));
      } else if Due(s, f) {
        RotateKeepsRotations(s, f);
        RotatedWellReadsBufferAndSegments(StepVideo(mode, s, f), Step(mode, s, i));
      } else {
        AppendKeepsRotations(s, f);
        RotatedWellReadsBufferAndSegments(StepVideo(mode, s, f), Step(mode, s, i));
      }
    case Window(on, now) =>
      if s.open && !on {
        FlushKeepsRotations(s, now);
        RotatedWellReadsBufferAndSegments(Flush(s, now, false), Flush(s, now, false).(active := false));
      } else if !s.open {
        UnrotatedEndFreesBuffer(s, Step(mode, s, i));
      }
    case Shut(now) =>
      if s.open {
        FlushKeepsRotations(s, now);
      }
    case Audio(_) => RotatedWellReadsBufferAndSegments(s, Step(mode, s, i));
    case AudioRate(_) => RotatedWellReadsBufferAndSegments(s, Step(mode, s, i));
  }

  /** In every mode a rotation happens only at a keyframe at least one second after the start of
      the segment, and the next segment begins with exactly that frame: no frame falls between. */
  lemma {:induction false} RotationsAreDue(mode: Mode, h: seq<Input>)
    ensures var s := Run(mode, h); forall k :: 0 <= k < |s.segs| ==> RotatedWell(s, k)
    ensures Rotations(Run(mode, h))
    decreases |h|
  {
    if h != [] {
      var g := h[..|h| - 1];
      RotationsAreDue(mode, g);
      ShapeOfRuns(mode, g);
      SegmentsAreBlocks(mode, g);
      StepKeepsRotations(mode, Run(mode, g), h[|h| - 1]);
    }
  }

  /** And a due keyframe does rotate, in every mode: the open segment is finished with the frames and audio it
      has, and the keyframe opens the next one. Any other frame only adds to it. */
  lemma DueFrameRotates(mode: Mode, h: seq<Input>, f: Frame)
    requires Run(mode, h).open
    ensures var s, t := Run(mode, h), Run(mode, h + [Video(f)]);
      && s.buf != [] && t.open
      && (if f.sync && f.ntp - s.buf[0].ntp >= TARGET_SEGMENT
          then t.buf == [f] && t.audio == []
               && t.segs == s.segs + [Segment(s.buf, s.first, s.audio, s.rate, f.ntp, true)]
          else t.buf == s.buf + [f] && t.audio == s.audio && t.segs == s.segs)
  {
    ShapeOfRuns(mode, h);
    RunSnoc(mode, h, Video(f));
    hide Run;
  }

  // ---- which segment audio goes to, and what ends one --------------------------------------

  /** The audio that comes in while segment k is open and there is an audio track. */
  function AudioOf(mode: Mode, h: seq<Input>, k: nat): seq<AudioFrame>
    decreases |h|
  {
    if h == [] then []
    else
      var g, i := h[..|h| - 1], h[|h| - 1];
      AudioOf(mode, g, k)
        + if i.Audio? && Run(mode, g).open && |Run(mode, g).segs| == k && RateAfter(g) != 0 then [i.a] else []
  }

  ghost predicate AudioSorted(mode: Mode, s: State, h: seq<Input>) {
    && s.rate == RateAfter(h)
    && (forall k :: 0 <= k < |s.segs| ==> s.segs[k].audio == AudioOf(mode, h, k))
    && s.audio == AudioOf(mode, h, |s.segs|)
    && (forall k {:trigger AudioOf(mode, h, k)} :: k > |s.segs| ==> AudioOf(mode, h, k) == [])
  }

  lemma AudioByStep(mode: Mode, s: State, h: seq<Input>, i: Input, h': seq<Input>)
    requires Shape(mode, s) && AudioSorted(mode, s, h)
    requires RateAfter(h') == if i.AudioRate? then i.rate else RateAfter(h)
    requires forall k: nat {:trigger AudioOf(mode, h', k)} ::
      AudioOf(mode, h', k) ==
        AudioOf(mode, h, k) + if i.Audio? && s.open && |s.segs| == k && RateAfter(h) != 0 then [i.a] else []
    ensures AudioSorted(mode, Step(mode, s, i), h')
  {
    hide AudioOf, RateAfter, Cut;
  }

  lemma AudioOfSnoc(mode: Mode, g: seq<Input>, i: Input, k: nat)
    ensures AudioOf(mode, g + [i], k) == AudioOf(mode, g, k)
      + if i.Audio? && Run(mode, g).open && |Run(mode, g).segs| == k && RateAfter(g) != 0 then [i.a] else []
    ensures RateAfter(g + [i]) == if i.AudioRate? then i.rate else RateAfter(g)
  {
    assert (g + [i])[..|g|] == g;
  }

  lemma NoRateAtFirst()
    ensures RateAfter([]) == INIT.rate
  {
  }

  /** In every mode and run each segment holds exactly the audio that came in while it was open. */
  lemma {:induction false} AudioGoesToTheOpenSegment(mode: Mode, h: seq<Input>)
    ensures var s := Run(mode, h);
      && (forall k :: 0 <= k < |s.segs| ==> s.segs[k].audio == AudioOf(mode, h, k))
      && s.audio == AudioOf(mode, h, |s.segs|)
    ensures AudioSorted(mode, Run(mode, h), h)
    decreases |h|
  {
    hide Step, RateAfter;
    if h == [] {
      NoRateAtFirst();
    } else {
      var g, i := h[..|h| - 1], h[|h| - 1];
      AudioGoesToTheOpenSegment(mode, g);
      ShapeOfRuns(mode, g);
      assert h == g + [i];
      AudioOfSnoc(mode, g, i, 0);
      forall k: nat {:trigger AudioOf(mode, h, k)}
        ensures AudioOf(mode, h, k) == AudioOf(mode, g, k)
          + if i.Audio? && Run(mode, g).open && |Run(mode, g).segs| == k && RateAfter(g) != 0 then [i.a] else []
      {
        AudioOfSnoc(mode, g, i, k);
      }
      AudioByStep(mode, Run(mode, g), g, i, h);
    }
  }

  // ---- continuous mode: the cut is the only one that meets the rules -----------------------

  ghost predicate DueAt(parts: seq<seq<Frame>>, k: nat)
    requires 0 < k < |parts|
  {
    parts[k - 1] != [] && DueAfter(parts[k - 1][0], parts[k])
  }

  ghost predicate Greedy(parts: seq<seq<Frame>>) {
    && (forall k :: 0 <= k < |parts| ==> WellCut(parts[k]))
    && (forall k :: 0 < k < |parts| ==> DueAt(parts, k))
  }

  function Join(parts: seq<seq<Frame>>): seq<Frame> {
    if parts == [] then [] else parts[0] + Join(parts[1..])
  }

  lemma TooLongIsNotWellCut(parts: seq<seq<Frame>>, part: seq<Frame>)
    requires parts != [] && Greedy(parts)
    requires |parts[0]| < |part| <= |Join(parts)| && part == Join(parts)[..|part|]
    ensures !WellCut(part)
  {
    var n := |parts[0]|;
    assert parts[1..][0] == parts[1];
    assert part[n] == Join(parts[1..])[0] == parts[1][0];
    assert part[0] == parts[0][0];
    assert DueAt(parts, 1);
  }

  lemma GreedyTail(parts: seq<seq<Frame>>)
    requires parts != [] && Greedy(parts)
    ensures Greedy(parts[1..])
    ensures parts[0] <= Join(parts) && Join(parts[1..]) == Join(parts)[|parts[0]|..]
    ensures Join(parts) != []
  {
    assert WellCut(parts[0]);
    forall k | 0 < k < |parts[1..]| ensures DueAt(parts[1..], k) {
      assert DueAt(parts, k + 1);
    }
  }

  /** Two ways of cutting the same frames under the rules are the same cut: every part starts
      with a keyframe, ends before the first keyframe that is due, and the next part starts there. */
  lemma {:induction false} CutIsUnique(a: seq<seq<Frame>>, b: seq<seq<Frame>>)
    requires Greedy(a) && Greedy(b) && Join(a) == Join(b)
    ensures a == b
    decreases |a|
  {
    if a == [] {
      if b != [] { GreedyTail(b); }
    } else {
      GreedyTail(a);
      GreedyTail(b);
      assert WellCut(a[0]) && WellCut(b[0]);
      if |a[0]| < |b[0]| {
        TooLongIsNotWellCut(a, b[0]);
        assert false;
      } else if |b[0]| < |a[0]| {
        TooLongIsNotWellCut(b, a[0]);
        assert false;
      } else {
        assert a[0] == b[0];
        CutIsUnique(a[1..], b[1..]);
        assert a == [a[0]] + a[1..] && b == [b[0]] + b[1..];
      }
    }
  }

  /** The frames of each finished segment. */
  function Finished(segs: seq<Segment>): (parts: seq<seq<Frame>>)
    ensures |parts| == |segs|
    ensures forall k :: 0 <= k < |parts| ==> parts[k] == segs[k].frames
  {
    seq(|segs|, k requires 0 <= k < |segs| => segs[k].frames)
  }

  /** The segments of a run, the open one last. */
  function Parts(s: State): seq<seq<Frame>> {
    Finished(s.segs) + if s.open then [s.buf] else []
  }

  lemma {:induction false} JoinAppend(parts: seq<seq<Frame>>, part: seq<Frame>)
    ensures Join(parts + [part]) == Join(parts) + part
    decreases |parts|
  {
    if parts != [] {
      JoinAppend(parts[1..], part);
      assert (parts + [part])[1..] == parts[1..] + [part];
      assert (parts + [part])[0] == parts[0];
    }
  }

  lemma {:induction false} JoinOfFinished(segs: seq<Segment>)
    ensures Join(Finished(segs)) == JoinFrames(segs)
    decreases |segs|
  {
    if segs != [] {
      var init, last := segs[..|segs| - 1], segs[|segs| - 1];
      JoinOfFinished(init);
      JoinAppend(Finished(init), last.frames);
      assert Finished(segs) == Finished(init) + [last.frames];
    }
  }

  ghost predicate AllRotated(segs: seq<Segment>) {
    forall k :: 0 <= k < |segs| ==> segs[k].rotated
  }

  lemma OnlyCloseEndsUnrotated(s: State, i: Input)
    requires !i.Shut? && AllRotated(s.segs)
    ensures AllRotated(Step(Continuous, s, i).segs)
  {
    if i.Video? {
      assert AllRotated(Flush(s, i.f.ntp, true).segs);
    }
  }

  ghost predicate NeverClosed(h: seq<Input>) {
    forall k :: 0 <= k < |h| ==> !h[k].Shut?
  }

  lemma {:induction false} OnlyRotationsWithoutClose(h: seq<Input>)
    requires NeverClosed(h)
    ensures AllRotated(Run(Continuous, h).segs)
    decreases |h|
  {
    if h != [] {
      OnlyRotationsWithoutClose(h[..|h| - 1]);
      OnlyCloseEndsUnrotated(Run(Continuous, h[..|h| - 1]), h[|h| - 1]);
    }
  }

  lemma PartsJoin(s: State)
    requires !s.open ==> s.buf == []
    ensures Join(Parts(s)) == JoinFrames(s.segs) + s.buf
  {
    JoinOfFinished(s.segs);
    if s.open {
      JoinAppend(Finished(s.segs), s.buf);
    } else {
      assert Parts(s) == Finished(s.segs);
    }
  }

  lemma WellCutIsNonempty(part: seq<Frame>)
    requires WellCut(part)
    ensures part != []
  {
  }

  lemma PartsAreGreedy(s: State)
    requires forall k :: 0 <= k < |s.segs| ==> WellCut(s.segs[k].frames)
    requires AllRotated(s.segs)
    requires s.open ==> WellCut(s.buf)
    requires Rotations(s)
    ensures Greedy(Parts(s))
  {
    hide WellCut, DueAfter;
    var parts := Parts(s);
    forall k | 0 < k < |parts| ensures DueAt(parts, k) {
      assert RotatedWell(s, k - 1);
      assert parts[k] == Following(s, k - 1);
      assert WellCut(parts[k - 1]);
      WellCutIsNonempty(parts[k - 1]);
    }
  }

  /** While the recorder is not closed, its segmentation of the frames owed is the one and only
      cut that meets the rules. */
  lemma ContinuousCutIsTheOnlyOne(h: seq<Input>, parts: seq<seq<Frame>>)
    requires NeverClosed(h)
    requires Greedy(parts) && Join(parts) == Owed(h)
    ensures parts == Parts(Run(Continuous, h))
  {
    hide Greedy, Join, Parts, JoinFrames, Owed, WellCut, Rotations, RotatedWell;
    var s := Run(Continuous, h);
    ContinuousLosesNothing(h);
    ContinuousSegmentsAreWellCut(h);
    RotationsAreDue(Continuous, h);
    OnlyRotationsWithoutClose(h);
    ShapeOfRuns(Continuous, h);
    PartsJoin(s);
    PartsAreGreedy(s);
    CutIsUnique(parts, Parts(s));
  }

  // ---- an open segment only grows until it is emitted --------------------------------------

  /** `buf` begins segment n of `t`, finished or still open. */
  ghost predicate Begins(buf: seq<Frame>, n: nat, t: State) {
    if n < |t.segs| then buf <= t.segs[n].frames
    else |t.segs| == n && t.open && buf <= t.buf
  }

  lemma StepKeepsBeginning(mode: Mode, buf: seq<Frame>, n: nat, t: State, i: Input)
    requires Shape(mode, t) && Begins(buf, n, t)
    ensures Begins(buf, n, Step(mode, t, i)) && t.segs <= Step(mode, t, i).segs
  {
  }

  /** The open segment of s comes out whole in t, and the finished segments stay as they are. */
  ghost predicate ComesOut(s: State, t: State) {
    s.segs <= t.segs && Begins(s.buf, |s.segs|, t)
  }

  lemma StepComesOut(mode: Mode, s: State, t: State, i: Input)
    requires Shape(mode, t) && ComesOut(s, t)
    ensures ComesOut(s, Step(mode, t, i))
  {
    hide Step, Begins;
    StepKeepsBeginning(mode, s.buf, |s.segs|, t, i);
  }

  lemma LastApart(h: seq<Input>, g: seq<Input>)
    requires g != []
    ensures h + g == h + g[..|g| - 1] + [g[|g| - 1]]
  {
  }

  /** Whatever is called next, an open segment comes out whole, as the beginning of the next
      segment, and the finished segments stay as they are. */
  lemma {:induction false} OpenSegmentComesOutWhole(mode: Mode, h: seq<Input>, g: seq<Input>)
    requires Run(mode, h).open
    ensures ComesOut(Run(mode, h), Run(mode, h + g))
    decreases |g|
  {
    if g == [] {
      assert h + g == h;
    } else {
      hide Run, Step, Begins, Shape, ComesOut;
      var g', i := g[..|g| - 1], g[|g| - 1];
      OpenSegmentComesOutWhole(mode, h, g');
      ShapeOfRuns(mode, h + g');
      RunSnoc(mode, h + g', i);
      StepComesOut(mode, Run(mode, h), Run(mode, h + g'), i);
      LastApart(h, g);
    }
  }
}
