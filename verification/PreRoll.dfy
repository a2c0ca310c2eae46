/** Motion mode: the pre-roll ring while the window is inactive, what activation makes of it, and which
    frames are recorded. */
module PreRoll {
  import opened Segmenter

  predicate WindowOn(h: seq<Input>)
    decreases |h|
  {
    h != [] && match h[|h| - 1] { case Window(on, _) => on case _ => WindowOn(h[..|h| - 1]) }
  }

  /** How many frames had come in when the present idle spell began. */
  function IdleSince(h: seq<Input>): nat
    decreases |h|
  {
    if h == [] then 0
    else
      var g, i := h[..|h| - 1], h[|h| - 1];
      if i.Window? && !i.on && WindowOn(g) then |Frames(g)| else IdleSince(g)
  }

  lemma {:induction false} WindowOfRuns(h: seq<Input>)
    ensures Run(Motion, h).active == WindowOn(h)
    decreases |h|
  {
    if h != [] {
      WindowOfRuns(h[..|h| - 1]);
    }
  }

  // ---- the ring, whatever the clock does ---------------------------------------------------

  /** When frame j came in, frames since to i were all at least the pre-roll old, the first of them
      older, and frame i is a keyframe to cut at. */
  ghost predicate Trimmable(all: seq<Frame>, since: nat, i: int, j: int) {
    && since < i <= j < |all| && all[i].sync
    && all[since].ntp < all[j].ntp - PRE_ROLL
    && forall m :: since <= m <= i ==> all[m].ntp <= all[j].ntp - PRE_ROLL
  }

  ghost predicate EverTrimmable(all: seq<Frame>, since: nat) {
    exists i, j :: Trimmable(all, since, i, j)
  }

  /** Frame j gives the trimming a keyframe to cut at. */
  ghost predicate TrimmableAt(all: seq<Frame>, since: nat, j: int) {
    exists i :: Trimmable(all, since, i, j)
  }

  /** The ring over the frames `all`, in an idle spell that began at frame `since`. */
  ghost predicate AnyRing(s: State, all: seq<Frame>, since: nat) {
    && since <= |all|
    && (s.buf == [] <==> since == |all|)
    && (s.buf != [] ==>
          && since <= s.first
          && (s.first > since <==> EverTrimmable(all, since))
          && (s.first > since ==> s.buf[0].sync))
  }

  lemma LeadingPast(buf: seq<Frame>, cutoff: int, i: nat)
    requires i < |buf| && forall m :: 0 <= m <= i ==> buf[m].ntp <= cutoff
    ensures LeadingOld(buf, cutoff) > i
  {
  }

  /** The cut drops something exactly when there is a keyframe to cut at. */
  lemma CutsWhenTrimmable(buf: seq<Frame>, lo: nat, fs: seq<Frame>)
    requires buf != [] && Block(buf, lo, fs) && lo + |buf| == |fs|
    ensures Cut(buf) > 0 <==> TrimmableAt(fs, lo, |fs| - 1)
  {
    var last := |fs| - 1;
    assert buf[|buf| - 1] == fs[lo + (|buf| - 1)] && buf[0] == fs[lo + 0];
    if Cut(buf) > 0 {
      forall m | lo <= m <= lo + Cut(buf) ensures fs[m].ntp <= fs[last].ntp - PRE_ROLL {
        assert buf[m - lo] == fs[lo + (m - lo)];
      }
      assert buf[Cut(buf)] == fs[lo + Cut(buf)];
      assert Trimmable(fs, lo, lo + Cut(buf), last);
    }
    if i :| Trimmable(fs, lo, i, last) {
      forall m | 0 <= m <= i - lo ensures buf[m].ntp <= fs[last].ntp - PRE_ROLL {
        assert buf[m] == fs[lo + m];
      }
      LeadingPast(buf, fs[last].ntp - PRE_ROLL, i - lo);
      assert buf[i - lo] == fs[lo + (i - lo)];
    }
  }

  lemma TrimmableExtends(all: seq<Frame>, f: Frame, since: nat)
    requires since < |all|
    ensures EverTrimmable(all + [f], since) <==>
      EverTrimmable(all, since) || TrimmableAt(all + [f], since, |all|)
  {
    var fs := all + [f];
    if i, j :| Trimmable(all, since, i, j) {
      assert Trimmable(fs, since, i, j);
    }
    if i, j :| Trimmable(fs, since, i, j) && j < |all| {
      forall m | since <= m <= i ensures all[m].ntp <= all[j].ntp - PRE_ROLL {
        assert all[m] == fs[m];
      }
      assert Trimmable(all, since, i, j);
    }
  }

  lemma FirstOfSpell(all: seq<Frame>, f: Frame)
    ensures !EverTrimmable(all + [f], |all|) && Cut([f]) == 0
  {
  }

  lemma PushKeepsAnyRing(s: State, f: Frame, all: seq<Frame>, since: nat)
    requires Blocks(s, all) && AnyRing(s, all, since)
    ensures AnyRing(Push(s, f), all + [f], since)
  {
    hide OrderedBlocks, Cut, Trimmable, EverTrimmable;
    var fs, buf, lo := all + [f], s.buf + [f], Front(s);
    assert Block(buf, lo, fs);
    CutsWhenTrimmable(buf, lo, fs);
    if s.buf == [] {
      FirstOfSpell(all, f);
    } else {
      TrimmableExtends(all, f, since);
    }
  }

  lemma {:induction false} AnyRingOfRuns(h: seq<Input>)
    requires !WindowOn(h)
    ensures AnyRing(Run(Motion, h), Frames(h), IdleSince(h))
    decreases |h|
  {
    if h != [] {
      var g, i := h[..|h| - 1], h[|h| - 1];
      WindowOfRuns(g);
      ShapeOfRuns(Motion, g);
      SegmentsAreBlocks(Motion, g);
      if i.Video? {
        AnyRingOfRuns(g);
        PushKeepsAnyRing(Run(Motion, g), i.f, Frames(g), IdleSince(g));
      } else {
        assert Frames(h) == Frames(g);
        if !WindowOn(g) {
          AnyRingOfRuns(g);
        }
      }
    }
  }

  /** The idle spell begins with a keyframe, or has given the trimming one to cut at. */
  ghost predicate Decodable(all: seq<Frame>, since: nat)
    requires since < |all|
  {
    all[since].sync || EverTrimmable(all, since)
  }

  /** Exactly when the ring starts with a keyframe, for every run and every clock. */
  lemma RingStartsDecodable(h: seq<Input>)
    requires !WindowOn(h)
    ensures Run(Motion, h).buf != [] <==> IdleSince(h) < |Frames(h)|
    ensures var s := Run(Motion, h);
      s.buf != [] ==> (s.buf[0].sync <==> Decodable(Frames(h), IdleSince(h)))
  {
    hide OrderedBlocks, Run, Frames, IdleSince, WindowOn, EverTrimmable;
    AnyRingOfRuns(h);
    SegmentsAreBlocks(Motion, h);
    var s := Run(Motion, h);
    if s.buf != [] {
      assert s.buf[0] == Frames(h)[s.first + 0];
    }
  }

  /** A later frame is at least the pre-roll newer than frame m. */
  ghost predicate Outlived(all: seq<Frame>, m: int) {
    exists j :: 0 <= m < j < |all| && all[m].ntp <= all[j].ntp - PRE_ROLL
  }

  ghost predicate DroppedOutlived(all: seq<Frame>, since: nat, first: nat) {
    forall m :: since <= m < first ==> Outlived(all, m)
  }

  lemma OutlivedStays(all: seq<Frame>, f: Frame, m: int)
    requires Outlived(all, m)
    ensures Outlived(all + [f], m)
  {
    var fs := all + [f];
    var j :| 0 <= m < j < |all| && all[m].ntp <= all[j].ntp - PRE_ROLL;
    assert fs[m].ntp <= fs[j].ntp - PRE_ROLL;
  }

  lemma OutlivedBy(fs: seq<Frame>, m: nat, j: nat)
    requires m < j < |fs| && fs[m].ntp <= fs[j].ntp - PRE_ROLL
    ensures Outlived(fs, m)
  {
  }

  lemma PushDropsOutlived(s: State, f: Frame, all: seq<Frame>, since: nat)
    requires Blocks(s, all) && (s.buf != [] ==> DroppedOutlived(all, since, s.first))
    requires s.buf == [] ==> since == |all|
    ensures DroppedOutlived(all + [f], since, Push(s, f).first)
  {
    hide OrderedBlocks, Outlived;
    var fs, buf, lo := all + [f], s.buf + [f], Front(s);
    assert Block(buf, lo, fs);
    forall m | since <= m < Push(s, f).first ensures Outlived(fs, m) {
      if m < lo {
        OutlivedStays(all, f, m);
      } else {
        assert buf[m - lo] == fs[lo + (m - lo)] && buf[|buf| - 1] == fs[|all|];
        OutlivedBy(fs, m, |all|);
      }
    }
  }

  lemma {:induction false} DropsOfRuns(h: seq<Input>)
    requires !WindowOn(h)
    ensures var s := Run(Motion, h); s.buf != [] ==> DroppedOutlived(Frames(h), IdleSince(h), s.first)
    decreases |h|
  {
    hide DroppedOutlived, Cut, OrderedBlocks;
    if h != [] {
      var g, i := h[..|h| - 1], h[|h| - 1];
      WindowOfRuns(g);
      ShapeOfRuns(Motion, g);
      SegmentsAreBlocks(Motion, g);
      if i.Video? {
        DropsOfRuns(g);
        AnyRingOfRuns(g);
        PushDropsOutlived(Run(Motion, g), i.f, Frames(g), IdleSince(g));
      } else {
        assert Frames(h) == Frames(g);
        if !WindowOn(g) {
          DropsOfRuns(g);
        }
      }
    }
  }

  /** For every run and every clock, a frame of the idle spell that no later frame outlived by the
      pre-roll is still in the ring. */
  lemma OnlyOutlivedFramesAreDropped(h: seq<Input>, i: nat)
    requires !WindowOn(h) && IdleSince(h) <= i < |Frames(h)| && !Outlived(Frames(h), i)
    ensures var s := Run(Motion, h);
      s.buf != [] && s.first <= i < s.first + |s.buf| && s.buf[i - s.first] == Frames(h)[i]
  {
    hide OrderedBlocks, Run, Frames, IdleSince, WindowOn, EverTrimmable, Outlived;
    AnyRingOfRuns(h);
    DropsOfRuns(h);
    SegmentsAreBlocks(Motion, h);
    var s := Run(Motion, h);
    assert i >= s.first;
    assert s.buf[i - s.first] == Frames(h)[s.first + (i - s.first)];
  }

  // ---- the ring when the clock never runs back ---------------------------------------------

  lemma NotOutlived(fs: seq<Frame>, i: nat)
    requires NeverBack(fs) && i < |fs| && fs[i].ntp > fs[|fs| - 1].ntp - PRE_ROLL
    ensures !Outlived(fs, i)
  {
  }

  /** So nothing newer than the newest frame minus the pre-roll is ever dropped, and a ring that has
      dropped something starts with a keyframe. */
  lemma TrimmingKeepsPreRoll(h: seq<Input>, i: nat)
    requires NeverBack(Frames(h)) && !WindowOn(h)
    requires IdleSince(h) <= i < |Frames(h)|
    requires Frames(h)[i].ntp > Frames(h)[|Frames(h)| - 1].ntp - PRE_ROLL
    ensures var s := Run(Motion, h);
      && s.first <= i < s.first + |s.buf|
      && s.buf[i - s.first] == Frames(h)[i]
      && (s.first > IdleSince(h) ==> s.buf[0].sync)
  {
    hide Run, Frames, IdleSince, WindowOn, EverTrimmable;
    AnyRingOfRuns(h);
    NotOutlived(Frames(h), i);
    OnlyOutlivedFramesAreDropped(h, i);
  }

  /** Some keyframe after the first frame of the spell is at least the pre-roll old, and that first
      frame is older than the pre-roll. */
  ghost predicate OldKeyframe(all: seq<Frame>, since: nat)
    requires since < |all|
  {
    var cutoff := all[|all| - 1].ntp - PRE_ROLL;
    all[since].ntp < cutoff && exists i :: since < i < |all| && all[i].sync && all[i].ntp <= cutoff
  }

  /** Then whether the trimming ever had a keyframe to cut at can be told from the newest frame. */
  lemma TrimmableIsOldKeyframe(all: seq<Frame>, since: nat)
    requires NeverBack(all) && since < |all|
    ensures EverTrimmable(all, since) <==> OldKeyframe(all, since)
  {
    var last := |all| - 1;
    if i, j :| Trimmable(all, since, i, j) {
      assert all[j].ntp <= all[last].ntp;
      assert all[i].ntp <= all[last].ntp - PRE_ROLL;
    }
    if OldKeyframe(all, since) {
      var i :| since < i < |all| && all[i].sync && all[i].ntp <= all[last].ntp - PRE_ROLL;
      forall m | since <= m <= i ensures all[m].ntp <= all[last].ntp - PRE_ROLL {
        assert all[m].ntp <= all[i].ntp;
      }
      assert Trimmable(all, since, i, last);
    }
  }

  /** The ring starts with a keyframe exactly when the idle spell began with one or holds another that
      is at least the pre-roll older than the newest frame. */
  lemma RingHeadIsKeyframe(h: seq<Input>)
    requires NeverBack(Frames(h)) && !WindowOn(h) && Run(Motion, h).buf != []
    ensures IdleSince(h) < |Frames(h)|
    ensures Run(Motion, h).buf[0].sync <==>
      Frames(h)[IdleSince(h)].sync || OldKeyframe(Frames(h), IdleSince(h))
  {
    RingStartsDecodable(h);
    TrimmableIsOldKeyframe(Frames(h), IdleSince(h));
  }

  /** `lo` is the newest keyframe that is at least the pre-roll older than the newest frame, or the
      first frame of the idle spell when there is none; a head that is not older than the pre-roll
      stays even if a keyframe of the very same time follows. */
  ghost predicate RingHead(all: seq<Frame>, since: nat, lo: nat) {
    && since <= lo < |all|
    && var cutoff := all[|all| - 1].ntp - PRE_ROLL;
    && (lo > since ==> all[lo].sync && all[lo].ntp <= cutoff)
    && (all[lo].ntp < cutoff ==> forall i :: lo < i < |all| && all[i].sync ==> all[i].ntp > cutoff)
  }

  ghost predicate Ring(s: State, all: seq<Frame>, since: nat) {
    && since <= |all|
    && (s.buf == [] <==> since == |all|)
    && (s.buf != [] ==> RingHead(all, since, s.first))
  }

  /** The ring itself, before it is placed among the inputs: cutting a block `buf` whose head is older
      than the pre-roll leaves no old keyframe behind the new head. */
  lemma CutLeavesNoOldKeyframe(buf: seq<Frame>, i: nat)
    requires buf != [] && NeverBack(buf)
    requires Cut(buf) < i < |buf| && buf[i].sync
    requires buf[0].ntp < buf[|buf| - 1].ntp - PRE_ROLL
    ensures buf[i].ntp > buf[|buf| - 1].ntp - PRE_ROLL
  {
    var n := LeadingOld(buf, buf[|buf| - 1].ntp - PRE_ROLL);
    if i >= n {
      assert buf[n].ntp <= buf[i].ntp;
    }
  }

  lemma BlockNeverBack(buf: seq<Frame>, lo: nat, all: seq<Frame>)
    requires Block(buf, lo, all) && NeverBack(all)
    ensures NeverBack(buf)
  {
    forall i, j | 0 <= i <= j < |buf| ensures buf[i].ntp <= buf[j].ntp {
      assert all[lo + i].ntp <= all[lo + j].ntp;
    }
  }

  /** Cutting the block that reaches to the newest frame finds the ring's head. */
  lemma CutFindsRingHead(buf: seq<Frame>, lo: nat, fs: seq<Frame>, since: nat)
    requires buf != [] && Block(buf, lo, fs) && lo + |buf| == |fs| && NeverBack(fs)
    requires since <= lo
    requires lo > since ==> fs[lo].sync && fs[lo].ntp <= fs[|fs| - 1].ntp - PRE_ROLL
    ensures RingHead(fs, since, lo + Cut(buf))
  {
    hide Cut;
    BlockNeverBack(buf, lo, fs);
    var cut, cutoff := Cut(buf), fs[|fs| - 1].ntp - PRE_ROLL;
    assert buf[|buf| - 1] == fs[lo + (|buf| - 1)];
    assert fs[lo + cut] == buf[cut] && buf[0].ntp <= buf[cut].ntp;
    if fs[lo + cut].ntp < cutoff {
      forall i | lo + cut < i < |fs| && fs[i].sync ensures fs[i].ntp > cutoff {
        assert buf[i - lo] == fs[lo + (i - lo)];
        CutLeavesNoOldKeyframe(buf, i - lo);
      }
    }
  }

  lemma OldHeadStaysOld(all: seq<Frame>, f: Frame, since: nat, lo: nat)
    requires NeverBack(all + [f]) && RingHead(all, since, lo) && lo > since
    ensures (all + [f])[lo].sync && (all + [f])[lo].ntp <= f.ntp - PRE_ROLL
  {
    var fs := all + [f];
    assert fs[lo] == all[lo] && fs[|all| - 1] == all[|all| - 1];
    assert fs[|all| - 1].ntp <= fs[|all|].ntp;
  }

  lemma RingHeadBounds(all: seq<Frame>, since: nat, lo: nat)
    requires RingHead(all, since, lo)
    ensures since <= lo < |all|
  {
  }

  lemma PushKeepsRing(s: State, f: Frame, all: seq<Frame>, since: nat)
    requires Blocks(s, all) && Ring(s, all, since) && NeverBack(all + [f])
    ensures Ring(Push(s, f), all + [f], since)
  {
    hide OrderedBlocks, Cut, NeverBack, RingHead;
    var fs, buf, lo := all + [f], s.buf + [f], Front(s);
    assert Block(buf, lo, fs);
    assert Push(s, f).first == lo + Cut(buf);
    if s.buf != [] {
      RingHeadBounds(all, since, lo);
    }
    if lo > since {
      OldHeadStaysOld(all, f, since, lo);
    }
    CutFindsRingHead(buf, lo, fs, since);
    RingHeadBounds(fs, since, lo + Cut(buf));
  }

  lemma NeverBackPrefix(fs: seq<Frame>, f: Frame)
    requires NeverBack(fs + [f])
    ensures NeverBack(fs)
  {
    forall i, j | 0 <= i <= j < |fs| ensures fs[i].ntp <= fs[j].ntp {
      assert (fs + [f])[i].ntp <= (fs + [f])[j].ntp;
    }
  }

  /** While the motion window is inactive the ring holds exactly the frames of the idle spell from
      its newest keyframe at or before latest - 10 s on (all of them when there is no such
      keyframe), for every interleaving of calls. */
  lemma {:induction false} MotionRing(h: seq<Input>)
    requires NeverBack(Frames(h)) && !WindowOn(h)
    ensures Ring(Run(Motion, h), Frames(h), IdleSince(h))
    decreases |h|
  {
    if h != [] {
      var g, i := h[..|h| - 1], h[|h| - 1];
      WindowOfRuns(g);
      ShapeOfRuns(Motion, g);
      SegmentsAreBlocks(Motion, g);
      if i.Video? {
        NeverBackPrefix(Frames(g), i.f);
        MotionRing(g);
        PushKeepsRing(Run(Motion, g), i.f, Frames(g), IdleSince(g));
      } else {
        assert Frames(h) == Frames(g);
        if !WindowOn(g) {
          MotionRing(g);
        }
      }
    }
  }

  /** When times strictly increase, no keyframe at or before the cutoff stays behind the head. */
  lemma NoOldKeyframeStays(h: seq<Input>, i: nat)
    requires NeverBack(Frames(h)) && !WindowOn(h) && Run(Motion, h).buf != []
    requires Run(Motion, h).first < i < |Frames(h)| && Frames(h)[i].sync
    requires Frames(h)[Run(Motion, h).first].ntp < Frames(h)[i].ntp
    ensures Frames(h)[i].ntp > Frames(h)[|Frames(h)| - 1].ntp - PRE_ROLL
  {
    MotionRing(h);
  }

  // ---- what activation does ----------------------------------------------------------------

  /** Activating the motion window makes the whole ring the start of the next segment. */
  lemma PreRollStartsNextSegment(h: seq<Input>, now: int, g: seq<Input>)
    requires !WindowOn(h) && Run(Motion, h).buf != []
    ensures ComesOut(Run(Motion, h), Run(Motion, h + [Window(true, now)] + g))
  {
    WindowOfRuns(h);
    RunSnoc(Motion, h, Window(true, now));
    OpenSegmentComesOutWhole(Motion, h + [Window(true, now)], g);
  }

  /** Input n opens the motion window on a ring that does not start with a keyframe, when k segments
      are finished. */
  ghost predicate AdoptsUndecodable(h: seq<Input>, n: nat, k: nat) {
    && n < |h| && h[n].Window? && h[n].on
    && var g := h[..n];
    && !WindowOn(g) && |Run(Motion, g).segs| == k
    && IdleSince(g) < |Frames(g)| && !Decodable(Frames(g), IdleSince(g))
  }

  ghost predicate EverAdopts(h: seq<Input>, k: nat) {
    exists n :: AdoptsUndecodable(h, n, k)
  }

  /** Segment k, finished or still open, does not start with a keyframe. */
  predicate StartsUndecodable(s: State, k: nat)
    requires s.open ==> s.buf != []
    requires forall j :: 0 <= j < |s.segs| ==> s.segs[j].frames != []
  {
    if k < |s.segs| then !s.segs[k].frames[0].sync else k == |s.segs| && s.open && !s.buf[0].sync
  }

  lemma AdoptsSnoc(g: seq<Input>, i: Input, k: nat)
    ensures EverAdopts(g + [i], k) <==> EverAdopts(g, k) || AdoptsUndecodable(g + [i], |g|, k)
  {
    hide Run, Frames, WindowOn, IdleSince, Decodable;
    var h := g + [i];
    forall n: nat | n < |g| ensures h[..n] == g[..n] && h[n] == g[n] {
    }
    if n: nat :| AdoptsUndecodable(g, n, k) {
      assert AdoptsUndecodable(h, n, k);
    }
    if n: nat :| AdoptsUndecodable(h, n, k) && n < |g| {
      assert AdoptsUndecodable(g, n, k);
    }
  }

  lemma StepStarts(s: State, i: Input, k: nat)
    requires Shape(Motion, s)
    ensures Shape(Motion, Step(Motion, s, i))
    ensures StartsUndecodable(Step(Motion, s, i), k) <==>
      || StartsUndecodable(s, k)
      || (i.Window? && i.on && !s.active && s.buf != [] && k == |s.segs| && !s.buf[0].sync)
  {
    hide Cut;
  }

  lemma NothingStarted(k: nat)
    ensures !StartsUndecodable(INIT, k) && !EverAdopts([], k)
  {
  }

  lemma AdoptsNow(g: seq<Input>, i: Input, k: nat)
    ensures AdoptsUndecodable(g + [i], |g|, k) <==>
      var s := Run(Motion, g);
      i.Window? && i.on && !s.active && s.buf != [] && k == |s.segs| && !s.buf[0].sync
  {
    hide Run, Frames, IdleSince, WindowOn, Decodable;
    WindowOfRuns(g);
    assert (g + [i])[..|g|] == g;
    if !WindowOn(g) {
      RingStartsDecodable(g);
    }
  }

  /** In motion mode, over every run: a segment starts without a keyframe exactly when it began by
      adopting a ring that did not start with one. */
  lemma {:induction false} UndecodableSegments(h: seq<Input>, k: nat)
    ensures Shape(Motion, Run(Motion, h))
    ensures StartsUndecodable(Run(Motion, h), k) <==> EverAdopts(h, k)
    decreases |h|
  {
    hide StartsUndecodable, Step, AdoptsUndecodable, Decodable;
    ShapeOfRuns(Motion, h);
    if h == [] {
      NothingStarted(k);
    } else {
      var g, i := h[..|h| - 1], h[|h| - 1];
      assert h == g + [i];
      UndecodableSegments(g, k);
      StepStarts(Run(Motion, g), i, k);
      AdoptsSnoc(g, i, k);
      WindowOfRuns(g);
      AdoptsNow(g, i, k);
    }
  }

  /** It happens: one frame that is no keyframe before motion is seen, and both the ring and the
      recorded segment start with it. */
  lemma UndecodableSegment(f: Frame, now: int, end: int)
    requires !f.sync
    ensures Run(Motion, [Video(f)]).buf == [f]
    ensures var s := Run(Motion, [Video(f), Window(true, now), Window(false, end)]);
      |s.segs| == 1 && s.segs[0].frames == [f] && !s.open
  {
    var h := [Video(f), Window(true, now), Window(false, end)];
    assert h[..2] == [Video(f), Window(true, now)] && h[..2][..1] == [Video(f)] && [Video(f)][..0] == [];
    assert Run(Motion, [Video(f)]) == Step(Motion, INIT, Video(f));
    assert Run(Motion, h[..2]) == Step(Motion, Run(Motion, [Video(f)]), Window(true, now));
    assert Run(Motion, h) == Step(Motion, Run(Motion, h[..2]), Window(false, end));
  }

  // ---- where motion mode cuts --------------------------------------------------------------

  /** How many frames of segment k came out of the ring. */
  function Adopted(h: seq<Input>, k: nat): nat
    decreases |h|
  {
    if h == [] then 0
    else
      var g, i := h[..|h| - 1], h[|h| - 1];
      if i.Window? && i.on && !WindowOn(g) && |Run(Motion, g).segs| == k then |Run(Motion, g).buf| else Adopted(g, k)
  }

  /** A segment whose first n frames came out of the ring, and that was cut at the first keyframe behind them
      at which it could be. Without any it starts with a keyframe. */
  ghost predicate WellCutBehind(frames: seq<Frame>, n: nat) {
    && frames != [] && n <= |frames| && (n == 0 ==> frames[0].sync)
    && forall i :: n <= i < |frames| && 0 < i && frames[i].sync ==> frames[i].ntp - frames[0].ntp < TARGET_SEGMENT
  }

  ghost predicate MotionCut(s: State, h: seq<Input>) {
    && (forall k :: 0 <= k < |s.segs| ==> WellCutBehind(s.segs[k].frames, Adopted(h, k)))
    && (s.open ==> WellCutBehind(s.buf, Adopted(h, |s.segs|)))
    && (!s.open ==> Adopted(h, |s.segs|) == 0)
    && (forall k {:trigger Adopted(h, k)} :: k > |s.segs| ==> Adopted(h, k) == 0)
  }

  lemma AdoptedSnoc(g: seq<Input>, i: Input, k: nat)
    ensures Adopted(g + [i], k) ==
      if i.Window? && i.on && !WindowOn(g) && |Run(Motion, g).segs| == k then |Run(Motion, g).buf| else Adopted(g, k)
  {
    assert (g + [i])[..|g|] == g;
  }

  /** A step that takes no ring over. */
  lemma CutByStep(s: State, h: seq<Input>, i: Input, h': seq<Input>)
    requires Shape(Motion, s) && MotionCut(s, h)
    requires !(i.Window? && i.on && !s.active)
    requires forall k: nat {:trigger Adopted(h', k)} :: Adopted(h', k) == Adopted(h, k)
    ensures MotionCut(Step(Motion, s, i), h')
  {
    hide Adopted, Cut;
  }

  lemma CutByAdoption(s: State, h: seq<Input>, now: int, h': seq<Input>)
    requires Shape(Motion, s) && MotionCut(s, h) && !s.active
    requires forall k: nat {:trigger Adopted(h', k)} ::
      Adopted(h', k) == if k == |s.segs| then |s.buf| else Adopted(h, k)
    ensures MotionCut(Step(Motion, s, Window(true, now)), h')
  {
    hide Adopted, Cut;
  }

  /** In every motion-mode run every segment is cut at the first keyframe, behind the frames it took over from
      the ring, that comes a second or more after its start. */
  lemma {:induction false} MotionSegmentsAreWellCut(h: seq<Input>)
    ensures var s := Run(Motion, h);
      && (forall k :: 0 <= k < |s.segs| ==> WellCutBehind(s.segs[k].frames, Adopted(h, k)))
      && (s.open ==> WellCutBehind(s.buf, Adopted(h, |s.segs|)))
    ensures MotionCut(Run(Motion, h), h)
    decreases |h|
  {
    hide WellCutBehind, Step;
    if h != [] {
      var g, i := h[..|h| - 1], h[|h| - 1];
      MotionSegmentsAreWellCut(g);
      ShapeOfRuns(Motion, g);
      WindowOfRuns(g);
      assert h == g + [i];
      forall k: nat {:trigger Adopted(h, k)}
        ensures Adopted(h, k) ==
          if i.Window? && i.on && !WindowOn(g) && |Run(Motion, g).segs| == k then |Run(Motion, g).buf|
          else Adopted(g, k)
      {
        AdoptedSnoc(g, i, k);
      }
      if i.Window? && i.on && !WindowOn(g) {
        CutByAdoption(Run(Motion, g), g, i.now, h);
      } else {
        CutByStep(Run(Motion, g), g, i, h);
      }
    }
  }

  // ---- what motion mode records ------------------------------------------------------------

  /** A segment is being recorded: the window is on, and since it opened or since the last Close a
      ring was adopted or a keyframe came in. */
  predicate RecordingMotion(h: seq<Input>)
    decreases |h|
  {
    h != [] && var g := h[..|h| - 1];
    match h[|h| - 1] {
      case Video(f) => WindowOn(g) && (f.sync || RecordingMotion(g))
      case Window(on, _) => on && if WindowOn(g) then RecordingMotion(g) else IdleSince(g) < |Frames(g)|
      case Shut(_) => false
      case _ => RecordingMotion(g)
    }
  }

  /** The frames motion mode owes: at each activation the ring, then every frame until the window closes
      or Close, after which it waits for the next keyframe. */
  function MotionOwed(h: seq<Input>): seq<Frame>
    decreases |h|
  {
    if h == [] then []
    else
      var g, i := h[..|h| - 1], h[|h| - 1];
      MotionOwed(g) +
      match i {
        case Video(f) => if WindowOn(g) && (f.sync || RecordingMotion(g)) then [f] else []
        case Window(on, _) => if on && !WindowOn(g) then Run(Motion, g).buf else []
        case _ => []
      }
  }

  /** The audio owed: what arrives while recording with a non-zero audio rate. */
  function MotionOwedAudio(h: seq<Input>): seq<AudioFrame>
    decreases |h|
  {
    if h == [] then []
    else
      var g, i := h[..|h| - 1], h[|h| - 1];
      MotionOwedAudio(g) + if i.Audio? && RecordingMotion(g) && RateAfter(g) != 0 then [i.a] else []
  }

  /** What a state has recorded: finished segments and the open one, without the ring. */
  function Recorded(s: State): seq<Frame> {
    JoinFrames(s.segs) + if s.open then s.buf else []
  }

  function RecordedAudio(s: State): seq<AudioFrame> {
    JoinAudio(s.segs) + s.audio
  }

  lemma FlushKeepsRecorded(s: State, fallback: int, rotated: bool)
    requires Shape(Motion, s) && s.open
    ensures Recorded(Flush(s, fallback, rotated)) == Recorded(s)
    ensures RecordedAudio(Flush(s, fallback, rotated)) == RecordedAudio(s)
  {
    JoinSnoc(s.segs, Segment(s.buf, s.first, s.audio, s.rate, fallback, rotated));
  }

  lemma MotionVideo(s: State, f: Frame)
    requires Shape(Motion, s)
    ensures var t := StepVideo(Motion, s, f);
      && Recorded(t) == Recorded(s) + (if s.active && (f.sync || s.open) then [f] else [])
      && RecordedAudio(t) == RecordedAudio(s)
      && t.open == (s.active && (f.sync || s.open)) && t.rate == s.rate
  {
    hide JoinFrames, JoinAudio, Cut;
    if s.open && Due(s, f) {
      FlushKeepsRecorded(s, f.ntp, true);
    }
  }

  lemma MotionWindow(s: State, on: bool, now: int)
    requires Shape(Motion, s)
    ensures var t := Step(Motion, s, Window(on, now));
      && Recorded(t) == Recorded(s) + (if on && !s.active then s.buf else [])
      && RecordedAudio(t) == RecordedAudio(s)
      && t.open == (on && if s.active then s.open else s.buf != []) && t.rate == s.rate
  {
    hide JoinFrames, JoinAudio;
    if s.open {
      FlushKeepsRecorded(s, now, false);
    }
  }

  lemma MotionShut(s: State, now: int)
    requires Shape(Motion, s)
    ensures var t := Step(Motion, s, Shut(now));
      Recorded(t) == Recorded(s) && RecordedAudio(t) == RecordedAudio(s) && !t.open && t.rate == s.rate
  {
    hide JoinFrames, JoinAudio;
    if s.open {
      FlushKeepsRecorded(s, now, false);
    }
  }

  lemma NothingRecorded()
    ensures Recorded(INIT) == [] && RecordedAudio(INIT) == []
  {
  }

  lemma SeenIsNotRecorded(s: State, n: nat)
    ensures Recorded(s.(seen := n)) == Recorded(s) && RecordedAudio(s.(seen := n)) == RecordedAudio(s)
  {
  }

  lemma RateIsNotRecorded(s: State, rate: int)
    ensures Recorded(s.(rate := rate)) == Recorded(s) && RecordedAudio(s.(rate := rate)) == RecordedAudio(s)
  {
  }

  lemma MotionAudio(s: State, a: AudioFrame)
    ensures var t := Step(Motion, s, Audio(a));
      && Recorded(t) == Recorded(s) && t.open == s.open && t.rate == s.rate
      && RecordedAudio(t) == RecordedAudio(s) + if s.open && s.rate != 0 then [a] else []
  {
  }

  /** Over every run in motion mode the finished segments, followed by the open one, hold exactly the
      frames owed and exactly the audio owed. */
  lemma {:induction false} MotionLosesNothing(h: seq<Input>)
    ensures var s := Run(Motion, h);
      Recorded(s) == MotionOwed(h) && RecordedAudio(s) == MotionOwedAudio(h)
      && s.open == RecordingMotion(h) && s.rate == RateAfter(h)
    decreases |h|
  {
    hide Recorded, RecordedAudio, StepVideo, Flush;
    if h == [] {
      NothingRecorded();
    } else {
      var g, i := h[..|h| - 1], h[|h| - 1];
      MotionLosesNothing(g);
      ShapeOfRuns(Motion, g);
      WindowOfRuns(g);
      var s := Run(Motion, g);
      match i
      case Video(f) =>
        MotionVideo(s, f);
        SeenIsNotRecorded(StepVideo(Motion, s, f), s.seen + 1);
      case Window(on, now) =>
        MotionWindow(s, on, now);
        if !WindowOn(g) {
          RingStartsDecodable(g);
        }
      case Shut(now) => MotionShut(s, now);
      case Audio(a) => MotionAudio(s, a);
      case AudioRate(rate) => RateIsNotRecorded(s, rate);
    }
  }
}
