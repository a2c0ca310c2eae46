/** Sample durations and presentation offsets of a recorded track (assignDurations of the
    recorder). PTS arithmetic is exact; the casts to uint32 and int32 are written out. */
module Durations {
  import opened MachineInts

  type Payload = seq<byte>

  /** One fMP4 sample. */
  datatype Sample = Sample(isNonSync: bool, payload: Payload, duration: int, ptsOffset: int)

  /** The duration of sample i: the step to the next PTS when it is positive, otherwise the
      duration of the sample before it, and 1 when there is none. */
  function Delta(pts: seq<int>, i: nat): int
    requires i < |pts|
    decreases i
  {
    if i + 1 < |pts| && pts[i + 1] > pts[i] then pts[i + 1] - pts[i]
    else if i == 0 then 1
    else Delta(pts, i - 1)
  }

  /** The decode time of sample i: the sum of the deltas before it. */
  function Dts(pts: seq<int>, i: nat): int
    requires i <= |pts|
    decreases i
  {
    if i == 0 then 0 else Dts(pts, i - 1) + Delta(pts, i - 1)
  }

  function Timed(s: Sample, pts: seq<int>, first: int, i: nat): Sample
    requires i < |pts|
  {
    s.(duration := ToUint32(Delta(pts, i)), ptsOffset := ToInt32(pts[i] - first - Dts(pts, i)))
  }

  /** All samples of a track with their times assigned. */
  function TimedTrack(samples: seq<Sample>, pts: seq<int>, first: int): (out: seq<Sample>)
    requires |samples| == |pts|
    ensures |out| == |samples|
  {
    seq(|samples|, i requires 0 <= i < |samples| => Timed(samples[i], pts, first, i))
  }

  method AssignDurations(samples: seq<Sample>, pts: seq<int>, firstPTS: int) returns (out: seq<Sample>)
    requires |samples| == |pts|
    ensures out == TimedTrack(samples, pts, firstPTS)
  {
    var prevDelta, dts := 1, 0;
    out := samples;
    for i := 0 to |samples|
      invariant |out| == |samples|
      invariant prevDelta == if i == 0 then 1 else Delta(pts, i - 1)
      invariant dts == Dts(pts, i)
      invariant forall j :: 0 <= j < i ==> out[j] == Timed(samples[j], pts, firstPTS, j)
      invariant forall j :: i <= j < |out| ==> out[j] == samples[j]
    {
      var delta;
      if i + 1 < |pts| {
        delta := pts[i + 1] - pts[i];
        if delta <= 0 {
          delta := prevDelta;
        }
      } else {
        delta := prevDelta;
      }
      prevDelta := delta;
      out := out[i := out[i].(duration := ToUint32(delta),
                              ptsOffset := ToInt32((pts[i] - firstPTS) - dts))];
      dts := dts + delta;
    }
  }

  /** The decode time a player reconstructs: the sum of the durations before sample i. */
  function SumDurations(track: seq<Sample>, i: nat): int
    requires i <= |track|
    decreases i
  {
    if i == 0 then 0 else SumDurations(track, i - 1) + track[i - 1].duration
  }

  /** Every duration and every offset fits the width the container gives it: uint32 and int32. */
  ghost predicate FitsContainer(pts: seq<int>, first: int) {
    && (forall i :: 0 <= i < |pts| ==> Delta(pts, i) < 0x1_0000_0000)
    && (forall i {:trigger Dts(pts, i)} :: 0 <= i < |pts| ==>
          -0x8000_0000 <= pts[i] - first - Dts(pts, i) < 0x8000_0000)
  }

  lemma {:induction false} DeltaPositive(pts: seq<int>, i: nat)
    requires i < |pts|
    ensures Delta(pts, i) >= 1
    decreases i
  {
    if i > 0 {
      DeltaPositive(pts, i - 1);
    }
  }

  /** The PTS grows from sample j to the next. */
  predicate Grows(pts: seq<int>, j: nat) {
    j + 1 < |pts| && pts[j + 1] > pts[j]
  }

  /** Sample j is the last one up to sample i from which the PTS grows. */
  ghost predicate LastGrowth(pts: seq<int>, i: nat, j: nat) {
    j <= i && Grows(pts, j) && forall m: nat :: j < m <= i ==> !Grows(pts, m)
  }

  ghost predicate NeverGrows(pts: seq<int>, i: nat) {
    forall j: nat :: j <= i ==> !Grows(pts, j)
  }

  lemma NoGrowthHere(pts: seq<int>, i: nat)
    requires i > 0 && !Grows(pts, i)
    ensures NeverGrows(pts, i) <==> NeverGrows(pts, i - 1)
    ensures forall j: nat :: LastGrowth(pts, i, j) <==> LastGrowth(pts, i - 1, j)
  {
    hide Grows;
  }

  lemma NoGrowthAtFirst(pts: seq<int>)
    requires !Grows(pts, 0)
    ensures NeverGrows(pts, 0) && forall j: nat :: !LastGrowth(pts, 0, j)
  {
    hide Grows;
  }

  lemma GrowthHere(pts: seq<int>, i: nat)
    requires Grows(pts, i)
    ensures !NeverGrows(pts, i) && LastGrowth(pts, i, i) && forall j: nat :: LastGrowth(pts, i, j) ==> j == i
  {
    hide Grows;
  }

  /** The step of a sample is the last growth up to it, and 1 before there is any: a repeated or an earlier PTS
      takes over the step before it, and so does the last sample. */
  lemma {:induction false} DeltaIsLastGrowth(pts: seq<int>, i: nat)
    requires i < |pts|
    ensures NeverGrows(pts, i) ==> Delta(pts, i) == 1
    ensures forall j: nat :: LastGrowth(pts, i, j) ==> j + 1 < |pts| && Delta(pts, i) == pts[j + 1] - pts[j]
    ensures NeverGrows(pts, i) || exists j: nat :: LastGrowth(pts, i, j)
    decreases i
  {
    hide NeverGrows, LastGrowth;
    if Grows(pts, i) {
      GrowthHere(pts, i);
    } else if i > 0 {
      NoGrowthHere(pts, i);
      DeltaIsLastGrowth(pts, i - 1);
      var before := i - 1;
      if j: nat :| LastGrowth(pts, before, j) {
        assert LastGrowth(pts, i, j);
      }
    } else {
      NoGrowthAtFirst(pts);
    }
  }

  lemma {:induction false} FittingSum(samples: seq<Sample>, pts: seq<int>, first: int, i: nat)
    requires |samples| == |pts| && FitsContainer(pts, first) && i <= |pts|
    ensures SumDurations(TimedTrack(samples, pts, first), i) == Dts(pts, i)
    decreases i
  {
    if i > 0 {
      FittingSum(samples, pts, first, i - 1);
      DeltaPositive(pts, i - 1);
    }
  }

  /** The law of the track: what a player adds up, plus the offset, is the original PTS relative
      to the first one, for any series that fits, with repeats and reordering included. */
  lemma {:induction false} PtsReconstructed(samples: seq<Sample>, pts: seq<int>, first: int, i: nat)
    requires |samples| == |pts| && i < |pts|
    requires FitsContainer(pts, first)
    ensures var track := TimedTrack(samples, pts, first);
      && SumDurations(track, i) + track[i].ptsOffset == pts[i] - first
      && track[i].duration > 0
  {
    FittingSum(samples, pts, first, i);
    DeltaPositive(pts, i);
  }

  /** Equality in the 32 bits the container stores. */
  predicate Same32(x: int, y: int) {
    (x - y) % 0x1_0000_0000 == 0
  }

  lemma {:induction false} SumModulo(samples: seq<Sample>, pts: seq<int>, first: int, i: nat)
    requires |samples| == |pts| && i <= |pts|
    ensures Same32(SumDurations(TimedTrack(samples, pts, first), i), Dts(pts, i))
    decreases i
  {
    if i > 0 {
      SumModulo(samples, pts, first, i - 1);
    }
  }

  /** Without any bound on the series the law still holds in the 32 bits the container stores:
      both casts lose only multiples of 2^32. */
  lemma {:induction false} PtsReconstructedModulo(samples: seq<Sample>, pts: seq<int>, first: int, i: nat)
    requires |samples| == |pts| && i < |pts|
    ensures var track := TimedTrack(samples, pts, first);
      Same32(SumDurations(track, i) + track[i].ptsOffset, pts[i] - first)
  {
    hide ToUint32, Delta, SumDurations;
    SumModulo(samples, pts, first, i);
  }

  /** A strictly increasing series from its own first PTS needs no offsets, and its durations
      telescope. */
  lemma {:induction false} IncreasingNeedsNoOffsets(samples: seq<Sample>, pts: seq<int>, i: nat)
    requires |samples| == |pts| && i < |pts|
    requires forall j {:trigger pts[j + 1]} :: 0 <= j < |pts| - 1 ==> 0 < pts[j + 1] - pts[j] < 0x1_0000_0000
    ensures var track := TimedTrack(samples, pts, pts[0]);
      && track[i].ptsOffset == 0
      && SumDurations(track, i) == Dts(pts, i) == pts[i] - pts[0]
  {
    if i > 0 {
      IncreasingNeedsNoOffsets(samples, pts, i - 1);
      var j := i - 1;
      assert 0 < pts[j + 1] - pts[j];
    }
  }
}
