/** Motion density per bucket, as the timeline computes it from segments and the event store from event
    spans. Times are nanoseconds; fractions are exact. */
module Density {
  import opened MachineInts

  datatype Span = Span(a: int, b: int)

  function Min(x: int, y: int): int {
    if x < y then x else y
  }

  function Max(x: int, y: int): int {
    if x > y then x else y
  }

  /** Nanoseconds that a span shares with [lo, hi). */
  function Overlap(s: Span, lo: int, hi: int): (r: nat) {
    Max(0, Min(s.b, hi) - Max(s.a, lo))
  }

  /** Start of bucket i. */
  function BucketStart(from: int, dur: int, i: int): int {
    from + i * dur
  }

  function InBucket(s: Span, from: int, dur: int, i: int): nat {
    Overlap(s, BucketStart(from, dur, i), BucketStart(from, dur, i + 1))
  }

  /** Nanoseconds of bucket i covered, each span counted. */
  function Total(spans: seq<Span>, from: int, dur: int, i: int): nat {
    if spans == [] then 0 else Total(spans[..|spans| - 1], from, dur, i) + InBucket(spans[|spans| - 1], from, dur, i)
  }

  function Fraction(x: int, dur: int): real
    requires dur > 0
  {
    x as real / dur as real
  }

  function Cap(x: real): real {
    if x > 1.0 then 1.0 else x
  }

  /** The density of a bucket: the summed overlaps as a fraction of the bucket, at most 1. */
  ghost predicate IsDensity(d: seq<real>, spans: seq<Span>, from: int, dur: int, buckets: nat) {
    dur > 0 && |d| == buckets && forall i :: 0 <= i < buckets ==> d[i] == Cap(Fraction(Total(spans, from, dur, i), dur))
  }

  // ---- arithmetic of buckets ---------------------------------------------------------------

  lemma BucketsAreOrdered(from: int, dur: int, i: int, j: int)
    requires dur > 0 && i <= j
    ensures BucketStart(from, dur, i) <= BucketStart(from, dur, j)
  {
    assert (j - i) * dur >= 0;
    assert j * dur == i * dur + (j - i) * dur;
  }

  /** Time t lies in bucket t / dur. */
  lemma BucketOf(from: int, dur: int, t: int)
    requires dur > 0 && t >= from
    ensures var i := TruncDiv(t - from, dur);
      i >= 0 && BucketStart(from, dur, i) <= t < BucketStart(from, dur, i + 1)
  {
    var x := t - from;
    var i := x / dur;
    assert x == i * dur + x % dur;
    assert (i + 1) * dur == i * dur + dur;
  }

  /** Buckets before the one a span starts in share nothing with it. */
  lemma NothingBefore(s: Span, from: int, dur: int, i: int)
    requires dur > 0 && s.a >= from && i < TruncDiv(s.a - from, dur)
    ensures InBucket(s, from, dur, i) == 0
  {
    BucketOf(from, dur, s.a);
    BucketsAreOrdered(from, dur, i + 1, TruncDiv(s.a - from, dur));
  }

  /** Nor do buckets after the one that holds its last nanosecond. */
  lemma NothingAfter(s: Span, from: int, dur: int, i: int)
    requires dur > 0 && i >= 0 && (s.b > from ==> i > TruncDiv(s.b - from - 1, dur))
    ensures InBucket(s, from, dur, i) == 0
  {
    if s.b > from {
      BucketOf(from, dur, s.b - 1);
      BucketsAreOrdered(from, dur, TruncDiv(s.b - from - 1, dur) + 1, i);
    } else {
      BucketsAreOrdered(from, dur, 0, i);
    }
  }

  /** The same for the bucket of the end itself, which may share nothing already. */
  lemma NothingAfterEnd(s: Span, from: int, dur: int, i: int)
    requires dur > 0 && i >= 0 && i > TruncDiv(s.b - from, dur)
    ensures InBucket(s, from, dur, i) == 0
  {
    if s.b > from {
      BucketOf(from, dur, s.b);
      BucketsAreOrdered(from, dur, TruncDiv(s.b - from, dur) + 1, i);
    } else {
      BucketsAreOrdered(from, dur, 0, i);
    }
  }

  lemma NegativeQuotient(x: int, dur: int)
    requires dur > 0 && x < 0
    ensures TruncDiv(x, dur) <= 0
  {
  }

  lemma NothingBeforeStart(s: Span, from: int, dur: int, i: int)
    requires dur > 0 && 0 <= i < TruncDiv(s.a - from, dur)
    ensures InBucket(s, from, dur, i) == 0
  {
    if s.a >= from {
      NothingBefore(s, from, dur, i);
    } else {
      NegativeQuotient(s.a - from, dur);
    }
  }

  lemma FractionAdds(x: int, y: int, dur: int)
    requires dur > 0
    ensures Fraction(x + y, dur) == Fraction(x, dur) + Fraction(y, dur)
  {
    var d := dur as real;
    assert (x as real + y as real) / d == x as real / d + y as real / d;
  }

  lemma FractionSign(x: nat, dur: int)
    requires dur > 0
    ensures Fraction(x, dur) >= 0.0 && (x == 0 ==> Fraction(x, dur) == 0.0)
  {
  }

  // ---- the timeline ------------------------------------------------------------------------

  datatype Segment = Segment(start: int, end: int, hasMotion: bool)

  datatype Densities = Values(values: seq<real>) | DivisionByZero

  function Clip(s: Segment, from: int, to: int): Span {
    Span(if s.start < from then from else s.start, if s.end > to then to else s.end)
  }

  /** The motion segments, clipped to the window. */
  function Clipped(segs: seq<Segment>, from: int, to: int): seq<Span> {
    if segs == [] then []
    else
      var s := segs[|segs| - 1];
      Clipped(segs[..|segs| - 1], from, to) + if s.hasMotion then [Clip(s, from, to)] else []
  }

  /** The same, whole. */
  function Whole(segs: seq<Segment>): seq<Span> {
    if segs == [] then []
    else
      var s := segs[|segs| - 1];
      Whole(segs[..|segs| - 1]) + if s.hasMotion then [Span(s.start, s.end)] else []
  }

  lemma TotalSnoc(spans: seq<Span>, s: Span, from: int, dur: int, i: int)
    ensures Total(spans + [s], from, dur, i) == Total(spans, from, dur, i) + InBucket(s, from, dur, i)
  {
    assert (spans + [s])[..|spans|] == spans;
  }

  lemma NothingAdded(segs: seq<Segment>, from: int, to: int)
    requires segs != [] && !segs[|segs| - 1].hasMotion
    ensures Clipped(segs, from, to) == Clipped(segs[..|segs| - 1], from, to) && Whole(segs) == Whole(segs[..|segs| - 1])
  {
  }

  /** Inside the window clipping makes no difference. */
  lemma {:induction false} ClippingIsHarmless(segs: seq<Segment>, from: int, to: int, dur: int, n: nat, i: nat)
    requires dur > 0 && n * dur <= to - from && i < n
    ensures Total(Clipped(segs, from, to), from, dur, i) == Total(Whole(segs), from, dur, i)
  {
    if segs != [] {
      var s := segs[|segs| - 1];
      ClippingIsHarmless(segs[..|segs| - 1], from, to, dur, n, i);
      if s.hasMotion {
        TotalSnoc(Clipped(segs[..|segs| - 1], from, to), Clip(s, from, to), from, dur, i);
        TotalSnoc(Whole(segs[..|segs| - 1]), Span(s.start, s.end), from, dur, i);
        BucketsAreOrdered(from, dur, 0, i);
        BucketsAreOrdered(from, dur, i + 1, n);
      } else {
        NothingAdded(segs, from, to);
      }
    }
  }

  /** Width of a bucket; a window that is empty or reversed counts as one second. */
  function BucketDur(from: int, to: int, buckets: nat): int
    requires buckets > 0
  {
    TruncDiv(if to - from <= 0 then 1_000_000_000 else to - from, buckets)
  }

  lemma OverlapOf(s: Span, from: int, dur: int, i: int, a: int, b: int)
    requires dur > 0
    requires a == Max(s.a, BucketStart(from, dur, i)) && b == Min(s.b, BucketStart(from, dur, i) + dur)
    ensures InBucket(s, from, dur, i) == if b > a then b - a else 0
    ensures Fraction(0, dur) == 0.0
  {
    assert (i + 1) * dur == i * dur + dur;
  }

  /** Adds one span to every bucket from first to last. */
  method AddSpan(density: array<real>, s: Span, from: int, dur: int)
    requires dur > 0 && s.a >= from
    modifies density
    ensures forall i :: 0 <= i < density.Length ==>
      density[i] == old(density[i]) + Fraction(InBucket(s, from, dur, i), dur)
  {
    var first := TruncDiv(s.a - from, dur);
    var last := TruncDiv(s.b - from - 1, dur);
    if last >= density.Length {
      last := density.Length - 1;
    }
    BucketOf(from, dur, s.a);
    forall i | 0 <= i < density.Length && !(first <= i <= last)
      ensures Fraction(InBucket(s, from, dur, i), dur) == 0.0
    {
      if i < first {
        NothingBefore(s, from, dur, i);
      } else {
        NothingAfter(s, from, dur, i);
      }
      FractionSign(InBucket(s, from, dur, i), dur);
    }
    hide InBucket, Fraction, TruncDiv;
    var i := first;
    while i <= last && i >= 0
      invariant first <= i
      invariant forall k :: 0 <= k < density.Length ==>
        density[k] == if first <= k < i then old(density[k]) + Fraction(InBucket(s, from, dur, k), dur)
                      else old(density[k])
    {
      var bs := BucketStart(from, dur, i);
      var be := bs + dur;
      var ovA := if bs > s.a then bs else s.a;
      var ovB := if be < s.b then be else s.b;
      OverlapOf(s, from, dur, i, ovA, ovB);
      if ovB > ovA {
        density[i] := density[i] + Fraction(ovB - ovA, dur);
      }
      i := i + 1;
    }
  }

  ghost predicate Uncapped(d: seq<real>, spans: seq<Span>, from: int, dur: int)
    requires dur > 0
  {
    forall i :: 0 <= i < |d| ==> d[i] == Fraction(Total(spans, from, dur, i), dur)
  }

  lemma StartsEmpty(d: seq<real>, from: int, dur: int)
    requires dur > 0 && forall i :: 0 <= i < |d| ==> d[i] == 0.0
    ensures Uncapped(d, [], from, dur)
  {
    FractionSign(0, dur);
  }

  lemma OneMore(d: seq<real>, e: seq<real>, spans: seq<Span>, s: Span, from: int, dur: int)
    requires dur > 0 && |d| == |e| && Uncapped(d, spans, from, dur)
    requires forall i :: 0 <= i < |d| ==> e[i] == d[i] + Fraction(InBucket(s, from, dur, i), dur)
    ensures Uncapped(e, spans + [s], from, dur)
  {
    hide Fraction, InBucket;
    forall i | 0 <= i < |e| ensures e[i] == Fraction(Total(spans + [s], from, dur, i), dur) {
      TotalSnoc(spans, s, from, dur, i);
      FractionAdds(Total(spans, from, dur, i), InBucket(s, from, dur, i), dur);
    }
  }

  method AddSegments(density: array<real>, segs: seq<Segment>, from: int, to: int, dur: int)
    requires dur > 0 && forall i :: 0 <= i < density.Length ==> density[i] == 0.0
    modifies density
    ensures Uncapped(density[..], Clipped(segs, from, to), from, dur)
  {
    hide InBucket, Fraction;
    var n := 0;
    StartsEmpty(density[..], from, dur);
    while n < |segs|
      invariant 0 <= n <= |segs|
      invariant Uncapped(density[..], Clipped(segs[..n], from, to), from, dur)
    {
      var seg := segs[n];
      assert segs[..n + 1][..n] == segs[..n];
      if seg.hasMotion {
        var s := Clip(seg, from, to);
        ghost var before := density[..];
        AddSpan(density, s, from, dur);
        OneMore(before, density[..], Clipped(segs[..n], from, to), s, from, dur);
      } else {
        NothingAdded(segs[..n + 1], from, to);
      }
      n := n + 1;
    }
    assert segs[..|segs|] == segs;
  }

  method CapAll(density: array<real>)
    modifies density
    ensures forall i :: 0 <= i < density.Length ==> density[i] == Cap(old(density[i]))
  {
    var i := 0;
    while i < density.Length
      invariant 0 <= i <= density.Length
      invariant forall k :: 0 <= k < density.Length ==>
        density[k] == if k < i then Cap(old(density[k])) else old(density[k])
    {
      if density[i] > 1.0 {
        density[i] := 1.0;
      }
      i := i + 1;
    }
  }

  /** Only a window shorter than its buckets are many leaves them no width. */
  lemma DurIsPositive(from: int, to: int, buckets: nat)
    requires 0 < buckets
    ensures BucketDur(from, to, buckets) >= 0
    ensures to > from || buckets <= 2000 ==> (BucketDur(from, to, buckets) == 0 <==> 0 < to - from < buckets)
  {
    var span := if to - from <= 0 then 1_000_000_000 else to - from;
    var q := span / buckets;
    assert span == q * buckets + span % buckets;
    if q >= 1 {
      assert q * buckets >= buckets;
    }
  }

  lemma WholeBuckets(from: int, to: int, buckets: nat)
    requires buckets > 0 && to - from >= buckets
    ensures buckets * BucketDur(from, to, buckets) <= to - from
  {
    var q := (to - from) / buckets;
    assert to - from == q * buckets + (to - from) % buckets;
  }

  lemma {:induction false} NothingInReversedWindow(segs: seq<Segment>, from: int, to: int, dur: int, i: nat)
    requires dur > 0 && to <= from
    ensures Total(Clipped(segs, from, to), from, dur, i) == 0
  {
    if segs != [] {
      var s := segs[|segs| - 1];
      NothingInReversedWindow(segs[..|segs| - 1], from, to, dur, i);
      if s.hasMotion {
        TotalSnoc(Clipped(segs[..|segs| - 1], from, to), Clip(s, from, to), from, dur, i);
        BucketsAreOrdered(from, dur, 0, i);
      } else {
        NothingAdded(segs, from, to);
      }
    }
  }

  /** The density row of the timeline response. A window shorter than its buckets are many leaves them
      no width, and the first motion segment then divides by zero. */
  method Timeline(segs: seq<Segment>, from: int, to: int, buckets: nat) returns (r: Densities)
    requires 0 < buckets <= 2000
    ensures r.DivisionByZero? <==> 0 < to - from < buckets && exists k :: 0 <= k < |segs| && segs[k].hasMotion
    ensures r.Values? && to - from >= buckets ==>
      IsDensity(r.values, Whole(segs), from, BucketDur(from, to, buckets), buckets)
    ensures r.Values? && to - from < buckets ==>
      |r.values| == buckets && forall i :: 0 <= i < buckets ==> r.values[i] == 0.0
  {
    var density := new real[buckets](_ => 0.0);
    var dur := BucketDur(from, to, buckets);
    DurIsPositive(from, to, buckets);
    if dur == 0 {
      if exists k :: 0 <= k < |segs| && segs[k].hasMotion {
        return DivisionByZero;
      }
      return Values(density[..]);
    }
    AddSegments(density, segs, from, to, dur);
    ghost var raw := density[..];
    CapAll(density);
    r := Values(density[..]);
    if to - from >= buckets {
      WholeBuckets(from, to, buckets);
      forall k | 0 <= k < buckets ensures r.values[k] == Cap(Fraction(Total(Whole(segs), from, dur, k), dur)) {
        ClippingIsHarmless(segs, from, to, dur, buckets, k);
        assert raw[k] == Fraction(Total(Clipped(segs, from, to), from, dur, k), dur);
      }
    } else {
      forall k | 0 <= k < buckets ensures r.values[k] == 0.0 {
        NothingInReversedWindow(segs, from, to, dur, k);
        FractionSign(0, dur);
        assert raw[k] == Fraction(Total(Clipped(segs, from, to), from, dur, k), dur);
      }
    }
  }

  /** The buckets fill the window up to less than a nanosecond each. */
  lemma BucketsFillTheWindow(from: int, to: int, buckets: nat)
    requires buckets > 0 && to > from
    ensures to - buckets < BucketStart(from, BucketDur(from, to, buckets), buckets) <= to
  {
    var q := (to - from) / buckets;
    assert to - from == q * buckets + (to - from) % buckets;
  }

  lemma {:induction false} TotalHolds(spans: seq<Span>, from: int, dur: int, i: int, k: nat)
    requires k < |spans|
    ensures Total(spans, from, dur, i) >= InBucket(spans[k], from, dur, i)
  {
    if k < |spans| - 1 {
      TotalHolds(spans[..|spans| - 1], from, dur, i, k);
    }
  }

  lemma FractionAtLeastOne(x: nat, dur: int)
    requires x >= dur > 0
    ensures Fraction(x, dur) >= 1.0
  {
  }

  lemma FractionIsZero(x: nat, dur: int)
    requires dur > 0
    ensures Fraction(x, dur) == 0.0 <==> x == 0
  {
    if x > 0 {
      assert Fraction(x, dur) * dur as real == x as real;
    }
  }

  lemma {:induction false} NoneIsZero(spans: seq<Span>, from: int, dur: int, i: int)
    ensures (forall k :: 0 <= k < |spans| ==> InBucket(spans[k], from, dur, i) == 0)
            <==> Total(spans, from, dur, i) == 0
  {
    hide InBucket;
    if spans != [] {
      var init := spans[..|spans| - 1];
      NoneIsZero(init, from, dur, i);
      assert spans == init + [spans[|spans| - 1]];
    }
  }

  /** A bucket inside one of the spans has density 1, one that no span meets has none. */
  lemma FullIsOneAndEmptyIsNone(d: seq<real>, spans: seq<Span>, from: int, dur: int, buckets: nat, i: nat)
    requires IsDensity(d, spans, from, dur, buckets) && i < buckets
    ensures (exists k :: 0 <= k < |spans| && spans[k].a <= BucketStart(from, dur, i)
                         && BucketStart(from, dur, i + 1) <= spans[k].b) ==> d[i] == 1.0
    ensures (forall k :: 0 <= k < |spans| ==> InBucket(spans[k], from, dur, i) == 0) <==> d[i] == 0.0
  {
    var x := Total(spans, from, dur, i);
    assert d[i] == Cap(Fraction(x, dur));
    if k :| 0 <= k < |spans| && spans[k].a <= BucketStart(from, dur, i)
            && BucketStart(from, dur, i + 1) <= spans[k].b {
      assert (i + 1) * dur == i * dur + dur;
      TotalHolds(spans, from, dur, i, k);
      FractionAtLeastOne(x, dur);
    }
    NoneIsZero(spans, from, dur, i);
    FractionIsZero(x, dur);
  }

  lemma {:induction false} WholeHasEach(segs: seq<Segment>, k: nat)
    requires k < |segs| && segs[k].hasMotion
    ensures Span(segs[k].start, segs[k].end) in Whole(segs)
  {
    if k < |segs| - 1 {
      WholeHasEach(segs[..|segs| - 1], k);
    }
  }

  lemma {:induction false} WholeHasOnly(segs: seq<Segment>, s: Span)
    requires s in Whole(segs)
    ensures exists k :: 0 <= k < |segs| && segs[k].hasMotion && s == Span(segs[k].start, segs[k].end)
  {
    var n := |segs| - 1;
    if s in Whole(segs[..n]) {
      WholeHasOnly(segs[..n], s);
      var k :| 0 <= k < n && segs[..n][k].hasMotion && s == Span(segs[..n][k].start, segs[..n][k].end);
      assert segs[k] == segs[..n][k];
    } else {
      assert segs[n].hasMotion && s == Span(segs[n].start, segs[n].end);
    }
  }

  /** The timeline shows 1 in a bucket inside a motion segment, and nothing exactly in those that no motion segment
      meets. */
  lemma MotionShows(d: seq<real>, segs: seq<Segment>, from: int, dur: int, buckets: nat, i: nat)
    requires IsDensity(d, Whole(segs), from, dur, buckets) && i < buckets
    ensures (exists k :: 0 <= k < |segs| && segs[k].hasMotion && segs[k].start <= BucketStart(from, dur, i)
                         && BucketStart(from, dur, i + 1) <= segs[k].end) ==> d[i] == 1.0
    ensures (forall k :: 0 <= k < |segs| && segs[k].hasMotion ==>
               Overlap(Span(segs[k].start, segs[k].end), BucketStart(from, dur, i), BucketStart(from, dur, i + 1)) == 0)
            <==> d[i] == 0.0
  {
    hide IsDensity, Whole, Overlap, BucketStart;
    var spans := Whole(segs);
    FullIsOneAndEmptyIsNone(d, spans, from, dur, buckets, i);
    if k :| 0 <= k < |segs| && segs[k].hasMotion && segs[k].start <= BucketStart(from, dur, i)
            && BucketStart(from, dur, i + 1) <= segs[k].end {
      WholeHasEach(segs, k);
      var m :| 0 <= m < |spans| && spans[m] == Span(segs[k].start, segs[k].end);
    }
    forall k | 0 <= k < |segs| && segs[k].hasMotion ensures Span(segs[k].start, segs[k].end) in spans {
      WholeHasEach(segs, k);
    }
    forall m | 0 <= m < |spans|
      ensures exists k :: 0 <= k < |segs| && segs[k].hasMotion && spans[m] == Span(segs[k].start, segs[k].end)
    {
      WholeHasOnly(segs, spans[m]);
    }
  }

  // ---- the event store ---------------------------------------------------------------------

  /** Adding to a capped sum and capping again is capping the whole sum. */
  lemma CapTwice(x: real, y: real)
    requires y >= 0.0
    ensures Cap(Cap(x) + y) == Cap(x + y)
  {
  }

  /** Adds one event span to its buckets, never above 1. */
  method AddCapped(out: array<real>, s: Span, from: int, dur: int)
    requires dur > 0
    modifies out
    ensures forall i :: 0 <= i < out.Length ==>
      out[i] == if InBucket(s, from, dur, i) > 0 then Cap(old(out[i]) + Fraction(InBucket(s, from, dur, i), dur))
                else old(out[i])
  {
    var lo := TruncDiv(s.a - from, dur);
    var hi := TruncDiv(s.b - from, dur);
    if hi >= out.Length {
      hi := out.Length - 1;
    }
    forall i | 0 <= i < out.Length && !(lo <= i <= hi) ensures InBucket(s, from, dur, i) == 0 {
      if i < lo {
        NothingBeforeStart(s, from, dur, i);
      } else {
        NothingAfterEnd(s, from, dur, i);
      }
    }
    hide InBucket, Fraction, TruncDiv, Cap;
    var start := Max(lo, 0);
    var i := start;
    while i <= hi
      invariant start <= i
      invariant forall k :: 0 <= k < out.Length ==>
        out[k] == if start <= k < i && InBucket(s, from, dur, k) > 0
                  then Cap(old(out[k]) + Fraction(InBucket(s, from, dur, k), dur)) else old(out[k])
    {
      var bs := BucketStart(from, dur, i);
      var ovA, ovB := Max(s.a, bs), Min(s.b, bs + dur);
      OverlapOf(s, from, dur, i, ovA, ovB);
      if ovB - ovA > 0 {
        out[i] := Cap(out[i] + Fraction(ovB - ovA, dur));
      }
      i := i + 1;
    }
  }

  /** The buckets asked for, 200 when none are. */
  function Buckets(n: int): nat {
    if n <= 0 then 200 else n
  }

  /** Per-bucket motion intensity of event spans. */
  method EventDensity(spans: seq<Span>, from: int, to: int, asked: int) returns (r: Densities)
    ensures r.DivisionByZero? <==> 0 < to - from < Buckets(asked) && spans != []
    ensures r.Values? ==> |r.values| == if asked <= 0 then 200 else asked
    ensures r.Values? && to - from >= Buckets(asked) ==>
      IsDensity(r.values, spans, from, TruncDiv(to - from, Buckets(asked)), Buckets(asked))
    ensures r.Values? && to - from < Buckets(asked) ==>
      |r.values| == Buckets(asked) && forall i :: 0 <= i < |r.values| ==> r.values[i] == 0.0
  {
    var buckets := Buckets(asked);
    var out := new real[buckets](_ => 0.0);
    var total := to - from;
    if total <= 0 {
      return Values(out[..]);
    }
    var dur := TruncDiv(total, buckets);
    DurIsPositive(from, to, buckets);
    if dur == 0 {
      if spans != [] {
        return DivisionByZero;
      }
      return Values(out[..]);
    }
    var n := 0;
    while n < |spans|
      invariant 0 <= n <= |spans|
      invariant forall i :: 0 <= i < buckets ==> out[i] == Cap(Fraction(Total(spans[..n], from, dur, i), dur))
    {
      assert spans[..n + 1][..n] == spans[..n];
      ghost var before := out[..];
      AddCapped(out, spans[n], from, dur);
      forall i | 0 <= i < buckets
        ensures out[i] == Cap(Fraction(Total(spans[..n + 1], from, dur, i), dur))
      {
        var x, y := Total(spans[..n], from, dur, i), InBucket(spans[n], from, dur, i);
        assert before[i] == Cap(Fraction(x, dur));
        FractionAdds(x, y, dur);
        FractionSign(y, dur);
        CapTwice(Fraction(x, dur), Fraction(y, dur));
      }
      n := n + 1;
    }
    assert spans[..|spans|] == spans;
    r := Values(out[..]);
  }

  // ---- conservation ------------------------------------------------------------------------

  /** The nanoseconds a span shares with the first n buckets, one bucket at a time. */
  function SumOverBuckets(s: Span, from: int, dur: int, n: nat): nat {
    if n == 0 then 0 else SumOverBuckets(s, from, dur, n - 1) + InBucket(s, from, dur, n - 1)
  }

  /** Nothing is lost or counted twice between buckets: before the cap, the overlaps of a span add up to
      its length inside the buckets' range. */
  lemma {:induction false} OverlapsAreConserved(s: Span, from: int, dur: int, n: nat)
    requires dur > 0
    ensures SumOverBuckets(s, from, dur, n) == Overlap(s, from, BucketStart(from, dur, n))
  {
    if n > 0 {
      OverlapsAreConserved(s, from, dur, n - 1);
      BucketsAreOrdered(from, dur, 0, n - 1);
      BucketsAreOrdered(from, dur, n - 1, n);
    }
  }
}
