/** The coverage mask of the timeline: recorded ranges, merged. Instants are reals and ranges closed. */
module Coverage {
  datatype Range = Range(start: real, end: real)

  /** One segment against the ranges so far. */
  function Extend(out: seq<Range>, s: Range): seq<Range> {
    if out != [] && s.start <= out[|out| - 1].end then
      if s.end > out[|out| - 1].end then out[|out| - 1 := out[|out| - 1].(end := s.end)] else out
    else out + [s]
  }

  function Merged(segs: seq<Range>): seq<Range> {
    if segs == [] then [] else Extend(Merged(segs[..|segs| - 1]), segs[|segs| - 1])
  }

  // ---- what merging is for -----------------------------------------------------------------

  ghost predicate Proper(rs: seq<Range>) {
    forall i :: 0 <= i < |rs| ==> rs[i].start <= rs[i].end
  }

  /** As the index returns them: by start, none ending before it starts. */
  ghost predicate FromQuery(segs: seq<Range>) {
    Proper(segs) && forall i, j :: 0 <= i < j < |segs| ==> segs[i].start <= segs[j].start
  }

  /** In order, with a strict gap between neighbours. */
  ghost predicate Canonical(rs: seq<Range>) {
    Proper(rs) && forall i, j :: 0 <= i < j < |rs| ==> rs[i].end < rs[j].start
  }

  predicate Contains(r: Range, t: real) {
    r.start <= t <= r.end
  }

  ghost predicate Covered(rs: seq<Range>, t: real) {
    exists i :: 0 <= i < |rs| && Contains(rs[i], t)
  }

  lemma CoveredSnoc(rs: seq<Range>, r: Range, t: real)
    ensures Covered(rs + [r], t) <==> Covered(rs, t) || Contains(r, t)
  {
    var all := rs + [r];
    if Covered(rs, t) {
      var i :| 0 <= i < |rs| && Contains(rs[i], t);
      assert Contains(all[i], t);
    }
    if Contains(r, t) {
      assert Contains(all[|rs|], t);
    }
  }

  lemma ExtendCovers(out: seq<Range>, s: Range, t: real)
    requires Canonical(out) && s.start <= s.end
    requires out != [] ==> out[|out| - 1].start <= s.start
    ensures Covered(Extend(out, s), t) <==> Covered(out, t) || Contains(s, t)
  {
    if out != [] && s.start <= out[|out| - 1].end {
      var n := |out| - 1;
      CoveredSnoc(out[..n], out[n], t);
      CoveredSnoc(out[..n], out[n].(end := s.end), t);
      assert out == out[..n] + [out[n]];
      assert out[n := out[n].(end := s.end)] == out[..n] + [out[n].(end := s.end)];
    } else {
      CoveredSnoc(out, s, t);
    }
  }

  lemma LastEndsLatest(out: seq<Range>)
    requires Canonical(out) && out != []
    ensures forall i :: 0 <= i < |out| ==> out[i].end <= out[|out| - 1].end
  {
    assert out[|out| - 1].start <= out[|out| - 1].end;
  }

  lemma ExtendIsCanonical(out: seq<Range>, s: Range)
    requires Canonical(out) && s.start <= s.end
    requires out != [] ==> out[|out| - 1].start <= s.start
    ensures var m := Extend(out, s); Canonical(m) && m != [] && m[|m| - 1].start <= s.start
  {
    if out != [] {
      LastEndsLatest(out);
    }
  }

  lemma NoRanges()
    ensures Canonical([])
  {
  }

  lemma {:induction false} MergedIsCanonical(segs: seq<Range>)
    requires FromQuery(segs)
    ensures Canonical(Merged(segs))
    ensures Merged(segs) == [] <==> segs == []
    ensures segs != [] ==> var m := Merged(segs); m[|m| - 1].start <= segs[|segs| - 1].start
  {
    hide Extend, Canonical;
    if segs == [] {
      assert Canonical([]) by { NoRanges(); }
    } else {
      MergedIsCanonical(segs[..|segs| - 1]);
      ExtendIsCanonical(Merged(segs[..|segs| - 1]), segs[|segs| - 1]);
    }
  }

  lemma NothingCovered()
    ensures forall t :: !Covered([], t)
  {
  }

  /** Merging covers exactly the instants of the segments, with ranges that neither meet nor touch. */
  lemma {:induction false} MergedCoversTheSame(segs: seq<Range>)
    requires FromQuery(segs)
    ensures Canonical(Merged(segs))
    ensures forall t :: Covered(Merged(segs), t) <==> Covered(segs, t)
  {
    hide Extend, Covered, Canonical;
    MergedIsCanonical(segs);
    if segs == [] {
      NothingCovered();
    } else {
      var n := |segs| - 1;
      var before, s := segs[..n], segs[n];
      MergedIsCanonical(before);
      MergedCoversTheSame(before);
      assert segs == before + [s];
      forall t ensures Covered(Merged(segs), t) <==> Covered(segs, t) {
        ExtendCovers(Merged(before), s, t);
        CoveredSnoc(before, s, t);
      }
    }
  }

  /** Collapses overlapping and touching ranges, extending the last one in place. */
  method MergeRanges(segs: seq<Range>) returns (out: seq<Range>)
    ensures out == Merged(segs)
    ensures FromQuery(segs) ==> Canonical(out) && forall t :: Covered(out, t) <==> Covered(segs, t)
  {
    out := [];
    var i := 0;
    while i < |segs|
      invariant 0 <= i <= |segs| && out == Merged(segs[..i])
    {
      var s := segs[i];
      assert segs[..i + 1][..i] == segs[..i];
      if out != [] && s.start <= out[|out| - 1].end {
        if s.end > out[|out| - 1].end {
          out := out[|out| - 1 := Range(out[|out| - 1].start, s.end)];
        }
      } else {
        out := out + [s];
      }
      i := i + 1;
    }
    assert segs[..|segs|] == segs;
    if FromQuery(segs) {
      MergedCoversTheSame(segs);
    }
  }

  lemma FirstStart(a: seq<Range>, b: seq<Range>)
    requires Canonical(a) && Canonical(b) && a != [] && b != []
    requires forall t :: Covered(a, t) ==> Covered(b, t)
    ensures b[0].start <= a[0].start
  {
    assert Contains(a[0], a[0].start);
    assert Covered(a, a[0].start);
    var j :| 0 <= j < |b| && Contains(b[j], a[0].start);
    assert b[0].start <= b[j].start;
  }

  lemma CoveredBy(rs: seq<Range>, i: nat, t: real)
    requires i < |rs| && Contains(rs[i], t)
    ensures Covered(rs, t)
  {
  }

  /** Between two neighbours, and after the last range, nothing is covered. */
  lemma GapIsBare(rs: seq<Range>, i: nat, t: real)
    requires Canonical(rs) && i < |rs| && rs[i].end < t
    requires i + 1 < |rs| ==> t < rs[i + 1].start
    ensures !Covered(rs, t)
  {
    forall k | 0 <= k < |rs| ensures !Contains(rs[k], t) {
      if k < i {
        assert rs[k].end < rs[i].start <= rs[i].end;
      } else if k > i + 1 {
        assert rs[i + 1].start <= rs[i + 1].end < rs[k].start;
      }
    }
  }

  lemma FirstEnd(a: seq<Range>, b: seq<Range>)
    requires Canonical(a) && Canonical(b) && a != [] && b != [] && a[0].start == b[0].start
    requires forall t :: Covered(b, t) ==> Covered(a, t)
    ensures b[0].end <= a[0].end
  {
    if b[0].end > a[0].end {
      var limit := if |a| > 1 && a[1].start < b[0].end then a[1].start else b[0].end;
      var t := (a[0].end + limit) / 2.0;
      GapIsBare(a, 0, t);
      CoveredBy(b, 0, t);
    }
  }

  lemma TailCovered(a: seq<Range>, t: real)
    requires Canonical(a) && a != []
    ensures Covered(a[1..], t) <==> Covered(a, t) && t > a[0].end
  {
    if Covered(a[1..], t) {
      var i :| 0 <= i < |a[1..]| && Contains(a[1..][i], t);
      assert Contains(a[i + 1], t);
    }
    if Covered(a, t) && t > a[0].end {
      var i :| 0 <= i < |a| && Contains(a[i], t);
      assert Contains(a[1..][i - 1], t);
    }
  }

  lemma TailIsCanonical(a: seq<Range>)
    requires Canonical(a) && a != []
    ensures Canonical(a[1..])
  {
  }

  lemma FirstIsCovered(a: seq<Range>)
    requires Canonical(a) && a != []
    ensures Covered(a, a[0].start)
  {
    assert Contains(a[0], a[0].start);
  }

  /** The mask is determined by the instants it covers. */
  lemma {:induction false} CanonicalIsUnique(a: seq<Range>, b: seq<Range>)
    requires Canonical(a) && Canonical(b)
    requires forall t :: Covered(a, t) <==> Covered(b, t)
    ensures a == b
    decreases |a|
  {
    hide Covered, Canonical, Contains;
    NothingCovered();
    if a == [] || b == [] {
      if a != [] {
        FirstIsCovered(a);
      }
      if b != [] {
        FirstIsCovered(b);
      }
    } else {
      FirstStart(a, b);
      FirstStart(b, a);
      FirstEnd(a, b);
      FirstEnd(b, a);
      forall t ensures Covered(a[1..], t) <==> Covered(b[1..], t) {
        TailCovered(a, t);
        TailCovered(b, t);
      }
      TailIsCanonical(a);
      TailIsCanonical(b);
      CanonicalIsUnique(a[1..], b[1..]);
      assert a == [a[0]] + a[1..] && b == [b[0]] + b[1..];
    }
  }

  /** No range of b reaches from one range of a into a later one. */
  lemma GapInside(a: seq<Range>, b: seq<Range>, h: nat, i: nat, j: nat)
    requires i < j < |a| && h < |b| && Canonical(a)
    requires Contains(b[h], a[i].start)
    requires forall t :: Covered(a, t) <==> Covered(b, t)
    ensures !Contains(b[h], a[j].start)
  {
    var t := (a[i].end + a[i + 1].start) / 2.0;
    if i + 1 < j {
      assert a[i + 1].start <= a[i + 1].end < a[j].start;
    }
    assert a[i].start <= a[i].end;
    if Contains(b[h], a[j].start) {
      GapIsBare(a, i, t);
      CoveredBy(b, h, t);
    }
  }

  lemma {:induction false} Holders(a: seq<Range>, b: seq<Range>, n: nat) returns (holders: seq<nat>)
    requires n <= |a| && Canonical(a)
    requires forall t :: Covered(a, t) <==> Covered(b, t)
    ensures |holders| == n
    ensures forall i :: 0 <= i < n ==> holders[i] < |b| && Contains(b[holders[i]], a[i].start)
    ensures forall i, j :: 0 <= i < j < n ==> holders[i] != holders[j]
  {
    if n == 0 {
      holders := [];
    } else {
      var rest := Holders(a, b, n - 1);
      var t := a[n - 1].start;
      assert Contains(a[n - 1], t);
      assert Covered(a, t);
      var h :| 0 <= h < |b| && Contains(b[h], t);
      forall i | 0 <= i < n - 1 ensures rest[i] != h {
        GapInside(a, b, rest[i], i, n - 1);
      }
      holders := rest + [h];
    }
  }

  lemma {:induction false} Distinct(xs: seq<nat>, n: nat)
    requires forall i :: 0 <= i < |xs| ==> xs[i] < n
    requires forall i, j :: 0 <= i < j < |xs| ==> xs[i] != xs[j]
    ensures |xs| <= n
  {
    if xs != [] {
      assert 0 <= xs[0] < n;
      if i :| 0 <= i < |xs| && xs[i] == n - 1 {
        var ys := xs[..i] + xs[i + 1..];
        assert forall j :: 0 <= j < |ys| ==> ys[j] == if j < i then xs[j] else xs[j + 1];
        Distinct(ys, n - 1);
      } else {
        Distinct(xs, n - 1);
      }
    }
  }

  /** Some range of b holds the start of each range of a, and no range of b holds two of them. */
  lemma {:induction false} CanonicalIsShortest(a: seq<Range>, b: seq<Range>)
    requires Canonical(a)
    requires forall t :: Covered(a, t) <==> Covered(b, t)
    ensures |a| <= |b|
  {
    var holders := Holders(a, b, |a|);
    Distinct(holders, |b|);
  }
}
