/** A patch of a buffer with room for every value: its ending and its boxes can be told before. */
module Mp4Room {
  import opened MachineInts
  import opened Mp4Boxes

  /** The boxes of a part of the walk. */
  ghost predicate PartOf(part: seq<Box>, boxes: seq<Box>) {
    forall b :: b in part ==> b in boxes
  }

  /** What holds between the buffer walked and any buffer the patch goes through. */
  ghost predicate Under(d: bytes, e: bytes, boxes: seq<Box>) {
    Roomy(boxes) && Apart(boxes) && OnlyValues(d, e, boxes)
  }

  /** Headers and version bytes are never overwritten. */
  lemma HeaderKept(d: bytes, e: bytes, boxes: seq<Box>, x: Box)
    requires Under(d, e, boxes) && x in boxes && x.off + 8 <= |d|
    ensures U32(e, x.off) == U32(d, x.off) && U32(e, x.off + 4) == U32(d, x.off + 4)
    ensures Tfdt(x) && x.off + 8 < |d| ==> e[x.off + 8] == d[x.off + 8]
    ensures Fault(e, x) == Fault(d, x)
  {
    forall k | x.off <= k < x.off + 8 ensures !InValue(k, boxes) {
      assert forall c :: c in boxes && Tfdt(c) ==> !(c.off < x.off < c.off + 20);
    }
    assert d[x.off..x.off + 4] == e[x.off..x.off + 4] && d[x.off + 4..x.off + 8] == e[x.off + 4..x.off + 8];
    if Tfdt(x) && x.off + 8 < |d| {
      assert !InValue(x.off + 8, boxes) by {
        assert forall c :: c in boxes && Tfdt(c) ==> !(c.off < x.off < c.off + 20);
      }
    }
  }

  lemma LargeHeaderKept(d: bytes, e: bytes, boxes: seq<Box>, x: Box)
    requires Under(d, e, boxes) && x in boxes && x.level == 0 && x.off + 16 <= |d|
    ensures U64(e, x.off + 8) == U64(d, x.off + 8)
  {
    forall k | x.off + 8 <= k < x.off + 16 ensures !InValue(k, boxes) {
      forall c | c in boxes && Tfdt(c) ensures !(c.off + 12 <= k < c.off + 20) {
        assert !(c.off < x.off < c.off + 20);
        assert x != c;
      }
    }
    assert d[x.off + 8..x.off + 16] == e[x.off + 8..x.off + 16];
  }

  lemma TopBoxKept(d: bytes, e: bytes, boxes: seq<Box>, off: nat, n: nat)
    requires off + 8 <= n <= |d| && Under(d, e, boxes) && TopBox(d, off, n) in boxes
    ensures TopHeader(e, off, n) == TopHeader(d, off, n) && TopBox(e, off, n) == TopBox(d, off, n)
  {
    var x := TopBox(d, off, n);
    HeaderKept(d, e, boxes, x);
    if off + 16 <= n {
      LargeHeaderKept(d, e, boxes, x);
    }
  }

  lemma SameLength(d: bytes, e: bytes, boxes: seq<Box>)
    requires Under(d, e, boxes)
    ensures |d| == |e|
  {
  }

  /** The walk finds the same boxes in both. */
  lemma {:induction false} SameTraf(d: bytes, e: bytes, boxes: seq<Box>, i: nat, hi: nat)
    requires hi <= |d| && Under(d, e, boxes) && PartOf(WalkTraf(d, i, hi), boxes)
    ensures WalkTraf(e, i, hi) == WalkTraf(d, i, hi)
    decreases hi - i
  {
    hide U32, Under, Fault;
    SameLength(d, e, boxes);
    if i + 8 <= hi {
      var b := Box(2, i, 8, U32(d, i), U32(d, i + 4), hi);
      assert b in WalkTraf(d, i, hi);
      HeaderKept(d, e, boxes, b);
      if Sound(b) {
        SameTraf(d, e, boxes, i + b.size, hi);
      }
    }
  }

  lemma PartsOfThree(b: Box, inner: seq<Box>, rest: seq<Box>, boxes: seq<Box>)
    requires PartOf([b] + inner + rest, boxes)
    ensures b in boxes && PartOf(inner, boxes) && PartOf(rest, boxes)
  {
    assert b in [b] + inner + rest;
  }

  lemma SameInner(d: bytes, e: bytes, boxes: seq<Box>, b: Box)
    requires b.off + b.size <= |d| && |e| == |d| && Under(d, e, boxes) && PartOf(MoofInner(d, b), boxes)
    ensures MoofInner(e, b) == MoofInner(d, b)
  {
    hide Under, WalkTraf, PartOf;
    if b.typ == TRAF && b.size >= 8 {
      SameTraf(d, e, boxes, b.off + 8, b.off + b.size);
    }
  }

  lemma OnlyPart(b: Box, boxes: seq<Box>)
    requires PartOf([b], boxes)
    ensures b in boxes
  {
    assert b in [b];
  }

  lemma {:induction false} SameMoof(d: bytes, e: bytes, boxes: seq<Box>, off: nat, hi: nat)
    requires hi <= |d| && Under(d, e, boxes) && PartOf(WalkMoof(d, off, hi), boxes)
    ensures WalkMoof(e, off, hi) == WalkMoof(d, off, hi)
    decreases hi - off
  {
    hide U32, Under, MoofInner, PartOf, Fault;
    SameLength(d, e, boxes);
    if off + 8 <= hi {
      var b := Box(1, off, 8, U32(d, off), U32(d, off + 4), hi);
      if Sound(b) {
        PartsOfThree(b, MoofInner(d, b), WalkMoof(d, off + b.size, hi), boxes);
        HeaderKept(d, e, boxes, b);
        SameMoof(d, e, boxes, off + b.size, hi);
        SameInner(d, e, boxes, b);
      } else {
        OnlyPart(b, boxes);
        HeaderKept(d, e, boxes, b);
      }
    }
  }

  lemma {:induction false} SameTop(d: bytes, e: bytes, boxes: seq<Box>, off: nat, n: nat)
    requires n <= |d|
    requires Under(d, e, boxes) && PartOf(WalkTop(d, off, n), boxes)
    ensures WalkTop(e, off, n) == WalkTop(d, off, n)
    decreases n - off
  {
    hide TopBox, TopHeader, Under, WalkMoof, PartOf, Fault;
    SameLength(d, e, boxes);
    if off + 8 <= n {
      TopBoxAt(d, off, n);
      var b := TopBox(d, off, n);
      if Sound(b) {
        PartsOfThree(b, TopInner(d, b), WalkTop(d, off + b.size, n), boxes);
        TopBoxKept(d, e, boxes, off, n);
        SameTop(d, e, boxes, off + b.size, n);
        if b.typ == MOOF {
          SameMoof(d, e, boxes, off + b.hdr, off + b.size);
        }
      } else {
        OnlyPart(b, boxes);
        TopBoxKept(d, e, boxes, off, n);
      }
    }
  }

  /** Writing the value of one of the tfdts stays within the values. */
  lemma PutIsValue(d: bytes, e: bytes, boxes: seq<Box>, b: Box, base: nat)
    requires Under(d, e, boxes) && b in boxes && Tfdt(b) && b.off + 20 <= |d|
    ensures Under(d, Put(e, b.off + 12, base), boxes)
  {
    var f := Put(e, b.off + 12, base);
    forall k | 0 <= k < |d| && !InValue(k, boxes) ensures f[k] == d[k] {
      assert !(b.off + 12 <= k < b.off + 20);
    }
  }

  /** From any buffer on the way, the rest of a patch ends as the boxes of the buffer walked say. */
  ghost predicate Foretold(d: bytes, r: Patched, boxes: seq<Box>, part: seq<Box>, found: bool) {
    && r.status == Verdict(d, part) && Under(d, r.d, boxes)
    && (r.status == Ok ==> (r.found <==> found || HasTfdt(part)))
  }

  lemma NoBoxes()
    ensures !HasTfdt([]) && forall d :: Verdict(d, []) == Ok
  {
  }

  lemma {:induction false} TrafForetold(d: bytes, e: bytes, boxes: seq<Box>, i: nat, hi: nat, base: nat, found: bool)
    requires hi <= |d| == |e| && Under(d, e, boxes) && PartOf(WalkTraf(d, i, hi), boxes)
    ensures Foretold(d, PatchTraf(e, i, hi, base, found), boxes, WalkTraf(d, i, hi), found)
    decreases hi - i
  {
    hide U32, Under, Put, HasTfdt, Fault, Verdict;
    NoBoxes();
    if i + 8 <= hi {
      var b := Box(2, i, 8, U32(d, i), U32(d, i + 4), hi);
      assert b in WalkTraf(d, i, hi);
      HeaderKept(d, e, boxes, b);
      OneBox(d, b);
      FaultIs(d, b);
      SameLength(d, e, boxes);
      if Sound(b) {
        var rest := WalkTraf(d, i + b.size, hi);
        VerdictOfBoth(d, [b], rest);
        if !Tfdt(b) {
          TrafForetold(d, e, boxes, i + b.size, hi, base, found);
        } else if Fault(d, b) == Ok {
          PutIsValue(d, e, boxes, b, base);
          TrafForetold(d, Put(e, i + 12, base), boxes, i + b.size, hi, base, true);
        }
      }
    }
  }

  lemma {:induction false} MoofForetold(d: bytes, e: bytes, boxes: seq<Box>, off: nat, hi: nat, base: nat, found: bool)
    requires hi <= |d| == |e| && Under(d, e, boxes) && PartOf(WalkMoof(d, off, hi), boxes)
    ensures Foretold(d, PatchMoof(e, off, hi, base, found), boxes, WalkMoof(d, off, hi), found)
    decreases hi - off
  {
    hide U32, Under, PatchTraf, WalkTraf, HasTfdt, PartOf;
    if off + 8 > hi {
      NoBoxes();
    } else {
      var b := Box(1, off, 8, U32(d, off), U32(d, off + 4), hi);
      OneBox(d, b);
      if !Sound(b) {
        OnlyPart(b, boxes);
        HeaderKept(d, e, boxes, b);
      } else {
        var inner, rest := MoofInner(d, b), WalkMoof(d, off + b.size, hi);
        PartsOfThree(b, inner, rest, boxes);
        HeaderKept(d, e, boxes, b);
        VerdictOfThree(d, b, inner, rest);
        NoBoxes();
        if b.typ == TRAF {
          TrafForetold(d, e, boxes, off + 8, off + b.size, base, found);
          var r := PatchTraf(e, off + 8, off + b.size, base, found);
          if r.status == Ok {
            MoofForetold(d, r.d, boxes, off + b.size, hi, base, r.found);
          }
        } else {
          MoofForetold(d, e, boxes, off + b.size, hi, base, found);
        }
      }
    }
  }

  lemma {:induction false} TopForetold(d: bytes, e: bytes, boxes: seq<Box>, off: nat, n: nat, base: nat, found: bool)
    requires n <= |d|
    requires |d| == |e| && Under(d, e, boxes) && PartOf(WalkTop(d, off, n), boxes)
    ensures var r, w := PatchTop(e, off, n, base, found), WalkTop(d, off, n);
      && r.status == (if Verdict(d, w) == Ok && !found && !HasTfdt(w) then NoTfdt else Verdict(d, w))
      && Under(d, r.d, boxes)
    decreases n - off
  {
    hide U32, Under, PatchMoof, WalkMoof, HasTfdt, PartOf;
    if off + 8 > n {
      NoBoxes();
    } else {
      TopBoxAt(d, off, n);
      var b := TopBox(d, off, n);
      OneBox(d, b);
      if !Sound(b) {
        OnlyPart(b, boxes);
        TopBoxKept(d, e, boxes, off, n);
      } else {
        var inner, rest := TopInner(d, b), WalkTop(d, off + b.size, n);
        PartsOfThree(b, inner, rest, boxes);
        TopBoxKept(d, e, boxes, off, n);
        VerdictOfThree(d, b, inner, rest);
        NoBoxes();
        if b.typ == MOOF {
          MoofForetold(d, e, boxes, off + b.hdr, off + b.size, base, found);
          var r := PatchMoof(e, off + b.hdr, off + b.size, base, found);
          if r.status == Ok {
            TopForetold(d, r.d, boxes, off + b.size, n, base, r.found);
          }
        } else {
          TopForetold(d, e, boxes, off + b.size, n, base, found);
        }
      }
    }
  }
}
