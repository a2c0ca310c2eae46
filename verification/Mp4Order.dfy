/** The boxes of a walk lie in order and apart. */
module Mp4Order {
  import opened MachineInts
  import opened Mp4Boxes

  function Width(b: Box): int {
    if b.level == 2 && Sound(b) then b.size else 8
  }

  /** In order of their starts, all within [lo, hi); a child of a traf ends before the next box starts. */
  ghost predicate InOrder(boxes: seq<Box>, lo: int, hi: int) {
    && (forall b :: b in boxes ==> lo <= b.off && Width(b) >= 8 && b.off + Width(b) <= hi)
    && (forall i, j :: 0 <= i < j < |boxes| ==> boxes[i].off + Width(boxes[i]) <= boxes[j].off)
  }

  lemma OrderOfBoth(a: seq<Box>, b: seq<Box>, lo: int, mid: int, hi: int)
    requires InOrder(a, lo, mid) && InOrder(b, mid, hi) && mid <= hi
    ensures lo <= mid || a == [] ==> InOrder(a + b, if a == [] then mid else lo, hi)
  {
    forall i, j | 0 <= i < j < |a + b|
      ensures (a + b)[i].off + Width((a + b)[i]) <= (a + b)[j].off
    {
      assert i < |a| ==> a[i] in a;
      assert j >= |a| ==> b[j - |a|] in b;
    }
  }

  lemma OrderOfOne(b: Box, hi: int)
    requires Width(b) >= 8 && b.off + Width(b) <= hi
    ensures InOrder([b], b.off, hi)
  {
  }

  lemma NothingInOrder(lo: int, hi: int)
    ensures InOrder([], lo, hi)
  {
  }

  lemma {:induction false} TrafInOrder(d: bytes, i: nat, hi: nat)
    requires hi <= |d|
    ensures InOrder(WalkTraf(d, i, hi), i, hi)
    decreases hi - i
  {
    hide U32, InOrder;
    if i + 8 > hi {
      NothingInOrder(i, hi);
    } else {
      var b := Box(2, i, 8, U32(d, i), U32(d, i + 4), hi);
      if Sound(b) {
        TrafInOrder(d, i + b.size, hi);
        OrderOfOne(b, i + b.size);
        OrderOfBoth([b], WalkTraf(d, i + b.size, hi), i, i + b.size, hi);
      } else {
        OrderOfOne(b, hi);
      }
    }
  }

  /** A box around others, then what follows. */
  lemma OrderOfThree(b: Box, inner: seq<Box>, rest: seq<Box>, lo: int, hi: int)
    requires b.level != 2 && b.off + 8 <= lo <= b.off + b.size <= hi
    requires InOrder(inner, lo, b.off + b.size) && InOrder(rest, b.off + b.size, hi)
    ensures InOrder([b] + inner + rest, b.off, hi)
  {
    hide InOrder;
    OrderOfOne(b, lo);
    OrderOfBoth([b], inner, b.off, lo, b.off + b.size);
    OrderOfBoth([b] + inner, rest, b.off, b.off + b.size, hi);
  }

  lemma {:induction false} MoofInOrder(d: bytes, off: nat, hi: nat)
    requires hi <= |d|
    ensures InOrder(WalkMoof(d, off, hi), off, hi)
    decreases hi - off
  {
    hide U32, InOrder, WalkTraf;
    NothingInOrder(off, hi);
    if off + 8 <= hi {
      var b := Box(1, off, 8, U32(d, off), U32(d, off + 4), hi);
      if Sound(b) {
        MoofInOrder(d, off + b.size, hi);
        NothingInOrder(off + 8, off + b.size);
        if b.typ == TRAF {
          TrafInOrder(d, off + 8, off + b.size);
        }
        OrderOfThree(b, MoofInner(d, b), WalkMoof(d, off + b.size, hi), off + 8, hi);
      } else {
        OrderOfOne(b, hi);
      }
    }
  }

  lemma {:induction false} TopInOrder(d: bytes, off: nat, n: nat)
    requires n <= |d|
    ensures InOrder(WalkTop(d, off, n), off, n)
    decreases n - off
  {
    hide TopBox, InOrder, WalkMoof;
    NothingInOrder(off, n);
    if off + 8 <= n {
      TopBoxAt(d, off, n);
      var b := TopBox(d, off, n);
      if Sound(b) {
        TopInOrder(d, off + b.size, n);
        NothingInOrder(off + b.hdr, off + b.size);
        if b.typ == MOOF {
          MoofInOrder(d, off + b.hdr, off + b.size);
        }
        OrderOfThree(b, TopInner(d, b), WalkTop(d, off + b.size, n), off + b.hdr, n);
      } else {
        OrderOfOne(b, n);
      }
    }
  }

  lemma EarlierIsApart(boxes: seq<Box>, lo: int, hi: int, i: nat, j: nat)
    requires InOrder(boxes, lo, hi) && i < j < |boxes|
    ensures boxes[i].off + 8 <= boxes[j].off
  {
  }

  lemma InOrderIsApart(boxes: seq<Box>, lo: int, hi: int)
    requires InOrder(boxes, lo, hi)
    ensures Apart(boxes)
  {
    forall x, y | x in boxes && y in boxes && x.off <= y.off && x != y ensures x.off + 8 <= y.off {
      var i: nat :| i < |boxes| && boxes[i] == x;
      var j: nat :| j < |boxes| && boxes[j] == y;
      if i < j {
        EarlierIsApart(boxes, lo, hi, i, j);
      } else if j < i {
        EarlierIsApart(boxes, lo, hi, j, i);
      }
    }
  }
}
