/** Speckle removal on the change mask: 3x3 erosion and dilation that leave the border unset, applied as
    erode, dilate, erode, dilate. */
module Morphology {
  import opened Pixels

  /** Pixel (x, y) of a mask, unset outside the plane. */
  predicate On(m: seq<bool>, w: nat, h: nat, x: int, y: int)
    requires |m| == w * h
  {
    && 0 <= x < w && 0 <= y < h
    && (IndexInRange(x, y, w, h); m[Index(x, y, w)])
  }

  predicate Near(x: int, y: int, u: int, v: int) {
    -1 <= u - x <= 1 && -1 <= v - y <= 1
  }

  /** At least k pixels away from every edge. */
  predicate Inside(w: nat, h: nat, x: int, y: int, k: nat) {
    k <= x < w - k && k <= y < h - k
  }

  /** The whole 3x3 block around (x, y) is set. */
  ghost predicate Block(m: seq<bool>, w: nat, h: nat, x: int, y: int)
    requires |m| == w * h
  {
    forall u, v :: Near(x, y, u, v) ==> On(m, w, h, u, v)
  }

  /** Some pixel of the 3x3 block around (x, y) is set. */
  ghost predicate Touched(m: seq<bool>, w: nat, h: nat, x: int, y: int)
    requires |m| == w * h
  {
    exists u, v :: Near(x, y, u, v) && On(m, w, h, u, v)
  }

  ghost predicate IsErosion(out: seq<bool>, m: seq<bool>, w: nat, h: nat)
    requires |m| == w * h
  {
    |out| == w * h && forall x, y :: On(out, w, h, x, y) <==> Inside(w, h, x, y, 1) && Block(m, w, h, x, y)
  }

  ghost predicate IsDilation(out: seq<bool>, m: seq<bool>, w: nat, h: nat)
    requires |m| == w * h
  {
    |out| == w * h && forall x, y :: On(out, w, h, x, y) <==> Inside(w, h, x, y, 1) && Touched(m, w, h, x, y)
  }

  // ---- the loops ---------------------------------------------------------------------------

  method AllSet(m: seq<bool>, w: nat, h: nat, x: nat, y: nat) returns (all: bool)
    requires |m| == w * h && Inside(w, h, x, y, 1)
    ensures all <==> Block(m, w, h, x, y)
  {
    all := true;
    var dy := -1;
    while dy <= 1 && all
      invariant -1 <= dy <= 2
      invariant all ==> forall u, v :: Near(x, y, u, v) && v < y + dy ==> On(m, w, h, u, v)
      invariant !all ==> !Block(m, w, h, x, y)
    {
      var dx := -1;
      while dx <= 1
        invariant -1 <= dx <= 2 && all
        invariant forall u, v :: Near(x, y, u, v) && (v < y + dy || (v == y + dy && u < x + dx)) ==> On(m, w, h, u, v)
      {
        IndexInRange(x + dx, y + dy, w, h);
        if !m[Index(x + dx, y + dy, w)] {
          assert Near(x, y, x + dx, y + dy) && !On(m, w, h, x + dx, y + dy);
          all := false;
          break;
        }
        dx := dx + 1;
      }
      dy := dy + 1;
    }
  }

  method AnySet(m: seq<bool>, w: nat, h: nat, x: nat, y: nat) returns (some: bool)
    requires |m| == w * h && Inside(w, h, x, y, 1)
    ensures some <==> Touched(m, w, h, x, y)
  {
    some := false;
    var dy := -1;
    while dy <= 1 && !some
      invariant -1 <= dy <= 2
      invariant !some ==> forall u, v :: Near(x, y, u, v) && v < y + dy ==> !On(m, w, h, u, v)
      invariant some ==> Touched(m, w, h, x, y)
    {
      var dx := -1;
      while dx <= 1
        invariant -1 <= dx <= 2 && !some
        invariant forall u, v :: Near(x, y, u, v) && (v < y + dy || (v == y + dy && u < x + dx)) ==> !On(m, w, h, u, v)
      {
        IndexInRange(x + dx, y + dy, w, h);
        if m[Index(x + dx, y + dy, w)] {
          assert Near(x, y, x + dx, y + dy) && On(m, w, h, x + dx, y + dy);
          some := true;
          break;
        }
        dx := dx + 1;
      }
      dy := dy + 1;
    }
  }

  /** Rows before y, and the pixels of row y before x, are as they should be; the rest is unset. */
  ghost predicate Filled(out: seq<bool>, w: nat, h: nat, x: int, y: int, want: (int, int) -> bool) {
    && |out| == w * h
    && forall u, v :: On(out, w, h, u, v) <==> Inside(w, h, u, v, 1) && (v < y || (v == y && u < x)) && want(u, v)
  }

  lemma SetPixel(out: seq<bool>, w: nat, h: nat, x: nat, y: nat, want: (int, int) -> bool)
    requires Filled(out, w, h, x, y, want) && Inside(w, h, x, y, 1)
    ensures y * w + x < |out| && Filled(out[y * w + x := want(x, y)], w, h, x + 1, y, want)
  {
    IndexInRange(x, y, w, h);
    var now := out[Index(x, y, w) := want(x, y)];
    forall u, v
      ensures On(now, w, h, u, v) <==>
        Inside(w, h, u, v, 1) && (v < y || (v == y && u < x + 1)) && want(u, v)
    {
      assert On(out, w, h, u, v) <==> Inside(w, h, u, v, 1) && (v < y || (v == y && u < x)) && want(u, v);
      if 0 <= u < w && 0 <= v < h {
        IndexInRange(u, v, w, h);
        if v != y {
          RowsAreApart(x, y, u, v, w);
        }
      }
    }
  }

  lemma StartsUnset(out: seq<bool>, w: nat, h: nat, want: (int, int) -> bool)
    requires |out| == w * h && forall i :: 0 <= i < |out| ==> !out[i]
    ensures Filled(out, w, h, 1, 1, want)
  {
    forall u, v ensures !On(out, w, h, u, v) {
      if 0 <= u < w && 0 <= v < h {
        IndexInRange(u, v, w, h);
      }
    }
  }

  lemma NextRow(out: seq<bool>, w: nat, h: nat, x: int, y: int, want: (int, int) -> bool)
    requires Filled(out, w, h, x, y, want) && x >= w - 1
    ensures Filled(out, w, h, 1, y + 1, want)
  {
  }

  lemma LastRow(out: seq<bool>, w: nat, h: nat, y: int, want: (int, int) -> bool)
    requires Filled(out, w, h, 1, y, want) && y >= h - 1
    ensures forall u, v :: On(out, w, h, u, v) <==> Inside(w, h, u, v, 1) && want(u, v)
  {
  }

  method Erode(m: seq<bool>, w: nat, h: nat) returns (r: seq<bool>)
    requires |m| == w * h
    ensures IsErosion(r, m, w, h)
  {
    var out := new bool[|m|](_ => false);
    ghost var want := (x, y) => Block(m, w, h, x, y);
    hide Block;
    var y := 1;
    StartsUnset(out[..], w, h, want);
    while y < h - 1
      invariant 1 <= y && (h >= 1 ==> y <= h)
      invariant Filled(out[..], w, h, 1, y, want)
    {
      var x := 1;
      while x < w - 1
        invariant 1 <= x && (w >= 2 ==> x <= w - 1)
        invariant Filled(out[..], w, h, x, y, want)
      {
        var all := AllSet(m, w, h, x, y);
        SetPixel(out[..], w, h, x, y, want);
        out[y * w + x] := all;
        x := x + 1;
      }
      NextRow(out[..], w, h, x, y, want);
      y := y + 1;
    }
    LastRow(out[..], w, h, y, want);
    r := out[..];
    assert forall x, y :: want(x, y) <==> Block(m, w, h, x, y);
  }

  method Dilate(m: seq<bool>, w: nat, h: nat) returns (r: seq<bool>)
    requires |m| == w * h
    ensures IsDilation(r, m, w, h)
  {
    var out := new bool[|m|](_ => false);
    ghost var want := (x, y) => Touched(m, w, h, x, y);
    hide Touched;
    var y := 1;
    StartsUnset(out[..], w, h, want);
    while y < h - 1
      invariant 1 <= y && (h >= 1 ==> y <= h)
      invariant Filled(out[..], w, h, 1, y, want)
    {
      var x := 1;
      while x < w - 1
        invariant 1 <= x && (w >= 2 ==> x <= w - 1)
        invariant Filled(out[..], w, h, x, y, want)
      {
        var some := AnySet(m, w, h, x, y);
        SetPixel(out[..], w, h, x, y, want);
        out[y * w + x] := some;
        x := x + 1;
      }
      NextRow(out[..], w, h, x, y, want);
      y := y + 1;
    }
    LastRow(out[..], w, h, y, want);
    r := out[..];
    assert forall x, y :: want(x, y) <==> Touched(m, w, h, x, y);
  }

  // ---- what it keeps -----------------------------------------------------------------------

  /** (x, y) lies in a 3x3 square of set pixels that stays off the border. */
  ghost predicate InSquare(m: seq<bool>, w: nat, h: nat, x: int, y: int)
    requires |m| == w * h
  {
    exists u, v :: Near(x, y, u, v) && Inside(w, h, u, v, 2) && Block(m, w, h, u, v)
  }

  /** Opening never sets a pixel. */
  lemma OpeningShrinks(m: seq<bool>, a: seq<bool>, b: seq<bool>, w: nat, h: nat, x: int, y: int)
    requires |m| == w * h && IsErosion(a, m, w, h) && IsDilation(b, a, w, h) && On(b, w, h, x, y)
    ensures On(m, w, h, x, y)
  {
    var u, v :| Near(x, y, u, v) && On(a, w, h, u, v);
    assert Near(u, v, x, y);
  }

  /** The second erosion finds the first one again, off the border. */
  lemma SecondErosion(m: seq<bool>, a: seq<bool>, b: seq<bool>, c: seq<bool>, w: nat, h: nat, x: int, y: int)
    requires |m| == w * h && IsErosion(a, m, w, h) && IsDilation(b, a, w, h) && IsErosion(c, b, w, h)
    ensures On(c, w, h, x, y) <==> Inside(w, h, x, y, 2) && Block(m, w, h, x, y)
  {
    if On(c, w, h, x, y) {
      assert Near(x, y, x - 1, y - 1) && Near(x, y, x + 1, y + 1);
      assert On(b, w, h, x - 1, y - 1) && On(b, w, h, x + 1, y + 1);
      forall u, v | Near(x, y, u, v) ensures On(m, w, h, u, v) {
        assert On(b, w, h, u, v);
        OpeningShrinks(m, a, b, w, h, u, v);
      }
    }
    if Inside(w, h, x, y, 2) && Block(m, w, h, x, y) {
      assert On(a, w, h, x, y);
      forall u, v | Near(x, y, u, v) ensures On(b, w, h, u, v) {
        assert Near(u, v, x, y);
      }
    }
  }

  lemma OpenedTwiceAt(m: seq<bool>, a: seq<bool>, b: seq<bool>, c: seq<bool>, d: seq<bool>,
                      w: nat, h: nat, x: int, y: int)
    requires |m| == w * h
    requires IsErosion(a, m, w, h) && IsDilation(b, a, w, h) && IsErosion(c, b, w, h) && IsDilation(d, c, w, h)
    ensures On(d, w, h, x, y) <==> InSquare(m, w, h, x, y)
  {
    assert On(d, w, h, x, y) <==> Inside(w, h, x, y, 1) && Touched(c, w, h, x, y);
    hide On, IsErosion, IsDilation, Block;
    if On(d, w, h, x, y) {
      var u, v :| Near(x, y, u, v) && On(c, w, h, u, v);
      SecondErosion(m, a, b, c, w, h, u, v);
    }
    if InSquare(m, w, h, x, y) {
      var u, v :| Near(x, y, u, v) && Inside(w, h, u, v, 2) && Block(m, w, h, u, v);
      SecondErosion(m, a, b, c, w, h, u, v);
    }
  }

  /** The two openings together keep exactly the 3x3 squares of set pixels that stay off the border. */
  lemma OpenedTwice(m: seq<bool>, a: seq<bool>, b: seq<bool>, c: seq<bool>, d: seq<bool>, w: nat, h: nat)
    requires |m| == |d| == w * h
    requires IsErosion(a, m, w, h) && IsDilation(b, a, w, h) && IsErosion(c, b, w, h) && IsDilation(d, c, w, h)
    ensures forall x, y :: On(d, w, h, x, y) <==> InSquare(m, w, h, x, y)
  {
    hide On, IsErosion, IsDilation, InSquare;
    forall x, y ensures On(d, w, h, x, y) <==> InSquare(m, w, h, x, y) {
      OpenedTwiceAt(m, a, b, c, d, w, h, x, y);
    }
  }

  method Morphology(m: seq<bool>, w: nat, h: nat) returns (r: seq<bool>)
    requires |m| == w * h
    ensures |r| == w * h
    ensures forall x, y :: On(r, w, h, x, y) <==> InSquare(m, w, h, x, y)
  {
    var eroded := Erode(m, w, h);
    var opened1 := Dilate(eroded, w, h);
    var again := Erode(opened1, w, h);
    r := Dilate(again, w, h);
    OpenedTwice(m, eroded, opened1, again, r, w, h);
  }

  /** The second opening matters: the unset border makes a single one unstable. On a plane of three by
      three set pixels the first keeps the centre and the second clears it. */
  lemma OneOpeningIsNotStable(a: seq<bool>, b: seq<bool>, c: seq<bool>, d: seq<bool>)
    requires IsErosion(a, seq(9, _ => true), 3, 3) && IsDilation(b, a, 3, 3)
    requires IsErosion(c, b, 3, 3) && IsDilation(d, c, 3, 3)
    ensures On(b, 3, 3, 1, 1) && !On(d, 3, 3, 1, 1)
  {
    var m := seq(9, _ => true);
    assert Near(1, 1, 1, 1);
    forall u, v | Near(1, 1, u, v) ensures On(m, 3, 3, u, v) {
      IndexInRange(u, v, 3, 3);
    }
    assert On(a, 3, 3, 1, 1);
    OpenedTwice(m, a, b, c, d, 3, 3);
  }

  /** (x, y) lies off the border in a 3x3 block of set pixels centred off the border. */
  ghost predicate InBlock(m: seq<bool>, w: nat, h: nat, x: int, y: int)
    requires |m| == w * h
  {
    Inside(w, h, x, y, 1) && exists u, v :: Near(x, y, u, v) && Inside(w, h, u, v, 1) && Block(m, w, h, u, v)
  }

  /** Those are the pixels the first opening keeps. */
  lemma OpenedAt(m: seq<bool>, a: seq<bool>, b: seq<bool>, w: nat, h: nat, x: int, y: int)
    requires |m| == w * h && IsErosion(a, m, w, h) && IsDilation(b, a, w, h)
    ensures On(b, w, h, x, y) <==> InBlock(m, w, h, x, y)
  {
    hide On, Block;
    if On(b, w, h, x, y) {
      var u, v :| Near(x, y, u, v) && On(a, w, h, u, v);
      assert Inside(w, h, u, v, 1) && Block(m, w, h, u, v);
    }
    if InBlock(m, w, h, x, y) {
      var u, v :| Near(x, y, u, v) && Inside(w, h, u, v, 1) && Block(m, w, h, u, v);
      assert On(a, w, h, u, v);
    }
  }

  lemma SquareIsBlock(m: seq<bool>, w: nat, h: nat, x: int, y: int)
    requires |m| == w * h && InSquare(m, w, h, x, y)
    ensures InBlock(m, w, h, x, y)
  {
    hide Block;
    var u, v :| Near(x, y, u, v) && Inside(w, h, u, v, 2) && Block(m, w, h, u, v);
    assert Inside(w, h, u, v, 1);
  }

  /** Every off-border pixel of a block of set pixels lies in a square that stays off the border. */
  ghost predicate BlocksAreInSquares(m: seq<bool>, w: nat, h: nat)
    requires |m| == w * h
  {
    forall x, y :: InBlock(m, w, h, x, y) ==> InSquare(m, w, h, x, y)
  }

  /** Exactly when a single opening would have done. */
  lemma OneOpeningSufficesExactly(m: seq<bool>, a: seq<bool>, b: seq<bool>, w: nat, h: nat)
    requires |m| == |b| == w * h && IsErosion(a, m, w, h) && IsDilation(b, a, w, h)
    ensures (forall x, y :: On(b, w, h, x, y) <==> InSquare(m, w, h, x, y)) <==> BlocksAreInSquares(m, w, h)
  {
    hide On, InSquare, InBlock, IsErosion, IsDilation;
    forall x, y ensures On(b, w, h, x, y) <==> InBlock(m, w, h, x, y) {
      OpenedAt(m, a, b, w, h, x, y);
    }
    forall x, y | InSquare(m, w, h, x, y) ensures InBlock(m, w, h, x, y) {
      SquareIsBlock(m, w, h, x, y);
    }
  }

  /** Some pixel of the 3x3 block around (x, y) lies in a block of set pixels. */
  ghost predicate NearBlock(m: seq<bool>, w: nat, h: nat, x: int, y: int)
    requires |m| == w * h
  {
    exists u, v :: Near(x, y, u, v) && InBlock(m, w, h, u, v)
  }

  /** And that is so of every pixel of the 3x3 block around (x, y). */
  ghost predicate Surrounded(m: seq<bool>, w: nat, h: nat, x: int, y: int)
    requires |m| == w * h
  {
    forall u, v :: Near(x, y, u, v) ==> NearBlock(m, w, h, u, v)
  }

  lemma TouchedIsNearBlock(m: seq<bool>, a: seq<bool>, b: seq<bool>, w: nat, h: nat, u: int, v: int)
    requires |m| == |b| == w * h && IsErosion(a, m, w, h) && IsDilation(b, a, w, h)
    ensures Touched(b, w, h, u, v) <==> NearBlock(m, w, h, u, v)
  {
    hide On, InBlock, IsErosion, IsDilation;
    forall p, q ensures On(b, w, h, p, q) <==> InBlock(m, w, h, p, q) {
      OpenedAt(m, a, b, w, h, p, q);
    }
  }

  lemma ClosedIsTouched(b: seq<bool>, e: seq<bool>, f: seq<bool>, w: nat, h: nat, x: int, y: int)
    requires |b| == w * h && IsDilation(e, b, w, h) && IsErosion(f, e, w, h)
    ensures On(f, w, h, x, y) <==>
      Inside(w, h, x, y, 2) && forall u, v :: Near(x, y, u, v) ==> Touched(b, w, h, u, v)
  {
    if On(f, w, h, x, y) {
      assert Near(x, y, x - 1, y - 1) && Near(x, y, x + 1, y + 1);
      assert On(e, w, h, x - 1, y - 1) && On(e, w, h, x + 1, y + 1);
      forall u, v | Near(x, y, u, v) ensures Touched(b, w, h, u, v) {
        assert On(e, w, h, u, v);
      }
    }
  }

  /** Closing the opened mask b instead, dilation e then erosion f: the border costs another pixel, and
      every gap that is surrounded is filled. */
  lemma ClosedAt(m: seq<bool>, a: seq<bool>, b: seq<bool>, e: seq<bool>, f: seq<bool>,
                 w: nat, h: nat, x: int, y: int)
    requires |m| == |b| == |f| == w * h && IsErosion(a, m, w, h) && IsDilation(b, a, w, h)
    requires IsDilation(e, b, w, h) && IsErosion(f, e, w, h)
    ensures On(f, w, h, x, y) <==> Inside(w, h, x, y, 2) && Surrounded(m, w, h, x, y)
  {
    hide On, Touched, NearBlock, IsErosion, IsDilation;
    ClosedIsTouched(b, e, f, w, h, x, y);
    forall u, v ensures Touched(b, w, h, u, v) <==> NearBlock(m, w, h, u, v) {
      TouchedIsNearBlock(m, a, b, w, h, u, v);
    }
  }

  lemma InSquareIsSurrounded(m: seq<bool>, w: nat, h: nat, x: int, y: int)
    requires |m| == w * h && InSquare(m, w, h, x, y)
    ensures Surrounded(m, w, h, x, y)
  {
    hide InBlock;
    SquareIsBlock(m, w, h, x, y);
    forall p, q | Near(x, y, p, q) ensures NearBlock(m, w, h, p, q) {
      assert Near(p, q, x, y);
    }
  }

  /** No pixel of the filter's result lies next to the border, and closing would fill no gap. */
  ghost predicate ClosingAgrees(m: seq<bool>, w: nat, h: nat)
    requires |m| == w * h
  {
    && (forall x, y :: InSquare(m, w, h, x, y) ==> Inside(w, h, x, y, 2))
    && (forall x, y :: Inside(w, h, x, y, 2) && Surrounded(m, w, h, x, y) ==> InSquare(m, w, h, x, y))
  }

  /** The code's result d is that of open-then-close exactly when closing agrees. */
  lemma OpenThenCloseExactly(m: seq<bool>, a: seq<bool>, b: seq<bool>, c: seq<bool>, d: seq<bool>,
                             e: seq<bool>, f: seq<bool>, w: nat, h: nat)
    requires |m| == |b| == |d| == |f| == w * h
    requires IsErosion(a, m, w, h) && IsDilation(b, a, w, h) && IsErosion(c, b, w, h) && IsDilation(d, c, w, h)
    requires IsDilation(e, b, w, h) && IsErosion(f, e, w, h)
    ensures (forall x, y :: On(d, w, h, x, y) <==> On(f, w, h, x, y)) <==> ClosingAgrees(m, w, h)
  {
    hide On, InSquare, Surrounded, Inside, IsErosion, IsDilation;
    OpenedTwice(m, a, b, c, d, w, h);
    forall x, y ensures On(f, w, h, x, y) <==> Inside(w, h, x, y, 2) && Surrounded(m, w, h, x, y) {
      ClosedAt(m, a, b, e, f, w, h, x, y);
    }
    forall x, y | InSquare(m, w, h, x, y) ensures Surrounded(m, w, h, x, y) {
      InSquareIsSurrounded(m, w, h, x, y);
    }
  }

  /** It differs: on five by five set pixels the code keeps the pixel at (1, 1), closing clears it. */
  lemma NotOpenThenClose(a: seq<bool>, b: seq<bool>, c: seq<bool>, d: seq<bool>, e: seq<bool>, f: seq<bool>)
    requires IsErosion(a, seq(25, _ => true), 5, 5) && IsDilation(b, a, 5, 5)
    requires IsErosion(c, b, 5, 5) && IsDilation(d, c, 5, 5)
    requires IsDilation(e, b, 5, 5) && IsErosion(f, e, 5, 5)
    ensures On(d, 5, 5, 1, 1) && !On(f, 5, 5, 1, 1)
  {
    var m := seq(25, _ => true);
    forall u, v | Near(2, 2, u, v) ensures On(m, 5, 5, u, v) {
      IndexInRange(u, v, 5, 5);
    }
    assert Near(1, 1, 2, 2) && Inside(5, 5, 2, 2, 2) && Block(m, 5, 5, 2, 2);
    OpenedTwice(m, a, b, c, d, 5, 5);
    ClosedAt(m, a, b, e, f, 5, 5, 1, 1);
  }

  /** So the filter only clears pixels, and filtering again changes nothing. */
  lemma FilterIsStable(m: seq<bool>, r: seq<bool>, w: nat, h: nat, x: int, y: int)
    requires |m| == |r| == w * h
    requires forall u, v :: On(r, w, h, u, v) <==> InSquare(m, w, h, u, v)
    ensures On(r, w, h, x, y) ==> On(m, w, h, x, y)
    ensures InSquare(r, w, h, x, y) <==> On(r, w, h, x, y)
  {
    if InSquare(m, w, h, x, y) {
      var u, v :| Near(x, y, u, v) && Inside(w, h, u, v, 2) && Block(m, w, h, u, v);
      assert Near(u, v, x, y);
      forall p, q | Near(u, v, p, q) ensures On(r, w, h, p, q) {
        assert Near(p, q, u, v);
      }
    }
    if InSquare(r, w, h, x, y) {
      var u, v :| Near(x, y, u, v) && Inside(w, h, u, v, 2) && Block(r, w, h, u, v);
      assert Near(u, v, x, y);
    }
  }
}
