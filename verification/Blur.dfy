/** The separable 3x3 box blur of the motion engine against the direct blur: no cast truncates, and
    no pixel, borders included, is off by more than one. */
module Blur {
  import opened MachineInts
  import opened Pixels

  /** uint16(x) */
  function ToUint16(x: int): int {
    if 0 <= x < 0x1_0000 then x else x % 0x1_0000
  }

  /** byte(x) */
  function ToByte(x: int): byte {
    if 0 <= x < 256 then x else x % 256
  }

  /** A pixel of the row at offset `row`, zero beyond its ends. */
  function RowPixel(img: seq<byte>, row: nat, w: nat, x: int): int
    requires row + w <= |img|
  {
    if 0 <= x < w then img[row + x] else 0
  }

  function RowPixels(img: seq<byte>, row: nat, w: nat, x: int): int
    requires row + w <= |img|
  {
    RowPixel(img, row, w, x - 1) + RowPixel(img, row, w, x) + RowPixel(img, row, w, x + 1)
  }

  lemma RowFits(y: nat, w: nat, h: nat)
    requires y < h
    ensures y * w + w <= w * h
  {
    assert (y + 1) * w <= h * w;
  }

  /** Three neighbouring pixels of row y, zero above and below the plane. */
  function RowSum(img: seq<byte>, w: nat, h: nat, x: int, y: int): (sum: int)
    requires |img| == w * h
    ensures 0 <= sum <= 765
  {
    if 0 <= y < h then
      RowFits(y, w, h);
      RowPixels(img, y * w, w, x)
    else 0
  }

  /** The direct blur's sum over the 3x3 neighbourhood. */
  function Sum9(img: seq<byte>, w: nat, h: nat, x: int, y: int): int
    requires |img| == w * h
  {
    RowSum(img, w, h, x, y - 1) + RowSum(img, w, h, x, y) + RowSum(img, w, h, x, y + 1)
  }

  /** A pixel of the plane, zero outside it. */
  function PixelOf(img: seq<byte>, w: nat, h: nat, x: int, y: int): int
    requires |img| == w * h
  {
    if 0 <= x < w && 0 <= y < h then
      IndexInRange(x, y, w, h);
      img[Index(x, y, w)]
    else 0
  }

  lemma RowSumIsThree(img: seq<byte>, w: nat, h: nat, x: int, y: int)
    requires |img| == w * h
    ensures RowSum(img, w, h, x, y)
      == PixelOf(img, w, h, x - 1, y) + PixelOf(img, w, h, x, y) + PixelOf(img, w, h, x + 1, y)
  {
    if 0 <= y < h {
      RowFits(y, w, h);
    }
  }

  /** That sum is over the pixel and its eight neighbours, those outside the plane counting nothing. */
  lemma Sum9IsOfNine(img: seq<byte>, w: nat, h: nat, x: int, y: int)
    requires |img| == w * h
    ensures Sum9(img, w, h, x, y)
      == PixelOf(img, w, h, x - 1, y - 1) + PixelOf(img, w, h, x, y - 1) + PixelOf(img, w, h, x + 1, y - 1)
       + PixelOf(img, w, h, x - 1, y) + PixelOf(img, w, h, x, y) + PixelOf(img, w, h, x + 1, y)
       + PixelOf(img, w, h, x - 1, y + 1) + PixelOf(img, w, h, x, y + 1) + PixelOf(img, w, h, x + 1, y + 1)
  {
    hide RowSum, PixelOf;
    RowSumIsThree(img, w, h, x, y - 1);
    RowSumIsThree(img, w, h, x, y);
    RowSumIsThree(img, w, h, x, y + 1);
  }

  /** What the three row divisions drop. */
  function Dropped(img: seq<byte>, w: nat, h: nat, x: int, y: int): int
    requires |img| == w * h
  {
    RowSum(img, w, h, x, y - 1) % 3 + RowSum(img, w, h, x, y) % 3 + RowSum(img, w, h, x, y + 1) % 3
  }

  /** The separable blur of one pixel. */
  function Blurred(img: seq<byte>, w: nat, h: nat, x: int, y: int): int
    requires |img| == w * h
  {
    (RowSum(img, w, h, x, y - 1) / 3 + RowSum(img, w, h, x, y) / 3 + RowSum(img, w, h, x, y + 1) / 3) / 3
  }

  lemma DivideTwice(a: int, b: int, c: int)
    requires a >= 0 && b >= 0 && c >= 0
    ensures var s, d := a + b + c, a % 3 + b % 3 + c % 3;
      (a / 3 + b / 3 + c / 3) / 3 == if s % 9 >= d then s / 9 else s / 9 - 1
  {
    var n := a / 3 + b / 3 + c / 3;
    var s, d := a + b + c, a % 3 + b % 3 + c % 3;
    assert s == 3 * n + d && 0 <= d <= 6;
    var q := n / 3;
    assert 9 * q + d <= s <= 9 * q + d + 6;
  }

  /** The separable result is the direct one, or one less exactly when the remainders the row pass
      drops exceed the remainder of the direct division; it always fits a byte. */
  lemma BlurWithinOne(img: seq<byte>, w: nat, h: nat, x: int, y: int)
    requires |img| == w * h
    ensures var s, r := Sum9(img, w, h, x, y), Blurred(img, w, h, x, y);
      && (r == s / 9 || r == s / 9 - 1)
      && (r == s / 9 <==> s % 9 >= Dropped(img, w, h, x, y))
      && 0 <= r <= s / 9 <= 255
  {
    hide RowSum;
    DivideTwice(RowSum(img, w, h, x, y - 1), RowSum(img, w, h, x, y), RowSum(img, w, h, x, y + 1));
  }

  /** Being one less does happen. */
  lemma BlurCanBeOneLess()
    ensures Sum9([1, 0, 0, 8], 2, 2, 0, 0) / 9 == 1 && Blurred([1, 0, 0, 8], 2, 2, 0, 0) == 0
  {
  }

  // ---- the two passes ----------------------------------------------------------------------

  /** A row of the first pass. */
  ghost predicate RowSummed(img: seq<byte>, tmp: seq<int>, row: nat, w: nat)
    requires |img| == |tmp| && row + w <= |img|
  {
    forall x {:trigger RowPixels(img, row, w, x)} :: 0 <= x < w ==> tmp[row + x] == RowPixels(img, row, w, x) / 3
  }

  method SumRow(img: seq<byte>, tmp: array<int>, row: nat, w: nat)
    requires |img| == tmp.Length && row + w <= |img|
    modifies tmp
    ensures RowSummed(img, tmp[..], row, w)
    ensures forall k :: 0 <= k < tmp.Length && !(row <= k < row + w) ==> tmp[k] == old(tmp[k])
  {
    for x := 0 to w
      invariant forall i {:trigger RowPixels(img, row, w, i)} :: 0 <= i < x ==>
        tmp[row + i] == RowPixels(img, row, w, i) / 3
      invariant forall k :: 0 <= k < tmp.Length && !(row <= k < row + w) ==> tmp[k] == old(tmp[k])
    {
      var sum := ToUint16(img[row + x]);
      if x > 0 {
        sum := ToUint16(sum + img[row + x - 1]);
      }
      if x < w - 1 {
        sum := ToUint16(sum + img[row + x + 1]);
      }
      tmp[row + x] := sum / 3;
    }
  }

  /** An entry of the first pass one row up or down, zero outside the plane. */
  function Neighbour(tmp: seq<int>, k: int, present: bool): int {
    if present && 0 <= k < |tmp| then tmp[k] else 0
  }

  /** A row of the second pass. */
  ghost predicate RowBlurred(tmp: seq<int>, out: seq<byte>, row: nat, w: nat, up: bool, down: bool)
    requires |tmp| == |out| && row + w <= |out|
  {
    forall k :: row <= k < row + w ==>
      out[k] == (Neighbour(tmp, k - w, up) + tmp[k] + Neighbour(tmp, k + w, down)) / 3
  }

  method BlurRow(tmp: seq<int>, out: array<byte>, row: nat, w: nat, up: bool, down: bool)
    requires |tmp| == out.Length && row + w <= |tmp|
    requires up ==> w <= row
    requires down ==> row + 2 * w <= |tmp|
    requires forall k :: 0 <= k < |tmp| ==> 0 <= tmp[k] <= 255
    modifies out
    ensures RowBlurred(tmp, out[..], row, w, up, down)
    ensures forall k :: 0 <= k < out.Length && !(row <= k < row + w) ==> out[k] == old(out[k])
  {
    for x := 0 to w
      invariant forall k :: row <= k < row + x ==>
        out[k] == (Neighbour(tmp, k - w, up) + tmp[k] + Neighbour(tmp, k + w, down)) / 3
      invariant forall k :: 0 <= k < out.Length && !(row <= k < row + w) ==> out[k] == old(out[k])
    {
      var sum := ToUint16(tmp[row + x]);
      if up {
        sum := ToUint16(sum + tmp[row - w + x]);
      }
      if down {
        sum := ToUint16(sum + tmp[row + w + x]);
      }
      out[row + x] := ToByte(sum / 3);
    }
  }

  ghost predicate SummedAt(img: seq<byte>, tmp: seq<int>, w: nat, h: nat, y: nat)
    requires |img| == |tmp| == w * h && y < h
  {
    y * w + w <= |img| && RowSummed(img, tmp, y * w, w)
  }

  ghost predicate BlurredAt(tmp: seq<int>, out: seq<byte>, w: nat, h: nat, y: nat)
    requires |tmp| == |out| == w * h && y < h
  {
    y * w + w <= |out| && RowBlurred(tmp, out, y * w, w, y > 0, y < h - 1)
  }

  lemma RowsApart(y: nat, y': nat, w: nat)
    requires y < y'
    ensures y * w + w <= y' * w
  {
    assert (y + 1) * w <= y' * w;
  }

  /** The first pass over the plane. */
  method SumRows(img: seq<byte>, w: nat, h: nat) returns (tmp: seq<int>)
    requires |img| == w * h
    ensures |tmp| == |img|
    ensures forall y :: 0 <= y < h ==> SummedAt(img, tmp, w, h, y)
    ensures forall k :: 0 <= k < |tmp| ==> 0 <= tmp[k] <= 255
  {
    var a := new int[|img|](_ => 0);
    for y := 0 to h
      invariant forall y' :: 0 <= y' < y ==> SummedAt(img, a[..], w, h, y')
      invariant forall k :: 0 <= k < a.Length ==> 0 <= a[k] <= 255
    {
      ghost var before := a[..];
      RowFits(y, w, h);
      SumRow(img, a, y * w, w);
      forall y' | 0 <= y' < y ensures SummedAt(img, a[..], w, h, y') {
        assert SummedAt(img, before, w, h, y');
        RowsApart(y', y, w);
      }
      forall k | 0 <= k < a.Length ensures 0 <= a[k] <= 255 {
        if y * w <= k < y * w + w {
          assert a[..][y * w + (k - y * w)] == RowPixels(img, y * w, w, k - y * w) / 3;
        }
      }
    }
    tmp := a[..];
  }

  lemma SummedPixel(img: seq<byte>, tmp: seq<int>, w: nat, h: nat, x: nat, y: nat)
    requires |img| == |tmp| == w * h && x < w && y < h && SummedAt(img, tmp, w, h, y)
    ensures y * w + x < |tmp| && tmp[y * w + x] == RowSum(img, w, h, x, y) / 3
  {
    assert RowPixels(img, y * w, w, x) == RowSum(img, w, h, x, y);
  }

  lemma TwoPasses(img: seq<byte>, tmp: seq<int>, out: seq<byte>, w: nat, h: nat, x: nat, y: nat)
    requires |img| == |tmp| == |out| == w * h && x < w && y < h
    requires forall i :: 0 <= i < h ==> SummedAt(img, tmp, w, h, i)
    requires BlurredAt(tmp, out, w, h, y)
    ensures Index(x, y, w) < |img| && out[Index(x, y, w)] == Blurred(img, w, h, x, y)
  {
    hide RowPixels;
    var k := y * w + x;
    SummedPixel(img, tmp, w, h, x, y);
    if y > 0 {
      SummedPixel(img, tmp, w, h, x, y - 1);
      assert (y - 1) * w + x == k - w;
    }
    if y < h - 1 {
      SummedPixel(img, tmp, w, h, x, y + 1);
      assert (y + 1) * w + x == k + w;
    }
  }

  /** The blurred plane: every pixel is the separable blur of its neighbourhood. */
  method BoxBlur3(img: seq<byte>, w: nat, h: nat) returns (blurred: seq<byte>)
    requires |img| == w * h
    ensures |blurred| == |img|
    ensures forall x: nat, y: nat :: x < w && y < h ==>
      Index(x, y, w) < |img| && blurred[Index(x, y, w)] == Blurred(img, w, h, x, y)
  {
    var tmp := SumRows(img, w, h);
    var out := new byte[|img|](_ => 0);
    for y := 0 to h
      invariant forall y' :: 0 <= y' < y ==> BlurredAt(tmp, out[..], w, h, y')
    {
      ghost var before := out[..];
      RowFits(y, w, h);
      if y > 0 { RowsApart(y - 1, y, w); }
      if y < h - 1 { RowFits(y + 1, w, h); RowsApart(y, y + 1, w); }
      BlurRow(tmp, out, y * w, w, y > 0, y < h - 1);
      forall y' | 0 <= y' < y ensures BlurredAt(tmp, out[..], w, h, y') {
        assert BlurredAt(tmp, before, w, h, y');
        RowsApart(y', y, w);
      }
    }
    blurred := out[..];
    forall x: nat, y: nat | x < w && y < h
      ensures Index(x, y, w) < |img| && blurred[Index(x, y, w)] == Blurred(img, w, h, x, y)
    {
      TwoPasses(img, tmp, blurred, w, h, x, y);
    }
  }
}
