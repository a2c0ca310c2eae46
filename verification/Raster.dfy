/** Zone masks: the scanline polygon fill equals the even-odd test of every pixel. Coordinates
    are reals. */
module Raster {
  import opened Options
  import opened Pixels

  datatype Point = Point(x: real, y: real)

  // ---- the reference: the even-odd rule ----------------------------------------------------

  /** The edge from a to b crosses the horizontal line at ny, lower end included. */
  predicate Crosses(a: Point, b: Point, ny: real) {
    (a.y <= ny && b.y > ny) || (b.y <= ny && a.y > ny)
  }

  /** Twice the signed area of the triangle a, b, (px, ny): which side of the edge the point lies on. */
  function Cross(a: Point, b: Point, px: real, ny: real): real {
    (b.x - a.x) * (ny - a.y) - (px - a.x) * (b.y - a.y)
  }

  /** The edge crosses the line at ny strictly left of px: an edge that goes up has the point on the one side, one
      that goes down on the other. */
  predicate PassesLeft(a: Point, b: Point, px: real, ny: real) {
    Crosses(a, b, ny) && if b.y > a.y then Cross(a, b, px, ny) < 0.0 else Cross(a, b, px, ny) > 0.0
  }

  /** The outline is closed: after the last vertex comes the first. */
  function Vertex(poly: seq<Point>, n: nat): Point
    requires n <= |poly| && poly != []
  {
    if n < |poly| then poly[n] else poly[0]
  }

  /** How many of the first n edges cross the line at ny strictly left of px. */
  function CrossedLeft(poly: seq<Point>, n: nat, px: real, ny: real): nat
    requires n <= |poly|
  {
    if n == 0 then 0
    else
      var a, b := poly[n - 1], Vertex(poly, n);
      CrossedLeft(poly, n - 1, px, ny) + if PassesLeft(a, b, px, ny) then 1 else 0
  }

  /** The even-odd rule: a ray from the point to the left meets the outline an odd number of times. */
  predicate EvenOdd(poly: seq<Point>, px: real, ny: real) {
    CrossedLeft(poly, |poly|, px, ny) % 2 == 1
  }

  /** The sample point of a pixel: half-way down its row, at its right edge. */
  predicate Covered(poly: seq<Point>, x: nat, y: nat, w: nat, h: nat)
    requires w > 0 && h > 0
  {
    EvenOdd(poly, (x + 1) as real / w as real, (y as real + 0.5) / h as real)
  }

  // ---- the crossings of one scanline -------------------------------------------------------

  function CrossingX(a: Point, b: Point, ny: real): real
    requires Crosses(a, b, ny)
  {
    a.x + (ny - a.y) / (b.y - a.y) * (b.x - a.x)
  }

  lemma Associates(t: real, e: real, d: real)
    ensures t * e * d == t * d * e
  {
  }

  /** The crossing lies on the line through the edge. */
  lemma CrossingIsOnTheEdge(a: Point, b: Point, ny: real)
    requires Crosses(a, b, ny)
    ensures (CrossingX(a, b, ny) - a.x) * (b.y - a.y) == (ny - a.y) * (b.x - a.x)
  {
    var t, d, e := (ny - a.y) / (b.y - a.y), b.y - a.y, b.x - a.x;
    assert t * d == ny - a.y;
    Associates(t, e, d);
    assert CrossingX(a, b, ny) - a.x == t * e;
  }

  lemma SignOfProduct(x: real, d: real)
    ensures d > 0.0 ==> (x * d > 0.0 <==> x > 0.0)
    ensures d < 0.0 ==> (x * d < 0.0 <==> x > 0.0)
  {
  }

  lemma Sides(x: real, y: real, d: real, cross: real)
    requires d != 0.0 && cross == y * d - x * d
    ensures y < x <==> if d > 0.0 then cross < 0.0 else cross > 0.0
  {
    var z := x - y;
    assert cross == -(z * d);
    SignOfProduct(z, d);
  }

  lemma CrossAtTheEdge(u: real, e: real, v: real, x: real, d: real)
    requires v == u * e
    ensures e * u - x * d == v - x * d
  {
  }

  lemma CrossIs(a: Point, b: Point, px: real, ny: real)
    requires Crosses(a, b, ny)
    ensures Cross(a, b, px, ny) == (CrossingX(a, b, ny) - a.x) * (b.y - a.y) - (px - a.x) * (b.y - a.y)
  {
    hide CrossingX;
    CrossingIsOnTheEdge(a, b, ny);
    CrossAtTheEdge(ny - a.y, b.x - a.x, (CrossingX(a, b, ny) - a.x) * (b.y - a.y), px - a.x, b.y - a.y);
  }

  /** So it is left of a point exactly when the edge passes the point on the left. */
  lemma CrossingLeftOf(a: Point, b: Point, px: real, ny: real)
    requires Crosses(a, b, ny)
    ensures CrossingX(a, b, ny) < px <==> PassesLeft(a, b, px, ny)
  {
    hide CrossingX, Cross;
    CrossIs(a, b, px, ny);
    Sides(px - a.x, CrossingX(a, b, ny) - a.x, b.y - a.y, Cross(a, b, px, ny));
  }

  /** The crossings of the first n edges, in edge order. */
  function Crossings(poly: seq<Point>, n: nat, ny: real): seq<real>
    requires n <= |poly|
  {
    if n == 0 then []
    else
      var a, b := poly[n - 1], Vertex(poly, n);
      Crossings(poly, n - 1, ny) + if Crosses(a, b, ny) then [CrossingX(a, b, ny)] else []
  }

  /** Walking along the outline changes sides at every crossing. */
  lemma {:induction false} SidesAlternate(poly: seq<Point>, n: nat, ny: real)
    requires 0 < |poly| && n <= |poly|
    ensures |Crossings(poly, n, ny)| % 2 == 0 <==> (poly[0].y <= ny <==> Vertex(poly, n).y <= ny)
  {
    if n > 0 {
      SidesAlternate(poly, n - 1, ny);
    }
  }

  /** A closed outline meets every scanline an even number of times. */
  lemma CrossingsAreEven(poly: seq<Point>, ny: real)
    ensures |Crossings(poly, |poly|, ny)| % 2 == 0
  {
    if poly != [] {
      SidesAlternate(poly, |poly|, ny);
    }
  }

  // ---- truncated columns -------------------------------------------------------------------

  /** int(r) of a float: toward zero. */
  function Trunc(r: real): int {
    if r >= 0.0 then r.Floor else -(-r).Floor
  }

  function Column(x: real, w: nat): int {
    Trunc(x * w as real)
  }

  /** How many crossings have their column at or left of x. */
  function CountUpTo(xs: seq<real>, w: nat, x: int): nat {
    if xs == [] then 0
    else CountUpTo(xs[..|xs| - 1], w, x) + if Column(xs[|xs| - 1], w) <= x then 1 else 0
  }

  lemma ScaledBelow(c: real, w: nat, x: nat)
    requires w > 0
    ensures c * w as real < (x + 1) as real <==> c < (x + 1) as real / w as real
  {
    var q := (x + 1) as real / w as real;
    assert q * w as real == (x + 1) as real;
    if c < q {
      assert c * w as real < q * w as real;
    } else {
      assert c * w as real >= q * w as real;
    }
  }

  lemma ColumnBelow(c: real, w: nat, x: nat)
    requires w > 0
    ensures Column(c, w) <= x <==> c < (x + 1) as real / w as real
  {
    ScaledBelow(c, w, x);
  }

  lemma {:induction false} CountIsCrossedLeft(poly: seq<Point>, n: nat, ny: real, w: nat, x: nat)
    requires n <= |poly| && w > 0
    ensures CountUpTo(Crossings(poly, n, ny), w, x)
            == CrossedLeft(poly, n, (x + 1) as real / w as real, ny)
  {
    if n > 0 {
      var a, b := poly[n - 1], Vertex(poly, n);
      var init := Crossings(poly, n - 1, ny);
      CountIsCrossedLeft(poly, n - 1, ny, w, x);
      if Crosses(a, b, ny) {
        var c := CrossingX(a, b, ny);
        ColumnBelow(c, w, x);
        CrossingLeftOf(a, b, (x + 1) as real / w as real, ny);
        assert (init + [c])[..|init|] == init;
      } else {
        assert init + [] == init;
      }
    }
  }

  // ---- sorting -----------------------------------------------------------------------------

  predicate Sorted(xs: seq<real>) {
    forall i, j :: 0 <= i < j < |xs| ==> xs[i] <= xs[j]
  }

  function Insert(v: real, xs: seq<real>): (out: seq<real>)
    requires Sorted(xs)
    ensures Sorted(out) && |out| == |xs| + 1
    ensures out[|xs|] == if xs == [] || xs[|xs| - 1] <= v then v else xs[|xs| - 1]
  {
    if xs == [] || xs[|xs| - 1] <= v then xs + [v]
    else Insert(v, xs[..|xs| - 1]) + [xs[|xs| - 1]]
  }

  /** The library sort of a scanline's crossings. */
  function SortFloats(xs: seq<real>): (out: seq<real>)
    ensures Sorted(out) && |out| == |xs|
  {
    if xs == [] then [] else Insert(xs[|xs| - 1], SortFloats(xs[..|xs| - 1]))
  }

  lemma CountSnoc(xs: seq<real>, v: real, w: nat, x: int)
    ensures CountUpTo(xs + [v], w, x) == CountUpTo(xs, w, x) + if Column(v, w) <= x then 1 else 0
  {
    assert (xs + [v])[..|xs|] == xs;
  }

  lemma SortedPrefix(xs: seq<real>)
    requires Sorted(xs) && xs != []
    ensures Sorted(xs[..|xs| - 1])
  {
  }

  lemma InsertLast(v: real, xs: seq<real>)
    requires Sorted(xs) && (xs == [] || xs[|xs| - 1] <= v)
    ensures Insert(v, xs) == xs + [v]
  {
  }

  lemma InsertBefore(v: real, xs: seq<real>)
    requires Sorted(xs) && xs != [] && xs[|xs| - 1] > v
    ensures Insert(v, xs) == Insert(v, xs[..|xs| - 1]) + [xs[|xs| - 1]]
  {
  }

  lemma {:induction false} CountInsert(v: real, xs: seq<real>, w: nat, x: int)
    requires Sorted(xs)
    ensures CountUpTo(Insert(v, xs), w, x) == CountUpTo(xs + [v], w, x)
    decreases |xs|
  {
    hide Column, Insert, Sorted;
    CountSnoc(xs, v, w, x);
    if xs != [] && xs[|xs| - 1] > v {
      var init, last := xs[..|xs| - 1], xs[|xs| - 1];
      SortedPrefix(xs);
      CountInsert(v, init, w, x);
      InsertBefore(v, xs);
      CountSnoc(init, v, w, x);
      CountSnoc(Insert(v, init), last, w, x);
    } else {
      InsertLast(v, xs);
    }
  }

  lemma {:induction false} CountSorted(xs: seq<real>, w: nat, x: int)
    ensures CountUpTo(SortFloats(xs), w, x) == CountUpTo(xs, w, x)
    decreases |xs|
  {
    if xs != [] {
      var init, last := xs[..|xs| - 1], xs[|xs| - 1];
      CountSorted(init, w, x);
      CountInsert(last, SortFloats(init), w, x);
      CountSnoc(SortFloats(init), last, w, x);
    }
  }

  // ---- the paired fill ---------------------------------------------------------------------

  /** One of the first n/2 pairs of crossings spans column x. */
  predicate InPairs(xs: seq<real>, n: nat, w: nat, x: int)
    requires n <= |xs|
  {
    n >= 2 && (InPairs(xs, n - 2, w, x) || Column(xs[n - 2], w) <= x < Column(xs[n - 1], w))
  }

  lemma TruncMonotone(a: real, b: real)
    requires a <= b
    ensures Trunc(a) <= Trunc(b)
  {
  }

  lemma ColumnMonotone(a: real, b: real, w: nat)
    requires a <= b
    ensures Column(a, w) <= Column(b, w)
  {
    var k := w as real;
    assert k >= 0.0 && (b - a) * k >= 0.0;
    assert b * k == a * k + (b - a) * k;
    TruncMonotone(a * k, b * k);
  }

  lemma {:induction false} CountAll(xs: seq<real>, n: nat, w: nat, x: int)
    requires n <= |xs|
    requires forall i :: 0 <= i < n ==> Column(xs[i], w) <= x
    ensures CountUpTo(xs[..n], w, x) == n
  {
    if n > 0 {
      CountAll(xs, n - 1, w, x);
      assert xs[..n][..n - 1] == xs[..n - 1];
    }
  }

  lemma CountPair(xs: seq<real>, n: nat, w: nat, x: int)
    requires 2 <= n <= |xs|
    ensures CountUpTo(xs[..n], w, x) == CountUpTo(xs[..n - 2], w, x)
              + (if Column(xs[n - 2], w) <= x then 1 else 0) + (if Column(xs[n - 1], w) <= x then 1 else 0)
  {
    assert xs[..n][..n - 1] == xs[..n - 1];
    assert xs[..n - 1][..n - 2] == xs[..n - 2];
  }

  /** For sorted crossings, being inside one of the pairs is having an odd number to the left. */
  lemma {:induction false} PairsAreParity(xs: seq<real>, n: nat, w: nat, x: int)
    requires Sorted(xs) && n <= |xs| && n % 2 == 0
    ensures InPairs(xs, n, w, x) <==> CountUpTo(xs[..n], w, x) % 2 == 1
  {
    if n >= 2 {
      PairsAreParity(xs, n - 2, w, x);
      CountPair(xs, n, w, x);
      ColumnMonotone(xs[n - 2], xs[n - 1], w);
      if Column(xs[n - 2], w) <= x {
        forall i | 0 <= i < n - 2 ensures Column(xs[i], w) <= x {
          ColumnMonotone(xs[i], xs[n - 2], w);
        }
        CountAll(xs, n - 2, w, x);
      }
    }
  }

  /** The paired fill of the sorted crossings is the even-odd rule. */
  lemma FillIsEvenOdd(poly: seq<Point>, x: nat, y: nat, w: nat, h: nat)
    requires w > 0 && h > 0
    ensures var ny := (y as real + 0.5) / h as real;
      var xs := SortFloats(Crossings(poly, |poly|, ny));
      InPairs(xs, |xs|, w, x) <==> Covered(poly, x, y, w, h)
  {
    var ny := (y as real + 0.5) / h as real;
    var raw := Crossings(poly, |poly|, ny);
    var xs := SortFloats(raw);
    CrossingsAreEven(poly, ny);
    PairsAreParity(xs, |xs|, w, x);
    assert xs[..|xs|] == xs;
    CountSorted(raw, w, x);
    CountIsCrossedLeft(poly, |poly|, ny, w, x);
  }

  // ---- a rectangle -------------------------------------------------------------------------

  function Rectangle(x0: real, y0: real, x1: real, y1: real): seq<Point> {
    [Point(x0, y0), Point(x1, y0), Point(x1, y1), Point(x0, y1)]
  }

  lemma LevelEdge(a: Point, b: Point, px: real, ny: real)
    requires a.y == b.y
    ensures !PassesLeft(a, b, px, ny)
  {
  }

  lemma UprightEdge(a: Point, b: Point, px: real, ny: real)
    requires a.x == b.x
    ensures PassesLeft(a, b, px, ny) <==> Crosses(a, b, ny) && a.x < px
  {
    assert Cross(a, b, px, ny) == (a.x - px) * (b.y - a.y);
    if b.y > a.y {
      SignOfProduct(px - a.x, b.y - a.y);
    } else if b.y < a.y {
      SignOfProduct(px - a.x, b.y - a.y);
    }
  }

  /** An upright rectangle covers exactly the pixels whose sample point it holds, the sides at x1 and y0 included,
      those at x0 and y1 not. */
  lemma RectangleIsFilled(x0: real, y0: real, x1: real, y1: real, x: nat, y: nat, w: nat, h: nat)
    requires x0 < x1 && y0 < y1 && w > 0 && h > 0
    ensures var px, ny := (x + 1) as real / w as real, (y as real + 0.5) / h as real;
      Covered(Rectangle(x0, y0, x1, y1), x, y, w, h) <==> x0 < px <= x1 && y0 <= ny < y1
  {
    hide PassesLeft, Cross;
    var poly := Rectangle(x0, y0, x1, y1);
    var px, ny := (x + 1) as real / w as real, (y as real + 0.5) / h as real;
    LevelEdge(poly[0], poly[1], px, ny);
    UprightEdge(poly[1], poly[2], px, ny);
    LevelEdge(poly[2], poly[3], px, ny);
    UprightEdge(poly[3], poly[0], px, ny);
    assert CrossedLeft(poly, 0, px, ny) == 0;
    assert CrossedLeft(poly, 1, px, ny) == 0;
    assert CrossedLeft(poly, 2, px, ny) == if y0 <= ny < y1 && x1 < px then 1 else 0;
    assert CrossedLeft(poly, 3, px, ny) == CrossedLeft(poly, 2, px, ny);
    assert CrossedLeft(poly, 4, px, ny)
      == CrossedLeft(poly, 3, px, ny) + if y0 <= ny < y1 && x0 < px then 1 else 0;
  }

  // ---- the loops ---------------------------------------------------------------------------

  lemma NextVertex(poly: seq<Point>, i: nat)
    requires i < |poly|
    ensures (i + 1) % |poly| < |poly| && poly[(i + 1) % |poly|] == Vertex(poly, i + 1)
  {
    if i + 1 < |poly| {
      assert (i + 1) % |poly| == i + 1;
    }
  }

  /** The crossings of one scanline, sorted. */
  method Scan(poly: seq<Point>, ny: real) returns (xs: seq<real>)
    ensures xs == SortFloats(Crossings(poly, |poly|, ny))
  {
    xs := [];
    for i := 0 to |poly|
      invariant xs == Crossings(poly, i, ny)
    {
      var a := poly[i];
      var b := poly[(i + 1) % |poly|];
      NextVertex(poly, i);
      if (a.y <= ny && b.y > ny) || (b.y <= ny && a.y > ny) {
        var t := (ny - a.y) / (b.y - a.y);
        assert CrossingX(a, b, ny) == a.x + t * (b.x - a.x);
        xs := xs + [a.x + t * (b.x - a.x)];
      } else {
        assert xs + [] == xs;
      }
    }
    xs := SortFloats(xs);
  }

  /** Sets the pixels of the row at offset `row` from column lo up to hi, clipped to the row. */
  method FillSpan(mask: array<bool>, row: nat, w: nat, lo: int, hi: int)
    requires row + w <= mask.Length
    modifies mask
    ensures forall k :: 0 <= k < mask.Length ==>
      mask[k] == (old(mask[k]) || (row <= k < row + w && lo <= k - row < hi))
  {
    var x := lo;
    while x < hi && x < w
      invariant lo <= x && (x == lo || x <= hi)
      invariant forall k :: 0 <= k < mask.Length ==>
        mask[k] == (old(mask[k]) || (row <= k < row + w && lo <= k - row < x))
      decreases w - x
    {
      if x >= 0 {
        mask[row + x] := true;
      }
      x := x + 1;
    }
  }

  /** Row n has been filled between the pairs of its sorted crossings. */
  ghost predicate RowDone(mid: seq<bool>, after: seq<bool>, row: nat, w: nat, xs: seq<real>) {
    && |after| == |mid|
    && forall k :: 0 <= k < |mid| ==>
         after[k] == (mid[k] || (row <= k < row + w && InPairs(xs, |xs|, w, k - row)))
  }

  /** Fills one row between the pairs of its crossings. */
  method FillRow(mask: array<bool>, row: nat, w: nat, xs: seq<real>)
    requires row + w <= mask.Length && |xs| % 2 == 0 && Sorted(xs)
    modifies mask
    ensures RowDone(old(mask[..]), mask[..], row, w, xs)
  {
    var i := 0;
    while i + 1 < |xs|
      invariant 0 <= i <= |xs| && i % 2 == 0
      invariant forall k :: 0 <= k < mask.Length ==>
        mask[k] == (old(mask[k]) || (row <= k < row + w && InPairs(xs, i, w, k - row)))
    {
      var x0, x1 := xs[i], xs[i + 1];
      if x0 > x1 {
        x0, x1 := x1, x0;
      }
      FillSpan(mask, row, w, Column(x0, w), Column(x1, w));
      i := i + 2;
    }
  }

  ghost predicate PixelFilled(before: seq<bool>, after: seq<bool>, poly: seq<Point>,
                              x: nat, y: nat, w: nat, h: nat, n: nat)
    requires w > 0 && h > 0
  {
    var i := Index(x, y, w);
    && i < |before| && i < |after|
    && after[i] == (before[i] || (y < n && Covered(poly, x, y, w, h)))
  }

  /** What a mask says before and after a polygon has been filled into its first n rows. */
  ghost predicate Filled(before: seq<bool>, after: seq<bool>, poly: seq<Point>, w: nat, h: nat, n: nat) {
    && |before| == |after| == w * h
    && forall x: nat, y: nat :: x < w && y < h ==> PixelFilled(before, after, poly, x, y, w, h, n)
  }

  lemma NothingFilled(mask: seq<bool>, poly: seq<Point>, w: nat, h: nat)
    requires |mask| == w * h
    ensures Filled(mask, mask, poly, w, h, 0)
  {
    forall x: nat, y: nat | x < w && y < h ensures PixelFilled(mask, mask, poly, x, y, w, h, 0) {
      IndexInRange(x, y, w, h);
    }
  }

  lemma PixelOfRow(before: seq<bool>, mid: seq<bool>, after: seq<bool>, poly: seq<Point>, w: nat, h: nat, n: nat,
                   xs: seq<real>, x: nat, y: nat)
    requires n < h && x < w && y < h && |before| == |mid| == |after| == w * h
    requires PixelFilled(before, mid, poly, x, y, w, h, n)
    requires xs == SortFloats(Crossings(poly, |poly|, (n as real + 0.5) / h as real))
    requires RowDone(mid, after, n * w, w, xs)
    ensures PixelFilled(before, after, poly, x, y, w, h, n + 1)
  {
    hide InPairs, Covered, SortFloats, Crossings;
    if y == n {
      FillIsEvenOdd(poly, x, y, w, h);
    } else if n * w <= Index(x, y, w) < n * w + w {
      RowsAreApart(Index(x, y, w) - n * w, n, x, y, w);
      assert false;
    }
  }

  lemma RowFilled(before: seq<bool>, mid: seq<bool>, after: seq<bool>, poly: seq<Point>, w: nat, h: nat, n: nat,
                  xs: seq<real>)
    requires n < h && Filled(before, mid, poly, w, h, n)
    requires xs == SortFloats(Crossings(poly, |poly|, (n as real + 0.5) / h as real))
    requires RowDone(mid, after, n * w, w, xs)
    ensures Filled(before, after, poly, w, h, n + 1)
  {
    hide PixelFilled, SortFloats, Crossings, InPairs;
    var done := n + 1;
    forall x: nat, y: nat | x < w && y < h ensures PixelFilled(before, after, poly, x, y, w, h, done) {
      assert PixelFilled(before, mid, poly, x, y, w, h, n);
      PixelOfRow(before, mid, after, poly, w, h, n, xs, x, y);
    }
  }

  /** Fills a polygon into the mask: a pixel is set exactly when it was set before or the even-odd
      rule covers it. */
  method Rasterize(mask: array<bool>, poly: seq<Point>, w: nat, h: nat)
    requires mask.Length == w * h
    modifies mask
    ensures Filled(old(mask[..]), mask[..], poly, w, h, h)
  {
    hide Filled, RowDone, SortFloats, Crossings;
    ghost var before := mask[..];
    NothingFilled(before, poly, w, h);
    for y := 0 to h
      invariant Filled(before, mask[..], poly, w, h, y)
    {
      var ny := (y as real + 0.5) / h as real;
      var xs := Scan(poly, ny);
      CrossingsAreEven(poly, ny);
      assert y * w + w <= mask.Length by { assert (y + 1) * w <= h * w; }
      ghost var mid := mask[..];
      FillRow(mask, y * w, w, xs);
      RowFilled(before, mid, mask[..], poly, w, h, y, xs);
    }
  }

  // ---- zones -------------------------------------------------------------------------------

  datatype Zone = Zone(polygon: seq<Point>, mode: string)

  predicate Usable(z: Zone) {
    |z.polygon| >= 3
  }

  predicate Excludes(z: Zone) {
    z.mode == "exclude"
  }

  /** Some usable zone of the given class among the first n covers the pixel. */
  predicate ZoneCovers(zones: seq<Zone>, n: nat, excl: bool, x: nat, y: nat, w: nat, h: nat)
    requires n <= |zones| && w > 0 && h > 0
  {
    exists i :: 0 <= i < n && Usable(zones[i]) && Excludes(zones[i]) == excl
                && Covered(zones[i].polygon, x, y, w, h)
  }

  predicate HasZone(zones: seq<Zone>, n: nat, excl: bool)
    requires n <= |zones|
  {
    exists i :: 0 <= i < n && Usable(zones[i]) && Excludes(zones[i]) == excl
  }

  /** A mask slice, nil included. */
  function Contents(mask: array?<bool>): Option<seq<bool>>
    reads mask
  {
    if mask == null then None else Some(mask[..])
  }

  ghost predicate MaskAt(mask: seq<bool>, zones: seq<Zone>, n: nat, excl: bool, x: nat, y: nat, w: nat, h: nat)
    requires n <= |zones| && w > 0 && h > 0
  {
    Index(x, y, w) < |mask| && mask[Index(x, y, w)] == ZoneCovers(zones, n, excl, x, y, w, h)
  }

  /** The mask of a class: absent without usable zones of the class, otherwise their union. */
  ghost predicate MaskIs(mask: Option<seq<bool>>, zones: seq<Zone>, n: nat, excl: bool, w: nat, h: nat)
    requires n <= |zones| && w > 0 && h > 0
  {
    && (mask.None? <==> !HasZone(zones, n, excl))
    && (mask.Some? ==> |mask.value| == w * h)
    && (mask.Some? ==> forall x: nat, y: nat :: x < w && y < h ==> MaskAt(mask.value, zones, n, excl, x, y, w, h))
  }

  lemma CoversNext(zones: seq<Zone>, n: nat, excl: bool, x: nat, y: nat, w: nat, h: nat)
    requires n < |zones| && w > 0 && h > 0
    ensures ZoneCovers(zones, n + 1, excl, x, y, w, h)
            <==> ZoneCovers(zones, n, excl, x, y, w, h)
                 || (Usable(zones[n]) && Excludes(zones[n]) == excl && Covered(zones[n].polygon, x, y, w, h))
    ensures HasZone(zones, n + 1, excl)
            <==> HasZone(zones, n, excl) || (Usable(zones[n]) && Excludes(zones[n]) == excl)
  {
    hide Covered, Excludes;
  }

  lemma UnconcernedZone(mask: Option<seq<bool>>, zones: seq<Zone>, n: nat, excl: bool, w: nat, h: nat)
    requires n < |zones| && w > 0 && h > 0 && MaskIs(mask, zones, n, excl, w, h)
    requires !Usable(zones[n]) || Excludes(zones[n]) != excl
    ensures MaskIs(mask, zones, n + 1, excl, w, h)
  {
    hide ZoneCovers, HasZone;
    CoversNext(zones, n, excl, 0, 0, w, h);
    if mask.Some? {
      var done := n + 1;
      forall x: nat, y: nat | x < w && y < h ensures MaskAt(mask.value, zones, done, excl, x, y, w, h) {
        assert MaskAt(mask.value, zones, n, excl, x, y, w, h);
        CoversNext(zones, n, excl, x, y, w, h);
      }
    }
  }

  lemma NoZoneCoversNothing(zones: seq<Zone>, n: nat, excl: bool, x: nat, y: nat, w: nat, h: nat)
    requires n <= |zones| && w > 0 && h > 0 && !HasZone(zones, n, excl)
    ensures !ZoneCovers(zones, n, excl, x, y, w, h)
  {
    hide Covered;
  }

  lemma ConcernedZone(mask: Option<seq<bool>>, zone: seq<bool>, blank: seq<bool>, merged: seq<bool>,
                      zones: seq<Zone>, n: nat, excl: bool, w: nat, h: nat)
    requires n < |zones| && w > 0 && h > 0 && MaskIs(mask, zones, n, excl, w, h)
    requires Usable(zones[n]) && Excludes(zones[n]) == excl
    requires Filled(blank, zone, zones[n].polygon, w, h, h) && forall i :: 0 <= i < |blank| ==> !blank[i]
    requires |merged| == |zone|
    requires forall i :: 0 <= i < |zone| ==> merged[i] == ((mask.Some? && i < |mask.value| && mask.value[i]) || zone[i])
    ensures MaskIs(Some(merged), zones, n + 1, excl, w, h)
  {
    hide ZoneCovers, HasZone, Covered;
    CoversNext(zones, n, excl, 0, 0, w, h);
    var done := n + 1;
    forall x: nat, y: nat | x < w && y < h ensures MaskAt(merged, zones, done, excl, x, y, w, h) {
      assert PixelFilled(blank, zone, zones[n].polygon, x, y, w, h, h);
      CoversNext(zones, n, excl, x, y, w, h);
      if mask.Some? {
        assert MaskAt(mask.value, zones, n, excl, x, y, w, h);
      } else {
        NoZoneCoversNothing(zones, n, excl, x, y, w, h);
      }
    }
  }

  /** dst |= src */
  method Or(dst: array<bool>, src: array<bool>)
    requires dst.Length == src.Length && dst != src
    modifies dst
    ensures forall i :: 0 <= i < dst.Length ==> dst[i] == (old(dst[i]) || src[i])
  {
    for i := 0 to dst.Length
      invariant forall k :: 0 <= k < i ==> dst[k] == (old(dst[k]) || src[k])
      invariant forall k :: i <= k < dst.Length ==> dst[k] == old(dst[k])
    {
      dst[i] := dst[i] || src[i];
    }
  }

  lemma MasksStartNil(zones: seq<Zone>, w: nat, h: nat)
    requires w > 0 && h > 0
    ensures MaskIs(None, zones, 0, false, w, h) && MaskIs(None, zones, 0, true, w, h)
  {
  }

  /** The include and exclude masks at the detection resolution, nil when a class has no zone. */
  method BuildMasks(zones: seq<Zone>, w: nat, h: nat) returns (incl: array?<bool>, excl: array?<bool>)
    requires w > 0 && h > 0
    ensures MaskIs(Contents(incl), zones, |zones|, false, w, h)
    ensures MaskIs(Contents(excl), zones, |zones|, true, w, h)
  {
    hide MaskIs, Filled;
    incl, excl := null, null;
    MasksStartNil(zones, w, h);
    for i := 0 to |zones|
      invariant incl != null ==> fresh(incl) && incl.Length == w * h
      invariant excl != null ==> fresh(excl) && excl.Length == w * h
      invariant incl != null && excl != null ==> incl != excl
      invariant MaskIs(Contents(incl), zones, i, false, w, h)
      invariant MaskIs(Contents(excl), zones, i, true, w, h)
    {
      var z := zones[i];
      if |z.polygon| < 3 {
        UnconcernedZone(Contents(incl), zones, i, false, w, h);
        UnconcernedZone(Contents(excl), zones, i, true, w, h);
        continue;
      }
      var mask := new bool[w * h](_ => false);
      ghost var blank := mask[..];
      Rasterize(mask, z.polygon, w, h);
      if z.mode == "exclude" {
        UnconcernedZone(Contents(incl), zones, i, false, w, h);
        ghost var was := Contents(excl);
        if excl == null {
          excl := new bool[w * h](_ => false);
        }
        Or(excl, mask);
        ConcernedZone(was, mask[..], blank, excl[..], zones, i, true, w, h);
      } else {
        UnconcernedZone(Contents(excl), zones, i, true, w, h);
        ghost var was := Contents(incl);
        if incl == null {
          incl := new bool[w * h](_ => false);
        }
        Or(incl, mask);
        ConcernedZone(was, mask[..], blank, incl[..], zones, i, false, w, h);
      }
    }
  }
}
