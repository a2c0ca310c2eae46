/** Row-major pixel addressing. */
module Pixels {
  /** Pixels are stored row by row. */
  function Index(x: nat, y: nat, w: nat): nat {
    y * w + x
  }

  lemma IndexInRange(x: nat, y: nat, w: nat, h: nat)
    requires x < w && y < h
    ensures Index(x, y, w) < w * h
  {
    assert (y + 1) * w <= h * w;
  }

  lemma RowsAreApart(x: nat, y: nat, x': nat, y': nat, w: nat)
    requires x < w && x' < w && y != y'
    ensures Index(x, y, w) != Index(x', y', w)
  {
    if y < y' {
      assert (y + 1) * w <= y' * w;
    } else {
      assert (y' + 1) * w <= y * w;
    }
  }
}
