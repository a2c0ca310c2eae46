/** The first box of a type. */
module Mp4Search {
  import opened MachineInts
  import opened Mp4Boxes

  datatype Found = At(off: nat) | NotFound | Crash

  function FirstBox(d: bytes, off: nat, typ: nat): Found
    decreases |d| - off
  {
    if off + 8 > |d| then NotFound
    else
      var b := TopHeader(d, off, |d|);
      if b.Truncated? then NotFound
      else if b.typ == typ then At(off)
      else if b.size < b.hdr then NotFound
      else if Overflows(off, b.size) then Crash
      else FirstBox(d, off + b.size, typ)
  }

  /** The boxes lie back to back from lo to hi, none of this type. */
  ghost predicate Passed(d: bytes, lo: nat, boxes: seq<Box>, hi: nat, typ: nat)
    decreases boxes
  {
    if boxes == [] then lo == hi
    else
      && lo + 8 <= |d| && TopHeader(d, lo, |d|).Header?
      && var h := TopHeader(d, lo, |d|);
      && h.size >= h.hdr && h.typ != typ && !Overflows(lo, h.size)
      && boxes[0] == TopBox(d, lo, |d|)
      && Passed(d, lo + h.size, boxes[1..], hi, typ)
  }

  function SumSizes(boxes: seq<Box>): int {
    if boxes == [] then 0 else boxes[0].size + SumSizes(boxes[1..])
  }

  /** Whole boxes of other types, back to back, fill the bytes from lo to off. */
  ghost predicate Fills(d: bytes, lo: nat, off: nat, typ: nat) {
    exists boxes :: Passed(d, lo, boxes, off, typ) && off == lo + SumSizes(boxes)
  }

  /** A box of this type starts at off. */
  predicate Starts(d: bytes, off: nat, typ: nat) {
    off + 8 <= |d| && TopHeader(d, off, |d|).Header? && TopHeader(d, off, |d|).typ == typ
  }

  /** Behind boxes of other types the search is at their end. */
  lemma {:induction false} SearchGoesOn(d: bytes, lo: nat, boxes: seq<Box>, off: nat, typ: nat)
    requires Passed(d, lo, boxes, off, typ)
    ensures FirstBox(d, lo, typ) == FirstBox(d, off, typ)
    decreases boxes
  {
    hide U32;
    if boxes != [] {
      SearchGoesOn(d, lo + TopHeader(d, lo, |d|).size, boxes[1..], off, typ);
    }
  }

  /** The search answers off exactly when a box of the type starts there and whole boxes of other
      types, back to back, fill the bytes before it: off is the sum of their sizes. */
  lemma {:induction false} FirstBoxIsFirst(d: bytes, lo: nat, typ: nat, off: nat)
    ensures FirstBox(d, lo, typ) == At(off) <==> Starts(d, off, typ) && Fills(d, lo, off, typ)
    decreases |d| - lo
  {
    hide U32;
    if FirstBox(d, lo, typ) == At(off) {
      if Starts(d, lo, typ) {
        assert Passed(d, lo, [], off, typ);
        assert SumSizes([]) == 0;
      } else {
        var h := TopHeader(d, lo, |d|);
        FirstBoxIsFirst(d, lo + h.size, typ, off);
        var rest :| Passed(d, lo + h.size, rest, off, typ) && off == lo + h.size + SumSizes(rest);
        var boxes := [TopBox(d, lo, |d|)] + rest;
        assert boxes[1..] == rest;
        assert Passed(d, lo, boxes, off, typ) && off == lo + SumSizes(boxes);
      }
    }
    if Starts(d, off, typ) && Fills(d, lo, off, typ) {
      var boxes :| Passed(d, lo, boxes, off, typ) && off == lo + SumSizes(boxes);
      SearchGoesOn(d, lo, boxes, off, typ);
    }
  }

  /** A box of another type starts at off whose end is beyond int64. */
  predicate Crashes(d: bytes, off: nat, typ: nat) {
    && off + 8 <= |d| && TopHeader(d, off, |d|).Header?
    && var h := TopHeader(d, off, |d|); h.typ != typ && h.size >= h.hdr && off + h.size > 0x7fff_ffff_ffff_ffff
  }

  /** The search crashes exactly when whole boxes of other types lead to such a box. */
  lemma {:induction false} FirstBoxCrashesExactly(d: bytes, lo: nat, typ: nat)
    ensures FirstBox(d, lo, typ) == Crash <==> exists off: nat :: Fills(d, lo, off, typ) && Crashes(d, off, typ)
    decreases |d| - lo
  {
    hide U32;
    if FirstBox(d, lo, typ) == Crash {
      if Crashes(d, lo, typ) {
        assert Passed(d, lo, [], lo, typ) && SumSizes([]) == 0;
        assert Fills(d, lo, lo, typ);
      } else {
        var h := TopHeader(d, lo, |d|);
        FirstBoxCrashesExactly(d, lo + h.size, typ);
        var off: nat :| Fills(d, lo + h.size, off, typ) && Crashes(d, off, typ);
        var rest :| Passed(d, lo + h.size, rest, off, typ) && off == lo + h.size + SumSizes(rest);
        var boxes := [TopBox(d, lo, |d|)] + rest;
        assert boxes[1..] == rest;
        assert Passed(d, lo, boxes, off, typ) && off == lo + SumSizes(boxes);
        assert Fills(d, lo, off, typ);
      }
    }
    if off: nat :| Fills(d, lo, off, typ) && Crashes(d, off, typ) {
      var boxes :| Passed(d, lo, boxes, off, typ) && off == lo + SumSizes(boxes);
      SearchGoesOn(d, lo, boxes, off, typ);
    }
  }
}
