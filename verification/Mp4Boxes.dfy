/** The MP4 box walker of the transcoder: boxes as in section 4.2 of ISO/IEC 14496-12, the tfdt box
    of section 8.8.12 patched in place. Ranges are absolute positions in one buffer, given with all its
    capacity; the boxes lie in its first n bytes, its length. */
module Mp4Boxes {
  import opened MachineInts
  import BE = BigEndian

  const MOOF := 0x6d6f6f66
  const TRAF := 0x74726166
  const TFDT := 0x74666474

  function U32(d: bytes, i: nat): nat
    requires i + 4 <= |d|
  {
    BE.Value(d[i..i + 4])
  }

  function U64(d: bytes, i: nat): nat
    requires i + 8 <= |d|
  {
    BE.Value(d[i..i + 8])
  }

  /** The buffer with the 8 bytes at i replaced by v. */
  function Put(d: bytes, i: nat, v: nat): (e: bytes)
    requires i + 8 <= |d|
    ensures |e| == |d|
  {
    d[..i] + BE.Bytes(v, 8) + d[i + 8..]
  }

  // ---- the patcher, as a function of the buffer --------------------------------------------

  datatype Status = Ok | Malformed | WrongVersion | NoTfdt | Panic

  /** The buffer afterwards, whether a tfdt has been patched, and how it ended. */
  datatype Patched = Patched(d: bytes, found: bool, status: Status)

  /** The children of a traf between i and hi. */
  function PatchTraf(d: bytes, i: nat, hi: nat, base: nat, found: bool): (r: Patched)
    requires hi <= |d|
    ensures |r.d| == |d|
    decreases hi - i
  {
    if i + 8 > hi then Patched(d, found, Ok)
    else
      var size, typ := U32(d, i), U32(d, i + 4);
      if size < 8 || i + size > hi then Patched(d, found, Malformed)
      else if typ != TFDT then PatchTraf(d, i + size, hi, base, found)
      else if i + 8 >= hi then Patched(d, found, Panic)
      else if d[i + 8] != 1 then Patched(d, found, WrongVersion)
      else if i + 20 > |d| then Patched(d, found, Panic)
      else PatchTraf(Put(d, i + 12, base), i + size, hi, base, true)
  }

  /** The children of a moof between off and hi. */
  function PatchMoof(d: bytes, off: nat, hi: nat, base: nat, found: bool): (r: Patched)
    requires hi <= |d|
    ensures |r.d| == |d|
    decreases hi - off
  {
    if off + 8 > hi then Patched(d, found, Ok)
    else
      var size, typ := U32(d, off), U32(d, off + 4);
      if size < 8 || off + size > hi then Patched(d, found, Malformed)
      else if typ != TRAF then PatchMoof(d, off + size, hi, base, found)
      else
        var r := PatchTraf(d, off + 8, off + size, base, found);
        if r.status != Ok then r else PatchMoof(r.d, off + size, hi, base, r.found)
  }

  /** Header of a top-level box: its size as an int and the header length; a negative size stands for
      a truncated largesize field. */
  datatype Header = Header(size: int, hdr: nat, typ: nat) | Truncated

  function TopHeader(d: bytes, off: nat, n: nat): Header
    requires off + 8 <= n <= |d|
  {
    var size, typ := U32(d, off), U32(d, off + 4);
    if size != 1 then Header(size, 8, typ)
    else if off + 16 > n then Truncated
    else Header(ToInt64(U64(d, off + 8)), 16, typ)
  }

  /** A header is read as it is written: four bytes of size and four of type, most significant first, and for the
      size 1 eight bytes of the real size, taken as an int64. */
  lemma HeaderIsRead(pre: bytes, size: nat, typ: nat, large: nat, post: bytes)
    requires size < 0x1_0000_0000 && typ < 0x1_0000_0000 && large < 0x1_0000_0000_0000_0000
    ensures var word := pre + BE.Bytes(size, 4) + BE.Bytes(typ, 4);
      && (size != 1 ==> TopHeader(word + post, |pre|, |word + post|) == Header(size, 8, typ))
      && (size == 1 ==>
            TopHeader(word + BE.Bytes(large, 8) + post, |pre|, |word| + 8 + |post|) == Header(ToInt64(large), 16, typ))
      && (size == 1 && |post| < 8 ==> TopHeader(word + post, |pre|, |word + post|) == Truncated)
  {
    hide BE.Bytes, BE.Value;
    BE.Ranges();
    BE.ValueOfBytes(size, 4);
    BE.ValueOfBytes(typ, 4);
    BE.ValueOfBytes(large, 8);
    var s, t, l := BE.Bytes(size, 4), BE.Bytes(typ, 4), BE.Bytes(large, 8);
    var short, long := pre + s + t + post, pre + s + t + l + post;
    assert short[|pre|..|pre| + 4] == s && short[|pre| + 4..|pre| + 8] == t;
    assert long[|pre|..|pre| + 4] == s && long[|pre| + 4..|pre| + 8] == t && long[|pre| + 8..|pre| + 16] == l;
  }

  /** off + size does not fit an int64. */
  predicate Overflows(off: nat, size: int) {
    off + size >= 0x8000_0000_0000_0000
  }

  /** The top-level boxes from off on, in the first n bytes. */
  function PatchTop(d: bytes, off: nat, n: nat, base: nat, found: bool): (r: Patched)
    requires n <= |d|
    ensures |r.d| == |d|
    decreases n - off
  {
    if off + 8 > n then Patched(d, found, if found then Ok else NoTfdt)
    else
      var b := TopHeader(d, off, n);
      if b.Truncated? then Patched(d, found, Malformed)
      else if b.size < b.hdr then Patched(d, found, Malformed)
      else if Overflows(off, b.size) then Patched(d, found, Panic)
      else if off + b.size > n then Patched(d, found, Malformed)
      else if b.typ != MOOF then PatchTop(d, off + b.size, n, base, found)
      else
        var r := PatchMoof(d, off + b.hdr, off + b.size, base, found);
        if r.status != Ok then r else PatchTop(r.d, off + b.size, n, base, r.found)
  }

  // ---- the boxes met -----------------------------------------------------------------------

  /** A box whose header the walk has read: level 0 at the top, 1 inside a moof, 2 inside a traf; `hdr` is
      the length of its header and `end` where the box around it ends. */
  datatype Box = Box(level: nat, off: nat, hdr: nat, size: int, typ: nat, end: nat)

  /** The box lies within the one around it. */
  predicate Sound(b: Box) {
    b.size >= b.hdr && b.off + b.size <= b.end && !(b.level == 0 && Overflows(b.off, b.size))
  }

  /** The boxes met, in order; behind a box that is not sound its siblings cannot be found. */
  function WalkTraf(d: bytes, i: nat, hi: nat): seq<Box>
    requires hi <= |d|
    decreases hi - i
  {
    if i + 8 > hi then []
    else
      var b := Box(2, i, 8, U32(d, i), U32(d, i + 4), hi);
      if Sound(b) then [b] + WalkTraf(d, i + b.size, hi) else [b]
  }

  function MoofInner(d: bytes, b: Box): seq<Box>
    requires b.off + b.size <= |d|
  {
    if b.typ == TRAF && b.off + 8 <= b.off + b.size then WalkTraf(d, b.off + 8, b.off + b.size) else []
  }

  function WalkMoof(d: bytes, off: nat, hi: nat): seq<Box>
    requires hi <= |d|
    decreases hi - off
  {
    if off + 8 > hi then []
    else
      var b := Box(1, off, 8, U32(d, off), U32(d, off + 4), hi);
      if Sound(b) then [b] + MoofInner(d, b) + WalkMoof(d, off + b.size, hi) else [b]
  }

  /** The top-level box at off; a truncated one has size 0. */
  function TopBox(d: bytes, off: nat, n: nat): Box
    requires off + 8 <= n <= |d|
  {
    match TopHeader(d, off, n)
    case Header(size, hdr, typ) => Box(0, off, hdr, size, typ, n)
    case Truncated => Box(0, off, 16, 0, U32(d, off + 4), n)
  }

  function TopInner(d: bytes, b: Box): seq<Box>
    requires b.off + b.size <= |d|
  {
    if b.typ == MOOF && b.hdr <= b.size then WalkMoof(d, b.off + b.hdr, b.off + b.size) else []
  }

  function WalkTop(d: bytes, off: nat, n: nat): seq<Box>
    requires n <= |d|
    decreases n - off
  {
    if off + 8 > n then []
    else
      var b := TopBox(d, off, n);
      if Sound(b) then [b] + TopInner(d, b) + WalkTop(d, off + b.size, n) else [b]
  }

  predicate Tfdt(b: Box) {
    b.level == 2 && b.typ == TFDT && Sound(b)
  }

  ghost predicate HasTfdt(boxes: seq<Box>) {
    exists b :: b in boxes && Tfdt(b)
  }

  /** What the patch makes of one box. */
  function Fault(d: bytes, b: Box): Status {
    if b.level == 0 && b.size >= b.hdr && Overflows(b.off, b.size) then Panic
    else if !Sound(b) then Malformed
    else if !Tfdt(b) then Ok
    else if b.off + 8 >= b.end || b.off + 8 >= |d| then Panic
    else if d[b.off + 8] != 1 then WrongVersion
    else if b.off + 20 > |d| then Panic
    else Ok
  }

  /** The fault of the first faulty box. */
  function Verdict(d: bytes, boxes: seq<Box>): Status {
    if boxes == [] then Ok
    else if Fault(d, boxes[0]) != Ok then Fault(d, boxes[0])
    else Verdict(d, boxes[1..])
  }

  /** How a patch ends that meets these boxes. */
  ghost function Ending(d: bytes, boxes: seq<Box>): Status {
    if Verdict(d, boxes) == Ok && !HasTfdt(boxes) then NoTfdt else Verdict(d, boxes)
  }

  /** Position k is one of the 8 value bytes of a tfdt. */
  ghost predicate InValue(k: int, boxes: seq<Box>) {
    exists b :: b in boxes && Tfdt(b) && b.off + 12 <= k < b.off + 20
  }

  /** e differs from d in value bytes only. */
  ghost predicate OnlyValues(d: bytes, e: bytes, boxes: seq<Box>) {
    |e| == |d| && forall k :: 0 <= k < |d| && !InValue(k, boxes) ==> e[k] == d[k]
  }

  /** Every tfdt reads base. */
  ghost predicate ReadsBase(e: bytes, boxes: seq<Box>, base: nat) {
    forall b :: b in boxes && Tfdt(b) ==> b.off + 20 <= |e| && U64(e, b.off + 12) == base
  }

  /** No header is read where the value of a tfdt goes: no box met starts behind the start of a tfdt and
      before the end of its value. */
  ghost predicate Roomy(boxes: seq<Box>) {
    forall b, x :: b in boxes && Tfdt(b) && x in boxes ==> !(b.off < x.off < b.off + 20)
  }

  // ---- reads and writes --------------------------------------------------------------------

  /** The buffers agree between lo and hi. */
  ghost predicate Agree(d: bytes, e: bytes, lo: int, hi: int) {
    |d| == |e| && forall k :: 0 <= k < |d| && lo <= k < hi ==> e[k] == d[k]
  }

  lemma U32Agrees(d: bytes, e: bytes, i: nat)
    requires Agree(d, e, i, i + 4) && i + 4 <= |d|
    ensures U32(d, i) == U32(e, i)
  {
    assert d[i..i + 4] == e[i..i + 4];
  }

  lemma U64Agrees(d: bytes, e: bytes, i: nat)
    requires Agree(d, e, i, i + 8) && i + 8 <= |d|
    ensures U64(d, i) == U64(e, i)
  {
    assert d[i..i + 8] == e[i..i + 8];
  }

  lemma PutReadsBack(d: bytes, i: nat, v: nat)
    requires i + 8 <= |d| && v < 0x1_0000_0000_0000_0000
    ensures U64(Put(d, i, v), i) == v
    ensures Agree(d, Put(d, i, v), 0, i) && Agree(d, Put(d, i, v), i + 8, |d|)
  {
    BE.Ranges();
    BE.ValueOfBytes(v, 8);
    assert Put(d, i, v)[i..i + 8] == BE.Bytes(v, 8);
  }

  lemma AgreePart(d: bytes, e: bytes, lo: int, hi: int, lo': int, hi': int)
    requires Agree(d, e, lo, hi) && lo <= lo' && hi' <= hi
    ensures Agree(d, e, lo', hi') && Agree(e, d, lo', hi')
  {
  }

  lemma VerdictOfBoth(d: bytes, a: seq<Box>, b: seq<Box>)
    ensures Verdict(d, a + b) == if Verdict(d, a) != Ok then Verdict(d, a) else Verdict(d, b)
    ensures HasTfdt(a + b) <==> HasTfdt(a) || HasTfdt(b)
    decreases |a|
  {
    if a == [] {
      assert a + b == b;
    } else {
      VerdictOfBoth(d, a[1..], b);
      assert (a + b)[0] == a[0] && (a + b)[1..] == a[1..] + b;
    }
    if HasTfdt(a) {
      var x :| x in a && Tfdt(x);
      assert x in a + b;
    }
    if HasTfdt(b) {
      var x :| x in b && Tfdt(x);
      assert x in a + b;
    }
  }

  lemma {:induction false} NoFault(d: bytes, boxes: seq<Box>)
    ensures Verdict(d, boxes) == Ok <==> forall b :: b in boxes ==> Fault(d, b) == Ok
  {
    if boxes != [] {
      NoFault(d, boxes[1..]);
      assert boxes == [boxes[0]] + boxes[1..];
    }
  }

  lemma OneBox(d: bytes, b: Box)
    ensures Verdict(d, [b]) == Fault(d, b) && (HasTfdt([b]) <==> Tfdt(b))
    ensures forall x :: x in [b] <==> x == b
  {
    assert Verdict(d, []) == Ok;
    if Tfdt(b) {
      assert b in [b];
    }
  }

  /** A box, what is in it and what follows it. */
  lemma VerdictOfThree(d: bytes, b: Box, inner: seq<Box>, rest: seq<Box>)
    ensures var all := [b] + inner + rest;
      && Verdict(d, all) == (if Fault(d, b) != Ok then Fault(d, b)
                             else if Verdict(d, inner) != Ok then Verdict(d, inner) else Verdict(d, rest))
      && (HasTfdt(all) <==> Tfdt(b) || HasTfdt(inner) || HasTfdt(rest))
  {
    OneBox(d, b);
    VerdictOfBoth(d, [b], inner);
    VerdictOfBoth(d, [b] + inner, rest);
  }

  lemma TopBoxAt(d: bytes, off: nat, n: nat)
    requires off + 8 <= n <= |d|
    ensures var b := TopBox(d, off, n); b.level == 0 && b.off == off && b.end == n && 8 <= b.hdr <= 16
  {
  }

  /** The two starts differ by at least a header. */
  ghost predicate Apart(boxes: seq<Box>) {
    forall x, y :: x in boxes && y in boxes && x.off <= y.off && x != y ==> x.off + 8 <= y.off
  }

  /** The checks of the patch are those of Fault. */
  lemma FaultIs(d: bytes, b: Box)
    requires b.level == 2 && b.hdr == 8 && b.end <= |d|
    ensures !Sound(b) ==> Fault(d, b) == Malformed
    ensures Sound(b) && !Tfdt(b) ==> Fault(d, b) == Ok
    ensures Tfdt(b) ==> Fault(d, b) == (if b.off + 8 >= b.end then Panic else if d[b.off + 8] != 1 then WrongVersion
                                        else if b.off + 20 > |d| then Panic else Ok)
  {
  }
}
