/** What the tfdt patch promises of a whole fragment, and exactly when. */
module Mp4Patch {
  import opened MachineInts
  import opened Mp4Boxes
  import opened Mp4Left
  import opened Mp4Order
  import opened Mp4Room
  import BE = BigEndian

  /** The values of all tfdts lie within the first n bytes. */
  ghost predicate Uncut(boxes: seq<Box>, n: nat) {
    forall b :: b in boxes && Tfdt(b) ==> b.off + 20 <= n
  }

  lemma ReadsInFront(e: bytes, boxes: seq<Box>, n: nat, base: nat)
    requires n <= |e|
    ensures ReadsBase(e[..n], boxes, base) <==> ReadsBase(e, boxes, base) && Uncut(boxes, n)
  {
    forall b | b in boxes && Tfdt(b) && b.off + 20 <= n ensures U64(e[..n], b.off + 12) == U64(e, b.off + 12) {
      assert e[..n][b.off + 12..b.off + 12 + 8] == e[b.off + 12..b.off + 12 + 8];
    }
  }

  /** Whatever the buffer, the boxes met in the patched one say how the patch ended: by the fault of the
      first faulty box, for want of a tfdt, or well. It has changed nothing but their values, and when it
      ended well they are all there, of version 1, and read base; in the first n bytes alone they do exactly
      when none of the values runs beyond them into the spare capacity. */
  lemma PatchLeaves(d: bytes, n: nat, base: nat)
    requires n <= |d|
    requires base < 0x1_0000_0000_0000_0000
    ensures var r := PatchTop(d, 0, n, base, false);
      var u := WalkTop(r.d, 0, n);
      && r.status == Ending(r.d, u) && OnlyValues(d, r.d, u)
      && (r.status == Ok ==>
            && HasTfdt(u) && ReadsBase(r.d, u, base) && (ReadsBase(r.d[..n], u, base) <==> Uncut(u, n))
            && forall b :: b in u ==> Fault(r.d, b) == Ok)
  {
    TopLeft(d, 0, n, base, false);
    var r := PatchTop(d, 0, n, base, false);
    NoFault(r.d, WalkTop(r.d, 0, n));
    if r.status == Ok {
      ReadsInFront(r.d, WalkTop(r.d, 0, n), n, base);
    }
  }

  /** Box p is the first with a fault, this one. */
  ghost predicate FirstFault(d: bytes, boxes: seq<Box>, p: int, status: Status) {
    0 <= p < |boxes| && Fault(d, boxes[p]) == status && forall q :: 0 <= q < p ==> Fault(d, boxes[q]) == Ok
  }

  /** The fault that ends a patch is that of the first faulty box. */
  lemma {:induction false} VerdictIsFirstFault(d: bytes, boxes: seq<Box>, status: Status)
    requires status != Ok
    ensures Verdict(d, boxes) == status <==> exists p :: FirstFault(d, boxes, p, status)
  {
    hide Fault;
    if boxes != [] {
      var rest := boxes[1..];
      VerdictIsFirstFault(d, rest, status);
      if Fault(d, boxes[0]) == Ok {
        if p :| FirstFault(d, rest, p, status) {
          forall q | 0 <= q < p + 1 ensures Fault(d, boxes[q]) == Ok {
            if q > 0 {
              assert rest[q - 1] == boxes[q];
            }
          }
          assert FirstFault(d, boxes, p + 1, status);
        }
        if p :| FirstFault(d, boxes, p, status) {
          assert rest[p - 1] == boxes[p];
          forall q | 0 <= q < p - 1 ensures Fault(d, rest[q]) == Ok {
            assert rest[q] == boxes[q + 1];
          }
          assert FirstFault(d, rest, p - 1, status);
        }
      } else if Fault(d, boxes[0]) == status {
        assert FirstFault(d, boxes, 0, status);
      }
    }
  }

  /** A top-level box whose end is beyond int64, or a tfdt whose version byte lies outside its traf, or one
      of version 1 whose value lies outside the capacity. */
  predicate Panics(d: bytes, b: Box) {
    || (b.level == 0 && b.size >= b.hdr && b.off + b.size > 0x7fff_ffff_ffff_ffff)
    || (Tfdt(b) && (b.off + 8 >= b.end || b.off + 8 >= |d| || (d[b.off + 8] == 1 && b.off + 20 > |d|)))
  }

  /** Box p is one of these, and no box before it has a fault. */
  ghost predicate FirstPanic(d: bytes, boxes: seq<Box>, p: int) {
    0 <= p < |boxes| && Panics(d, boxes[p]) && forall q :: 0 <= q < p ==> Fault(d, boxes[q]) == Ok
  }

  lemma PanicIsFault(d: bytes, boxes: seq<Box>, p: int)
    ensures FirstPanic(d, boxes, p) <==> FirstFault(d, boxes, p, Panic)
  {
  }

  lemma BoxesApart(d: bytes, n: nat)
    requires n <= |d|
    ensures Apart(WalkTop(d, 0, n)) && PartOf(WalkTop(d, 0, n), WalkTop(d, 0, n))
  {
    TopInOrder(d, 0, n);
    InOrderIsApart(WalkTop(d, 0, n), 0, n);
  }

  /** With room for every value the ending can be told before the patch, and patching moves no box. */
  lemma PatchWithRoom(d: bytes, n: nat, base: nat)
    requires n <= |d|
    requires base < 0x1_0000_0000_0000_0000
    ensures var r, t := PatchTop(d, 0, n, base, false), WalkTop(d, 0, n);
      Roomy(t) ==>
        && r.status == Ending(d, t) && WalkTop(r.d, 0, n) == t && OnlyValues(d, r.d, t)
        && (r.status == Ok ==> ReadsBase(r.d, t, base))
  {
    var t := WalkTop(d, 0, n);
    if Roomy(t) {
      hide WalkTop, PatchTop, Roomy, Apart, ReadsBase, HasTfdt, Verdict;
      BoxesApart(d, n);
      TopForetold(d, d, t, 0, n, base, false);
      SameTop(d, PatchTop(d, 0, n, base, false).d, t, 0, n);
      PatchLeaves(d, n, base);
    }
  }

  lemma PanicsByFirst(d: bytes, boxes: seq<Box>)
    ensures Verdict(d, boxes) == Panic <==> exists p :: FirstPanic(d, boxes, p)
  {
    hide FirstPanic, FirstFault, Verdict;
    VerdictIsFirstFault(d, boxes, Panic);
    forall p ensures FirstPanic(d, boxes, p) <==> FirstFault(d, boxes, p, Panic) {
      PanicIsFault(d, boxes, p);
    }
  }

  /** Exactly when the patch panics: told from the buffer as far as it was patched, and from the one before
      when that has room for every value. */
  lemma PatchPanicsExactly(d: bytes, n: nat, base: nat)
    requires n <= |d|
    requires base < 0x1_0000_0000_0000_0000
    ensures var r, t := PatchTop(d, 0, n, base, false), WalkTop(d, 0, n);
      && (r.status == Panic <==> exists p :: FirstPanic(r.d, WalkTop(r.d, 0, n), p))
      && (Roomy(t) ==> (r.status == Panic <==> exists p :: FirstPanic(d, t, p)))
  {
    hide PatchTop, WalkTop, FirstPanic, Verdict, HasTfdt, OnlyValues, ReadsBase, Roomy, Uncut;
    PatchLeaves(d, n, base);
    PatchWithRoom(d, n, base);
    PanicsByFirst(d, WalkTop(d, 0, n));
    PanicsByFirst(PatchTop(d, 0, n, base, false).d, WalkTop(PatchTop(d, 0, n, base, false).d, 0, n));
  }

  /** A patch to this base succeeds, moves no box, changes nothing but values, and all of them read base in
      the first n bytes. */
  ghost predicate Clean(d: bytes, n: nat, base: nat)
    requires n <= |d|
  {
    var r, t := PatchTop(d, 0, n, base, false), WalkTop(d, 0, n);
    r.status == Ok && WalkTop(r.d, 0, n) == t && OnlyValues(d, r.d, t) && ReadsBase(r.d[..n], t, base)
  }

  ghost predicate AlwaysClean(d: bytes, n: nat)
    requires n <= |d|
  {
    forall base: nat :: base < 0x1_0000_0000_0000_0000 ==> Clean(d, n, base)
  }

  /** Well-formed boxes, a tfdt among them, every tfdt of version 1 with its version byte inside its traf and
      its value inside the first n bytes, and no box starting where a value goes. */
  ghost predicate Patchable(d: bytes, n: nat, t: seq<Box>)
    requires n <= |d|
  {
    HasTfdt(t) && (forall b :: b in t ==> Fault(d, b) == Ok) && Uncut(t, n) && Roomy(t)
  }

  /** The header of a box met reads as the walk has recorded it. */
  ghost predicate HeaderReads(d: bytes, x: Box) {
    && x.off + 8 <= |d|
    && U32(d, x.off) == (if x.hdr == 16 then 1 else x.size) && U32(d, x.off + 4) == x.typ
  }

  lemma {:induction false} TrafReads(d: bytes, i: nat, hi: nat, x: Box)
    requires hi <= |d| && x in WalkTraf(d, i, hi)
    ensures HeaderReads(d, x)
    decreases hi - i
  {
    hide U32;
    var b := Box(2, i, 8, U32(d, i), U32(d, i + 4), hi);
    if x != b {
      TrafReads(d, i + b.size, hi, x);
    }
  }

  lemma {:induction false} MoofReads(d: bytes, off: nat, hi: nat, x: Box)
    requires hi <= |d| && x in WalkMoof(d, off, hi)
    ensures HeaderReads(d, x)
    decreases hi - off
  {
    hide U32, WalkTraf;
    var b := Box(1, off, 8, U32(d, off), U32(d, off + 4), hi);
    if x != b {
      if x in MoofInner(d, b) {
        TrafReads(d, off + 8, off + b.size, x);
      } else {
        MoofReads(d, off + b.size, hi, x);
      }
    }
  }

  lemma TopReadsOne(d: bytes, off: nat, n: nat)
    requires off + 8 <= n <= |d|
    ensures HeaderReads(d, TopBox(d, off, n))
  {
  }

  lemma {:induction false} TopReads(d: bytes, off: nat, n: nat, x: Box)
    requires n <= |d|
    requires x in WalkTop(d, off, n)
    ensures HeaderReads(d, x)
    decreases n - off
  {
    hide TopBox, WalkMoof;
    TopBoxAt(d, off, n);
    var b := TopBox(d, off, n);
    if x == b {
      TopReadsOne(d, off, n);
    } else if x in TopInner(d, b) {
      MoofReads(d, off + b.hdr, off + b.size, x);
    } else {
      TopReads(d, off + b.size, n, x);
    }
  }

  lemma SameWordSameBytes(d: bytes, e: bytes, i: nat, k: nat)
    requires i + 4 <= |d| && |e| == |d| && i <= k < i + 4 && U32(d, i) == U32(e, i)
    ensures d[k] == e[k]
  {
    BE.SameValueSameBytes(d[i..i + 4], e[i..i + 4]);
    assert d[k] == d[i..i + 4][k - i] && e[k] == e[i..i + 4][k - i];
  }

  lemma ValueBytes(d: bytes, i: nat, v: nat, k: nat)
    requires i + 8 <= |d| && v < 0x1_0000_0000_0000_0000 && U64(d, i) == v && i <= k < i + 8
    ensures d[k] == BE.Bytes(v, 8)[k - i]
  {
    BE.Ranges();
    BE.ValueOfBytes(v, 8);
    BE.SameValueSameBytes(d[i..i + 8], BE.Bytes(v, 8));
  }

  lemma {:induction false} ZeroBytes(n: nat)
    ensures forall k :: 0 <= k < n ==> BE.Bytes(0, n)[k] == 0
  {
    if n > 0 {
      ZeroBytes(n - 1);
    }
  }

  lemma {:induction false} FullBytes(n: nat, v: nat)
    requires v == BE.Range(n) - 1
    ensures forall k :: 0 <= k < n ==> BE.Bytes(v, n)[k] == 255
  {
    if n > 0 {
      FullBytes(n - 1, v / 256);
    }
  }

  const FULL := 0xFFFF_FFFF_FFFF_FFFF

  lemma ZeroByte(d: bytes, i: nat, k: nat)
    requires i + 8 <= |d| && U64(d, i) == 0 && i <= k < i + 8
    ensures d[k] == 0
  {
    ValueBytes(d, i, 0, k);
    ZeroBytes(8);
  }

  lemma FullByte(d: bytes, i: nat, k: nat)
    requires i + 8 <= |d| && U64(d, i) == FULL && i <= k < i + 8
    ensures d[k] == 255
  {
    ValueBytes(d, i, FULL, k);
    BE.Ranges();
    FullBytes(8, FULL);
  }

  /** A header that a value overlaps cannot read the same after a patch to 0 and one to all ones. */
  lemma OverlapShows(e: bytes, f: bytes, off: nat, x: Box)
    requires |e| == |f| && off + 20 <= |e| && U64(e, off + 12) == 0 && U64(f, off + 12) == FULL
    requires HeaderReads(e, x) && HeaderReads(f, x)
    ensures !(off + 8 <= x.off < off + 20)
  {
    hide U32, U64;
    if off + 8 <= x.off < off + 20 {
      var k := if x.off >= off + 12 then x.off else off + 12;
      ZeroByte(e, off + 12, k);
      FullByte(f, off + 12, k);
      SameWordSameBytes(e, f, if k < x.off + 4 then x.off else x.off + 4, k);
    }
  }

  lemma CleanReads(d: bytes, n: nat, base: nat, b: Box, x: Box)
    requires n <= |d|
    requires Clean(d, n, base) && b in WalkTop(d, 0, n) && Tfdt(b) && x in WalkTop(d, 0, n)
    ensures var e := PatchTop(d, 0, n, base, false).d;
      |e| == |d| && b.off + 20 <= |e| && U64(e, b.off + 12) == base && HeaderReads(e, x)
  {
    hide WalkTop, PatchTop, HeaderReads, U64, Fault;
    ReadsInFront(PatchTop(d, 0, n, base, false).d, WalkTop(d, 0, n), n, base);
    TopReads(PatchTop(d, 0, n, base, false).d, 0, n, x);
  }

  lemma NoBoxInValue(d: bytes, n: nat, b: Box, x: Box)
    requires n <= |d|
    requires Clean(d, n, 0) && Clean(d, n, FULL)
    requires b in WalkTop(d, 0, n) && Tfdt(b) && x in WalkTop(d, 0, n)
    ensures !(b.off < x.off < b.off + 20)
  {
    hide WalkTop, PatchTop, Clean, HeaderReads;
    CleanReads(d, n, 0, b, x);
    CleanReads(d, n, FULL, b, x);
    OverlapShows(PatchTop(d, 0, n, 0, false).d, PatchTop(d, 0, n, FULL, false).d, b.off, x);
    BoxesApart(d, n);
  }

  lemma CleanHasNoFault(d: bytes, n: nat, t: seq<Box>)
    requires n <= |d|
    requires Clean(d, n, 0) && t == WalkTop(d, 0, n) && Roomy(t) && Apart(t)
    ensures HasTfdt(t) && Uncut(t, n) && forall b :: b in t ==> Fault(d, b) == Ok
  {
    hide U64, Roomy, Apart;
    var e := PatchTop(d, 0, n, 0, false).d;
    PatchLeaves(d, n, 0);
    ReadsInFront(e, t, n, 0);
    hide PatchTop, WalkTop, Uncut, ReadsBase, Ending;
    forall b | b in t ensures Fault(d, b) == Ok {
      TopReads(d, 0, n, b);
      HeaderKept(d, e, t, b);
    }
  }

  lemma CleanIsPatchable(d: bytes, n: nat)
    requires n <= |d|
    requires Clean(d, n, 0) && Clean(d, n, FULL)
    ensures Patchable(d, n, WalkTop(d, 0, n))
  {
    hide WalkTop, Clean, Fault, Apart;
    var t := WalkTop(d, 0, n);
    forall b, x | b in t && Tfdt(b) && x in t ensures !(b.off < x.off < b.off + 20) {
      NoBoxInValue(d, n, b, x);
    }
    BoxesApart(d, n);
    CleanHasNoFault(d, n, t);
  }

  lemma PatchableIsClean(d: bytes, n: nat, base: nat)
    requires n <= |d|
    requires base < 0x1_0000_0000_0000_0000
    requires Patchable(d, n, WalkTop(d, 0, n))
    ensures Clean(d, n, base)
  {
    hide WalkTop, PatchTop, Fault, Roomy, Uncut, ReadsBase, OnlyValues, HasTfdt;
    var t := WalkTop(d, 0, n);
    NoFault(d, t);
    PatchWithRoom(d, n, base);
    ReadsInFront(PatchTop(d, 0, n, base, false).d, t, n, base);
  }

  /** The exact condition, for every buffer: patching to any base time succeeds, moves no box and changes
      nothing but the values, which then read it in the first n bytes, if and only if the buffer is
      patchable. */
  lemma PatchIsCleanExactly(d: bytes, n: nat)
    requires n <= |d|
    ensures AlwaysClean(d, n) <==> Patchable(d, n, WalkTop(d, 0, n))
  {
    hide WalkTop, Clean, Patchable;
    if AlwaysClean(d, n) {
      assert Clean(d, n, 0) && Clean(d, n, FULL);
      CleanIsPatchable(d, n);
    }
    if Patchable(d, n, WalkTop(d, 0, n)) {
      forall base: nat | base < 0x1_0000_0000_0000_0000 ensures Clean(d, n, base) {
        PatchableIsClean(d, n, base);
      }
    }
  }

  /** Two buffers that differ in values only and read the same values are the same. */
  lemma SameValuesSameBuffer(d: bytes, e: bytes, boxes: seq<Box>, base: nat)
    requires OnlyValues(d, e, boxes) && ReadsBase(d, boxes, base) && ReadsBase(e, boxes, base)
    ensures d == e
  {
    forall k | 0 <= k < |d| ensures d[k] == e[k] {
      if InValue(k, boxes) {
        var b :| b in boxes && Tfdt(b) && b.off + 12 <= k < b.off + 20;
        var x, y := d[b.off + 12..b.off + 20], e[b.off + 12..b.off + 20];
        assert b.off + 12 + 8 == b.off + 20;
        BE.SameValueSameBytes(x, y);
        assert d[k] == x[k - (b.off + 12)] && e[k] == y[k - (b.off + 12)];
      }
    }
  }

  lemma PutSame(e: bytes, i: nat, base: nat)
    requires i + 8 <= |e| && base < 0x1_0000_0000_0000_0000 && U64(e, i) == base
    ensures Put(e, i, base) == e
  {
    BE.Ranges();
    BE.ValueOfBytes(base, 8);
    BE.SameValueSameBytes(e[i..i + 8], BE.Bytes(base, 8));
    assert Put(e, i, base) == e[..i] + e[i..i + 8] + e[i + 8..];
  }

  lemma ReadsFirst(e: bytes, b: Box, rest: seq<Box>, base: nat)
    requires ReadsBase(e, [b] + rest, base)
    ensures ReadsBase(e, rest, base) && (Tfdt(b) ==> b.off + 20 <= |e| && U64(e, b.off + 12) == base)
  {
    assert forall x :: x == b || x in rest ==> x in [b] + rest;
  }

  lemma {:induction false} TrafFixed(e: bytes, i: nat, hi: nat, base: nat, found: bool)
    requires hi <= |e| && base < 0x1_0000_0000_0000_0000
    requires var w := WalkTraf(e, i, hi); Verdict(e, w) == Ok && ReadsBase(e, w, base)
    ensures PatchTraf(e, i, hi, base, found) == Patched(e, found || HasTfdt(WalkTraf(e, i, hi)), Ok)
    decreases hi - i
  {
    hide U32, U64, Put, ReadsBase, HasTfdt, Verdict, Fault;
    NoBoxes();
    if i + 8 <= hi {
      var b := Box(2, i, 8, U32(e, i), U32(e, i + 4), hi);
      OneBox(e, b);
      FaultIs(e, b);
      assert Sound(b);
      var rest := WalkTraf(e, i + b.size, hi);
      VerdictOfBoth(e, [b], rest);
      ReadsFirst(e, b, rest, base);
      if Tfdt(b) {
        PutSame(e, i + 12, base);
      }
      TrafFixed(e, i + b.size, hi, base, found || Tfdt(b));
    }
  }

  lemma ReadsParts(e: bytes, b: Box, inner: seq<Box>, rest: seq<Box>, base: nat)
    requires ReadsBase(e, [b] + inner + rest, base)
    ensures ReadsBase(e, inner, base) && ReadsBase(e, rest, base)
  {
    assert forall x :: x in inner || x in rest ==> x in [b] + inner + rest;
  }

  lemma {:induction false} MoofFixed(e: bytes, off: nat, hi: nat, base: nat, found: bool)
    requires hi <= |e| && base < 0x1_0000_0000_0000_0000
    requires var w := WalkMoof(e, off, hi); Verdict(e, w) == Ok && ReadsBase(e, w, base)
    ensures PatchMoof(e, off, hi, base, found) == Patched(e, found || HasTfdt(WalkMoof(e, off, hi)), Ok)
    decreases hi - off
  {
    hide U32, ReadsBase, PatchTraf, WalkTraf, HasTfdt, Verdict, Fault;
    NoBoxes();
    if off + 8 <= hi {
      var b := Box(1, off, 8, U32(e, off), U32(e, off + 4), hi);
      OneBox(e, b);
      PlainFault(e, b);
      assert Sound(b);
      var inner, rest := MoofInner(e, b), WalkMoof(e, off + b.size, hi);
      VerdictOfThree(e, b, inner, rest);
      ReadsParts(e, b, inner, rest, base);
      if b.typ == TRAF {
        TrafFixed(e, off + 8, off + b.size, base, found);
      }
      MoofFixed(e, off + b.size, hi, base, found || HasTfdt(inner));
    }
  }

  /** The parts of a top-level walk without a fault whose values read base. */
  lemma PartsFixed(e: bytes, off: nat, n: nat, base: nat)
    requires off + 8 <= n <= |e|
    requires var w := WalkTop(e, off, n); Verdict(e, w) == Ok && ReadsBase(e, w, base)
    ensures var b := TopBox(e, off, n);
      && Sound(b) && TopHeader(e, off, n) == Header(b.size, b.hdr, b.typ) && !Overflows(off, b.size)
      && var inner, rest := TopInner(e, b), WalkTop(e, off + b.size, n);
      && Verdict(e, inner) == Ok && Verdict(e, rest) == Ok && ReadsBase(e, inner, base) && ReadsBase(e, rest, base)
      && (HasTfdt(WalkTop(e, off, n)) <==> HasTfdt(inner) || HasTfdt(rest))
  {
    hide TopBox, ReadsBase, WalkMoof, HasTfdt, Verdict, Fault;
    TopBoxAt(e, off, n);
    TopFault(e, off, n);
    var b := TopBox(e, off, n);
    OneBox(e, b);
    assert Sound(b);
    TopSound(e, off, n);
    var inner, rest := TopInner(e, b), WalkTop(e, off + b.size, n);
    VerdictOfThree(e, b, inner, rest);
    ReadsParts(e, b, inner, rest, base);
  }

  lemma NothingLeft(e: bytes, off: nat, n: nat)
    requires n <= |e|
    requires off + 8 > n
    ensures !HasTfdt(WalkTop(e, off, n))
  {
  }

  lemma {:induction false} TopFixed(e: bytes, off: nat, n: nat, base: nat, found: bool)
    requires n <= |e|
    requires base < 0x1_0000_0000_0000_0000
    requires var w := WalkTop(e, off, n); Verdict(e, w) == Ok && ReadsBase(e, w, base) && (found || HasTfdt(w))
    ensures PatchTop(e, off, n, base, found) == Patched(e, true, Ok)
    decreases n - off
  {
    hide TopBox, ReadsBase, PatchMoof, WalkMoof, WalkTop, HasTfdt, Verdict;
    if off + 8 > n {
      NothingLeft(e, off, n);
    } else {
      PartsFixed(e, off, n, base);
      TopBoxAt(e, off, n);
      var b := TopBox(e, off, n);
      NoBoxes();
      if b.typ == MOOF {
        MoofFixed(e, off + b.hdr, off + b.size, base, found);
      }
      TopFixed(e, off + b.size, n, base, found || HasTfdt(TopInner(e, b)));
    }
  }

  /** Whatever the buffer, patching again to the same base time succeeds and changes nothing. */
  lemma PatchIsIdempotent(d: bytes, n: nat, base: nat)
    requires n <= |d|
    requires base < 0x1_0000_0000_0000_0000
    ensures var r := PatchTop(d, 0, n, base, false);
      r.status == Ok ==> PatchTop(r.d, 0, n, base, false) == Patched(r.d, true, Ok)
  {
    PatchLeaves(d, n, base);
    var r := PatchTop(d, 0, n, base, false);
    if r.status == Ok {
      TopFixed(r.d, 0, n, base, false);
    }
  }

  /** And patching a patchable buffer to another base time is as if the first patch had not happened. */
  lemma LastPatchCounts(d: bytes, n: nat, first: nat, base: nat)
    requires n <= |d|
    requires first < 0x1_0000_0000_0000_0000 && base < 0x1_0000_0000_0000_0000
    requires Patchable(d, n, WalkTop(d, 0, n))
    ensures var e := PatchTop(d, 0, n, first, false).d;
      && PatchTop(e, 0, n, base, false).status == Ok
      && PatchTop(e, 0, n, base, false).d == PatchTop(d, 0, n, base, false).d
  {
    var t, e := WalkTop(d, 0, n), PatchTop(d, 0, n, first, false).d;
    NoFault(d, t);
    PatchWithRoom(d, n, first);
    PatchWithRoom(d, n, base);
    PatchWithRoom(e, n, base);
    PatchLeaves(d, n, first);
    hide PatchTop, WalkTop, Roomy, ReadsBase, HasTfdt, Fault;
    var f, g := PatchTop(e, 0, n, base, false).d, PatchTop(d, 0, n, base, false).d;
    assert OnlyValues(f, g, t);
    SameValuesSameBuffer(f, g, t, base);
  }

  lemma LeafEndsBefore(boxes: seq<Box>, lo: int, hi: int, i: nat, j: nat)
    requires InOrder(boxes, lo, hi) && i < j < |boxes|
    ensures boxes[i].off + Width(boxes[i]) <= boxes[j].off
  {
  }

  /** A tfdt with all the bytes of version 1 always leaves room for its value. */
  lemma LongTfdtsHaveRoom(d: bytes, n: nat)
    requires n <= |d|
    requires forall b :: b in WalkTop(d, 0, n) && Tfdt(b) ==> b.size >= 20
    ensures Roomy(WalkTop(d, 0, n))
  {
    var t := WalkTop(d, 0, n);
    TopInOrder(d, 0, n);
    hide WalkTop;
    forall b, x | b in t && Tfdt(b) && x in t ensures !(b.off < x.off < b.off + 20) {
      var i: nat :| i < |t| && t[i] == b;
      var j: nat :| j < |t| && t[j] == x;
      if i < j {
        LeafEndsBefore(t, 0, n, i, j);
      } else if j < i {
        EarlierIsApart(t, 0, n, j, i);
      }
    }
  }

  // ---- a tfdt too short for its value ------------------------------------------------------

  /** Four bytes each. */
  function Words(ws: seq<bytes>): bytes {
    if ws == [] then [] else ws[0] + Words(ws[1..])
  }

  lemma {:induction false} WordsLength(ws: seq<bytes>)
    requires forall j :: 0 <= j < |ws| ==> |ws[j]| == 4
    ensures |Words(ws)| == 4 * |ws|
  {
    if ws != [] {
      WordsLength(ws[1..]);
    }
  }

  lemma {:induction false} WordAt(ws: seq<bytes>, k: nat)
    requires k < |ws| && forall j :: 0 <= j < |ws| ==> |ws[j]| == 4
    ensures |Words(ws)| == 4 * |ws| && Words(ws)[4 * k..4 * k + 4] == ws[k]
  {
    WordsLength(ws[1..]);
    if k > 0 {
      WordAt(ws[1..], k - 1);
      assert Words(ws)[4 * k..4 * k + 4] == Words(ws[1..])[4 * (k - 1)..4 * (k - 1) + 4];
    }
  }

  lemma FourBytes(a: byte, b: byte, c: byte, e: byte)
    ensures BE.Value([a, b, c, e]) == ((a as int * 256 + b) * 256 + c) * 256 + e
  {
    var w4: bytes, w3: bytes, w2: bytes, w1: bytes := [a, b, c, e], [a, b, c], [a, b], [a];
    assert w4[..3] == w3 && w3[..2] == w2 && w2[..1] == w1 && w1[..0] == [];
    assert BE.Value(w1) == a;
    assert BE.Value(w2) == a as int * 256 + b;
    assert BE.Value(w3) == (a as int * 256 + b) * 256 + c;
  }

  /** A moof with one traf, in it a version 1 tfdt of 12 bytes and an empty free box of 12. */
  function ShortTfdt(): seq<bytes> {
    [[0, 0, 0, 40], [0x6d, 0x6f, 0x6f, 0x66],
     [0, 0, 0, 32], [0x74, 0x72, 0x61, 0x66],
     [0, 0, 0, 12], [0x74, 0x66, 0x64, 0x74], [1, 0, 0, 0],
     [0, 0, 0, 12], [0x66, 0x72, 0x65, 0x65], [0, 0, 0, 0]]
  }

  const FREE := 0x66726565

  ghost predicate AllFour(ws: seq<bytes>) {
    forall j :: 0 <= j < |ws| ==> |ws[j]| == 4
  }

  lemma WordIs(ws: seq<bytes>, k: nat, a: byte, b: byte, c: byte, e: byte)
    requires AllFour(ws) && k < |ws| && ws[k] == [a, b, c, e]
    ensures 4 * k + 4 <= |Words(ws)|
    ensures U32(Words(ws), 4 * k) == ((a as int * 256 + b) * 256 + c) * 256 + e
    ensures Words(ws)[4 * k] == a
  {
    hide Words, BE.Value;
    WordAt(ws, k);
    FourBytes(a, b, c, e);
    assert Words(ws)[4 * k] == Words(ws)[4 * k..4 * k + 4][0];
  }

  lemma ShortIsFour()
    ensures AllFour(ShortTfdt()) && |Words(ShortTfdt())| == 40
  {
    WordsLength(ShortTfdt());
  }

  lemma ShortWords()
    ensures var d := Words(ShortTfdt());
      && |d| == 40 && d[24] == 1
      && U32(d, 0) == 40 && U32(d, 4) == MOOF && U32(d, 8) == 32 && U32(d, 12) == TRAF
      && U32(d, 16) == 12 && U32(d, 20) == TFDT && U32(d, 28) == 12 && U32(d, 32) == FREE
  {
    hide Words, U32, AllFour;
    ShortIsFour();
    var ws := ShortTfdt();
    WordIs(ws, 0, 0, 0, 0, 40);
    WordIs(ws, 1, 0x6d, 0x6f, 0x6f, 0x66);
    WordIs(ws, 2, 0, 0, 0, 32);
    WordIs(ws, 3, 0x74, 0x72, 0x61, 0x66);
    WordIs(ws, 4, 0, 0, 0, 12);
    WordIs(ws, 5, 0x74, 0x66, 0x64, 0x74);
    WordIs(ws, 6, 1, 0, 0, 0);
    WordIs(ws, 7, 0, 0, 0, 12);
    WordIs(ws, 8, 0x66, 0x72, 0x65, 0x65);
  }

  /** The boxes of the short buffer. */
  function ShortBoxes(): seq<Box> {
    [Box(0, 0, 8, 40, MOOF, 40), Box(1, 8, 8, 32, TRAF, 40), Box(2, 16, 8, 12, TFDT, 40), Box(2, 28, 8, 12, FREE, 40)]
  }

  lemma ShortTree(d: bytes)
    requires d == Words(ShortTfdt())
    ensures |d| == 40 && WalkTop(d, 0, 40) == ShortBoxes()
  {
    hide U32, ShortTfdt, Words;
    ShortWords();
    var tfdt, free := Box(2, 16, 8, 12, TFDT, 40), Box(2, 28, 8, 12, FREE, 40);
    assert WalkTraf(d, 40, 40) == [];
    assert WalkTraf(d, 28, 40) == [free];
    assert WalkTraf(d, 16, 40) == [tfdt, free];
    assert WalkMoof(d, 40, 40) == [];
    assert WalkMoof(d, 8, 40) == [Box(1, 8, 8, 32, TRAF, 40), tfdt, free];
    assert WalkTop(d, 40, 40) == [];
  }

  lemma ZeroAfterPut(d: bytes)
    requires |d| == 40
    ensures U32(Put(d, 28, 0), 28) == 0
  {
    ZeroBytes(8);
    var e := Put(d, 28, 0);
    assert e[28..32] == BE.Bytes(0, 8)[..4];
    FourBytes(0, 0, 0, 0);
    assert e[28..32] == [0, 0, 0, 0];
  }

  lemma ShortPatch(d: bytes)
    requires d == Words(ShortTfdt()) && |d| == 40
    ensures PatchTop(d, 0, 40, 0, false).status == Malformed
  {
    hide U32, ShortTfdt, Words, Put;
    ShortWords();
    ZeroAfterPut(d);
    assert PatchTraf(Put(d, 28, 0), 28, 40, 0, true).status == Malformed;
    assert PatchTraf(d, 16, 40, 0, false).status == Malformed;
    assert PatchMoof(d, 8, 40, 0, false).status == Malformed;
  }

  /** A buffer without a fault that is not patchable: in a short tfdt the value overruns the next box,
      whose header the walk then reads, so the patch gives up half way. */
  lemma ShortTfdtIsOverrun()
    ensures var d := Words(ShortTfdt());
      && |d| == 40 && HasTfdt(WalkTop(d, 0, 40)) && (forall b :: b in WalkTop(d, 0, 40) ==> Fault(d, b) == Ok)
      && PatchTop(d, 0, 40, 0, false).status == Malformed
  {
    hide WalkTop, PatchTop, ShortTfdt, Words;
    var d := Words(ShortTfdt());
    ShortWords();
    ShortTree(d);
    ShortPatch(d);
    assert Box(2, 16, 8, 12, TFDT, 40) in WalkTop(d, 0, 40);
  }

  // ---- a value that runs beyond the length -------------------------------------------------

  /** A moof with one traf, in it a version 1 tfdt of 16 bytes, at the very end. */
  function EndTfdt(): seq<bytes> {
    [[0, 0, 0, 32], [0x6d, 0x6f, 0x6f, 0x66],
     [0, 0, 0, 24], [0x74, 0x72, 0x61, 0x66],
     [0, 0, 0, 16], [0x74, 0x66, 0x64, 0x74], [1, 0, 0, 0], [0, 0, 0, 0]]
  }

  lemma EndWords()
    ensures var d := Words(EndTfdt());
      && |d| == 32 && d[24] == 1
      && U32(d, 0) == 32 && U32(d, 4) == MOOF && U32(d, 8) == 24 && U32(d, 12) == TRAF
      && U32(d, 16) == 16 && U32(d, 20) == TFDT
  {
    hide Words, U32;
    var ws := EndTfdt();
    WordsLength(ws);
    WordIs(ws, 0, 0, 0, 0, 32);
    WordIs(ws, 1, 0x6d, 0x6f, 0x6f, 0x66);
    WordIs(ws, 2, 0, 0, 0, 24);
    WordIs(ws, 3, 0x74, 0x72, 0x61, 0x66);
    WordIs(ws, 4, 0, 0, 0, 16);
    WordIs(ws, 5, 0x74, 0x66, 0x64, 0x74);
    WordIs(ws, 6, 1, 0, 0, 0);
  }

  lemma U32InFront(f: bytes, spare: bytes, i: nat)
    requires i + 4 <= |f|
    ensures U32(f + spare, i) == U32(f, i)
  {
    assert (f + spare)[i..i + 4] == f[i..i + 4];
  }

  lemma EndTree(d: bytes, spare: bytes)
    requires d == Words(EndTfdt()) + spare
    ensures |d| == 32 + |spare| && d[24] == 1 && U32(d, 0) == 32 && U32(d, 4) == MOOF && U32(d, 8) == 24
    ensures U32(d, 12) == TRAF && U32(d, 16) == 16 && U32(d, 20) == TFDT
    ensures WalkTop(d, 0, 32) ==
      [Box(0, 0, 8, 32, MOOF, 32), Box(1, 8, 8, 24, TRAF, 32), Box(2, 16, 8, 16, TFDT, 32)]
  {
    hide U32, EndTfdt, Words;
    EndWords();
    var f := Words(EndTfdt());
    U32InFront(f, spare, 0);
    U32InFront(f, spare, 4);
    U32InFront(f, spare, 8);
    U32InFront(f, spare, 12);
    U32InFront(f, spare, 16);
    U32InFront(f, spare, 20);
    var tfdt := Box(2, 16, 8, 16, TFDT, 32);
    assert WalkTraf(d, 32, 32) == [];
    assert WalkTraf(d, 16, 32) == [tfdt];
    assert WalkMoof(d, 32, 32) == [];
    assert WalkMoof(d, 8, 32) == [Box(1, 8, 8, 24, TRAF, 32), tfdt];
    assert WalkTop(d, 32, 32) == [];
  }

  lemma EndVerdict(d: bytes, t: seq<Box>)
    requires |d| >= 32 && d[24] == 1
    requires t == [Box(0, 0, 8, 32, MOOF, 32), Box(1, 8, 8, 24, TRAF, 32), Box(2, 16, 8, 16, TFDT, 32)]
    ensures Ending(d, t) == if |d| >= 36 then Ok else Panic
    ensures Roomy(t)
  {
    var tfdt := t[2];
    assert tfdt in t && Tfdt(tfdt);
    assert Verdict(d, []) == Ok;
    assert t[1..] == [t[1], t[2]] && t[1..][1..] == [tfdt] && [tfdt][1..] == [];
    assert Verdict(d, [tfdt]) == Fault(d, tfdt);
    assert Verdict(d, [t[1], t[2]]) == Fault(d, tfdt);
  }

  /** With four spare bytes the patch ends well although the value is cut off at the length; with fewer it
      panics. */
  lemma EndTfdtIsCutOff(spare: bytes, base: nat)
    requires base < 0x1_0000_0000_0000_0000
    ensures var d := Words(EndTfdt()) + spare;
      && |Words(EndTfdt())| == 32 && !Uncut(WalkTop(d, 0, 32), 32)
      && PatchTop(d, 0, 32, base, false).status == if |spare| >= 4 then Ok else Panic
  {
    hide WalkTop, PatchTop, EndTfdt, Words, U32;
    EndWords();
    var d := Words(EndTfdt()) + spare;
    EndTree(d, spare);
    var t, tfdt := WalkTop(d, 0, 32), Box(2, 16, 8, 16, TFDT, 32);
    assert t[2] == tfdt && tfdt in t;
    PatchWithRoom(d, 32, base);
    EndVerdict(d, t);
  }
}
