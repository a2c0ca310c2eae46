/** What any patch leaves behind, whatever the buffer. */
module Mp4Left {
  import opened MachineInts
  import opened Mp4Boxes
  import opened Mp4Order
  import opened Mp4Room

  /** A patch writes nothing up to the place of the first value behind its start. */
  lemma {:induction false} TrafWritesBehind(d: bytes, i: nat, hi: nat, base: nat, found: bool)
    requires hi <= |d|
    ensures Agree(d, PatchTraf(d, i, hi, base, found).d, 0, i + 12)
    decreases hi - i
  {
    hide U32;
    if i + 8 <= hi && U32(d, i) >= 8 && i + U32(d, i) <= hi {
      var size := U32(d, i);
      if U32(d, i + 4) != TFDT {
        TrafWritesBehind(d, i + size, hi, base, found);
      } else if i + 8 < hi && d[i + 8] == 1 && i + 20 <= |d| {
        TrafWritesBehind(Put(d, i + 12, base), i + size, hi, base, true);
      }
    }
  }

  lemma {:induction false} MoofWritesBehind(d: bytes, off: nat, hi: nat, base: nat, found: bool)
    requires hi <= |d|
    ensures Agree(d, PatchMoof(d, off, hi, base, found).d, 0, off + 12)
    decreases hi - off
  {
    hide U32, PatchTraf;
    if off + 8 <= hi && U32(d, off) >= 8 && off + U32(d, off) <= hi {
      var size := U32(d, off);
      if U32(d, off + 4) != TRAF {
        MoofWritesBehind(d, off + size, hi, base, found);
      } else {
        TrafWritesBehind(d, off + 8, off + size, base, found);
        var r := PatchTraf(d, off + 8, off + size, base, found);
        if r.status == Ok {
          MoofWritesBehind(r.d, off + size, hi, base, r.found);
        }
      }
    }
  }

  lemma HeaderLength(d: bytes, off: nat, n: nat)
    requires off + 8 <= n <= |d|
    ensures var b := TopHeader(d, off, n); b.Header? ==> 8 <= b.hdr <= 16
  {
  }

  lemma {:induction false} TopWritesBehind(d: bytes, off: nat, n: nat, base: nat, found: bool)
    requires n <= |d|
    ensures Agree(d, PatchTop(d, off, n, base, found).d, 0, off + 12)
    decreases n - off
  {
    hide TopHeader, PatchMoof;
    if off + 8 <= n {
      HeaderLength(d, off, n);
      var b := TopHeader(d, off, n);
      if !b.Truncated? && b.size >= b.hdr && !Overflows(off, b.size) && off + b.size <= n {
        if b.typ != MOOF {
          TopWritesBehind(d, off + b.size, n, base, found);
        } else {
          MoofWritesBehind(d, off + b.hdr, off + b.size, base, found);
          var r := PatchMoof(d, off + b.hdr, off + b.size, base, found);
          if r.status == Ok {
            TopWritesBehind(r.d, off + b.size, n, base, r.found);
          }
        }
      }
    }
  }

  /** d has become e: the boxes now met say how the patch ended, it has changed their values only, and
      if it succeeded they all read base. */
  ghost predicate Left(d: bytes, e: bytes, status: Status, boxes: seq<Box>, base: nat) {
    && status == Verdict(e, boxes) && OnlyValues(d, e, boxes)
    && (status == Ok ==> ReadsBase(e, boxes, base))
  }

  lemma OnlyValuesCompose(d: bytes, d1: bytes, d2: bytes, a: seq<Box>, b: seq<Box>)
    requires OnlyValues(d, d1, a) && OnlyValues(d1, d2, b)
    ensures OnlyValues(d, d2, a + b)
  {
    forall k | 0 <= k < |d| && !InValue(k, a + b) ensures d2[k] == d[k] {
      assert !InValue(k, a) && !InValue(k, b);
    }
  }

  lemma ReadsBoth(e: bytes, a: seq<Box>, b: seq<Box>, base: nat)
    requires ReadsBase(e, a, base) && ReadsBase(e, b, base)
    ensures ReadsBase(e, a + b, base)
  {
  }

  lemma LeftNothing(d: bytes, base: nat)
    ensures Left(d, d, Ok, [], base)
  {
  }

  /** A box that is not patched: no tfdt, or faulty. */
  lemma LeftAlone(d: bytes, b: Box, base: nat)
    requires !Tfdt(b) || Fault(d, b) != Ok
    ensures Left(d, d, Fault(d, b), [b], base)
  {
    OneBox(d, b);
  }

  lemma LeftPut(d: bytes, b: Box, base: nat)
    requires Tfdt(b) && Fault(d, b) == Ok && base < 0x1_0000_0000_0000_0000
    ensures Left(d, Put(d, b.off + 12, base), Ok, [b], base)
  {
    var e := Put(d, b.off + 12, base);
    PutReadsBack(d, b.off + 12, base);
    OneBox(e, b);
    forall k | 0 <= k < |d| && !InValue(k, [b]) ensures e[k] == d[k] {
      assert b in [b];
    }
  }

  /** Everything a walk reads about these boxes, and their values, lies below. */
  ghost predicate Below(boxes: seq<Box>, top: int) {
    forall b :: b in boxes ==> b.off + 20 <= top
  }

  lemma {:induction false} VerdictAgrees(d: bytes, e: bytes, boxes: seq<Box>, top: int)
    requires Agree(d, e, 0, top) && Below(boxes, top)
    ensures Verdict(e, boxes) == Verdict(d, boxes)
  {
    if boxes != [] {
      assert boxes == [boxes[0]] + boxes[1..];
      assert boxes[0] in boxes;
      VerdictAgrees(d, e, boxes[1..], top);
    }
  }

  lemma ReadsBaseAgrees(d: bytes, e: bytes, boxes: seq<Box>, top: int, base: nat)
    requires Agree(d, e, 0, top) && Below(boxes, top) && ReadsBase(d, boxes, base)
    ensures ReadsBase(e, boxes, base)
  {
    forall b | b in boxes && Tfdt(b) ensures b.off + 20 <= |e| && U64(e, b.off + 12) == base {
      U64Agrees(d, e, b.off + 12);
    }
  }

  /** A first part, patched successfully, then the rest behind it. */
  lemma LeftCompose(d: bytes, d1: bytes, d2: bytes, status: Status, a: seq<Box>, b: seq<Box>, top: int, base: nat)
    requires Left(d, d1, Ok, a, base) && Left(d1, d2, status, b, base)
    requires Below(a, top) && Agree(d1, d2, 0, top)
    ensures Left(d, d2, status, a + b, base)
  {
    hide Agree, Below, OnlyValues, ReadsBase, HasTfdt;
    VerdictAgrees(d1, d2, a, top);
    VerdictOfBoth(d2, a, b);
    OnlyValuesCompose(d, d1, d2, a, b);
    ReadsBaseAgrees(d1, d2, a, top, base);
    if status == Ok {
      ReadsBoth(d2, a, b, base);
    }
  }

  /** A first part that failed; nothing is patched behind it. */
  lemma LeftFailed(d: bytes, e: bytes, status: Status, a: seq<Box>, b: seq<Box>, base: nat)
    requires Left(d, e, status, a, base) && status != Ok
    ensures Left(d, e, status, a + b, base)
  {
    VerdictOfBoth(e, a, b);
    OnlyValuesCompose(d, e, e, a, b);
  }

  lemma AgreeUp(d: bytes, e: bytes, top: int, low: int)
    requires Agree(d, e, 0, top) && low <= top
    ensures Agree(d, e, 0, low) && |d| == |e|
  {
  }

  lemma BelowOne(b: Box, top: int)
    requires b.off + 20 <= top
    ensures Below([b], top)
  {
  }

  lemma HeaderBelow(d: bytes, e: bytes, i: nat, top: int)
    requires Agree(d, e, 0, top) && i + 8 <= top && i + 8 <= |d|
    ensures |e| == |d| && U32(e, i) == U32(d, i) && U32(e, i + 4) == U32(d, i + 4)
  {
    U32Agrees(d, e, i);
    U32Agrees(d, e, i + 4);
  }

  lemma {:induction false} TrafLeft(d: bytes, i: nat, hi: nat, base: nat, found: bool)
    requires hi <= |d| && base < 0x1_0000_0000_0000_0000
    ensures var r := PatchTraf(d, i, hi, base, found);
      && Left(d, r.d, r.status, WalkTraf(r.d, i, hi), base)
      && (r.status == Ok ==> (r.found <==> found || HasTfdt(WalkTraf(r.d, i, hi))))
    decreases hi - i
  {
    hide U32, Put, Left, Agree, Below, HasTfdt, Fault, Verdict;
    if i + 8 > hi {
      LeftNothing(d, base);
      NoBoxes();
    } else {
      var b := Box(2, i, 8, U32(d, i), U32(d, i + 4), hi);
      var r := PatchTraf(d, i, hi, base, found);
      TrafWritesBehind(d, i, hi, base, found);
      HeaderBelow(d, r.d, i, i + 12);
      OneBox(d, b);
      FaultIs(d, b);
      if !Sound(b) {
        LeftAlone(d, b, base);
      } else {
        var d1 := if Tfdt(b) && Fault(d, b) == Ok then Put(d, i + 12, base) else d;
        var f1 := found || Tfdt(b);
        if Tfdt(b) && Fault(d, b) != Ok {
          LeftAlone(d, b, base);
          LeftFailed(d, d, Fault(d, b), [b], WalkTraf(d, i + b.size, hi), base);
        } else {
          if Tfdt(b) {
            LeftPut(d, b, base);
          } else {
            LeftAlone(d, b, base);
          }
          TrafLeft(d1, i + b.size, hi, base, f1);
          TrafWritesBehind(d1, i + b.size, hi, base, f1);
          AgreeUp(d1, r.d, i + b.size + 12, i + 20);
          BelowOne(b, i + 20);
          LeftCompose(d, d1, r.d, r.status, [b], WalkTraf(r.d, i + b.size, hi), i + 20, base);
          VerdictOfBoth(r.d, [b], WalkTraf(r.d, i + b.size, hi));
        }
      }
    }
  }

  /** Boxes that start before `hi` have their values below hi + 12. */
  lemma InOrderIsBelow(boxes: seq<Box>, lo: int, hi: int)
    requires InOrder(boxes, lo, hi) && lo <= hi
    ensures Below(boxes, hi + 12)
  {
    forall b | b in boxes ensures b.off + 20 <= hi + 12 {
      assert Width(b) >= 8;
    }
  }

  lemma PlainFault(d: bytes, b: Box)
    requires b.level == 1
    ensures !Tfdt(b) && Fault(d, b) == if Sound(b) then Ok else Malformed
  {
  }

  /** A walk depends on the bytes of its range only. */
  lemma {:induction false} TrafAgrees(d: bytes, e: bytes, i: nat, hi: nat)
    requires hi <= |d| && Agree(d, e, i, hi)
    ensures WalkTraf(d, i, hi) == WalkTraf(e, i, hi)
    decreases hi - i
  {
    hide U32;
    if i + 8 <= hi {
      U32Agrees(d, e, i);
      U32Agrees(d, e, i + 4);
      var size := U32(d, i);
      if size >= 8 && i + size <= hi {
        TrafAgrees(d, e, i + size, hi);
      }
    }
  }

  lemma InnerWalkKept(d: bytes, e: bytes, lo: nat, hi: nat)
    requires hi <= |d| && Agree(d, e, 0, hi + 12)
    ensures |e| == |d| && WalkTraf(e, lo, hi) == WalkTraf(d, lo, hi)
  {
    AgreePart(d, e, 0, hi + 12, lo, hi);
    TrafAgrees(d, e, lo, hi);
  }

  /** A box with what is in it, both patched, then the rest. */
  lemma MoofJoin(d: bytes, d1: bytes, r: Patched, b: Box, inner: seq<Box>, rest: seq<Box>, mid: int, base: nat)
    requires Left(d, d1, Ok, [b] + inner, base) && Left(d1, r.d, r.status, rest, base)
    requires b.off + 8 <= mid && Below(inner, mid + 12) && Agree(d1, r.d, 0, mid + 12)
    ensures Left(d, r.d, r.status, [b] + inner + rest, base)
    ensures HasTfdt([b] + inner + rest) <==> Tfdt(b) || HasTfdt(inner) || HasTfdt(rest)
  {
    assert Below([b] + inner, mid + 12);
    hide Left, Below, Agree, HasTfdt;
    LeftCompose(d, d1, r.d, r.status, [b] + inner, rest, mid + 12, base);
    VerdictOfThree(d, b, inner, rest);
  }

  lemma {:induction false} MoofLeft(d: bytes, off: nat, hi: nat, base: nat, found: bool)
    requires hi <= |d| && base < 0x1_0000_0000_0000_0000
    ensures var r := PatchMoof(d, off, hi, base, found);
      && Left(d, r.d, r.status, WalkMoof(r.d, off, hi), base)
      && (r.status == Ok ==> (r.found <==> found || HasTfdt(WalkMoof(r.d, off, hi))))
    decreases hi - off
  {
    hide U32, Left, Agree, Below, HasTfdt, Fault, Verdict, PatchTraf, WalkTraf, InOrder;
    NoBoxes();
    if off + 8 > hi {
      LeftNothing(d, base);
    } else {
      var b := Box(1, off, 8, U32(d, off), U32(d, off + 4), hi);
      var r := PatchMoof(d, off, hi, base, found);
      MoofWritesBehind(d, off, hi, base, found);
      HeaderBelow(d, r.d, off, off + 12);
      OneBox(d, b);
      PlainFault(d, b);
      LeftAlone(d, b, base);
      if Sound(b) {
        var mid := off + b.size;
        BelowOne(b, off + 20);
        if b.typ == TRAF {
          var r1 := PatchTraf(d, off + 8, mid, base, found);
          TrafLeft(d, off + 8, mid, base, found);
          TrafWritesBehind(d, off + 8, mid, base, found);
          LeftCompose(d, d, r1.d, r1.status, [b], WalkTraf(r1.d, off + 8, mid), off + 20, base);
          TrafInOrder(r1.d, off + 8, mid);
          InOrderIsBelow(WalkTraf(r1.d, off + 8, mid), off + 8, mid);
          if r1.status != Ok {
            LeftFailed(d, r1.d, r1.status, [b] + WalkTraf(r1.d, off + 8, mid), WalkMoof(r1.d, mid, hi), base);
          } else {
            MoofLeft(r1.d, mid, hi, base, r1.found);
            MoofWritesBehind(r1.d, mid, hi, base, r1.found);
            InnerWalkKept(r1.d, r.d, off + 8, mid);
            MoofJoin(d, r1.d, r, b, WalkTraf(r1.d, off + 8, mid), WalkMoof(r.d, mid, hi), mid, base);
          }
        } else {
          MoofLeft(d, mid, hi, base, found);
          MoofWritesBehind(d, mid, hi, base, found);
          AgreeUp(d, r.d, mid + 12, off + 20);
          LeftCompose(d, d, r.d, r.status, [b], WalkMoof(r.d, mid, hi), off + 20, base);
          VerdictOfBoth(r.d, [b], WalkMoof(r.d, mid, hi));
          assert [b] + [] == [b];
        }
      }
    }
  }

  lemma SameHeader(d: bytes, e: bytes, off: nat, hi: nat)
    requires off + 8 <= hi <= |d| && Agree(d, e, off, hi)
    ensures |e| == |d| && U32(e, off) == U32(d, off) && U32(e, off + 4) == U32(d, off + 4)
  {
    U32Agrees(d, e, off);
    U32Agrees(d, e, off + 4);
  }

  lemma {:induction false} MoofAgrees(d: bytes, e: bytes, off: nat, hi: nat)
    requires hi <= |d| && Agree(d, e, off, hi)
    ensures WalkMoof(d, off, hi) == WalkMoof(e, off, hi)
    decreases hi - off
  {
    hide U32, WalkTraf, Agree;
    if off + 8 <= hi {
      SameHeader(d, e, off, hi);
      var b := Box(1, off, 8, U32(d, off), U32(d, off + 4), hi);
      if Sound(b) {
        AgreePart(d, e, off, hi, off + b.size, hi);
        MoofAgrees(d, e, off + b.size, hi);
        AgreePart(d, e, off, hi, off + 8, off + b.size);
        TrafAgrees(d, e, off + 8, off + b.size);
      }
    }
  }

  lemma TopBoxBelow(d: bytes, e: bytes, off: nat, n: nat, top: int)
    requires off + 8 <= n <= |d| && Agree(d, e, 0, top) && off + TopBox(d, off, n).hdr <= top
    ensures |e| == |d| && TopBox(e, off, n) == TopBox(d, off, n)
  {
    U32Agrees(d, e, off);
    U32Agrees(d, e, off + 4);
    if U32(d, off) == 1 && off + 16 <= n {
      U64Agrees(d, e, off + 8);
    }
  }

  lemma TopFault(d: bytes, off: nat, n: nat)
    requires off + 8 <= n <= |d|
    ensures var b := TopBox(d, off, n);
      && !Tfdt(b)
      && Fault(d, b) == (if b.size >= b.hdr && Overflows(off, b.size) then Panic
                         else if !Sound(b) then Malformed else Ok)
  {
  }

  lemma LeftStatus(d: bytes, e: bytes, status: Status, boxes: seq<Box>, base: nat)
    requires Left(d, e, status, boxes, base)
    ensures status == Verdict(e, boxes)
  {
  }

  lemma MoofWalkKept(d: bytes, e: bytes, lo: nat, hi: nat)
    requires hi <= |d| && Agree(d, e, 0, hi + 12)
    ensures |e| == |d| && WalkMoof(e, lo, hi) == WalkMoof(d, lo, hi)
  {
    AgreePart(d, e, 0, hi + 12, lo, hi);
    MoofAgrees(d, e, lo, hi);
  }

  lemma TopUnsound(d: bytes, off: nat, n: nat, base: nat, found: bool)
    requires off + 8 <= n <= |d| && !Sound(TopBox(d, off, n))
    ensures PatchTop(d, off, n, base, found) == Patched(d, found, Fault(d, TopBox(d, off, n)))
    ensures Fault(d, TopBox(d, off, n)) != Ok && WalkTop(d, off, n) == [TopBox(d, off, n)]
  {
  }

  lemma TopSound(d: bytes, off: nat, n: nat)
    requires off + 8 <= n <= |d| && Sound(TopBox(d, off, n))
    ensures var b := TopBox(d, off, n);
      TopHeader(d, off, n) == Header(b.size, b.hdr, b.typ) && !Overflows(off, b.size)
  {
  }

  /** The same of the top level, where a patch that has found no tfdt has failed too. */
  ghost predicate LeftAtTop(d: bytes, off: nat, n: nat, base: nat, found: bool)
    requires n <= |d|
  {
    var r := PatchTop(d, off, n, base, found);
    var w := WalkTop(r.d, off, n);
    && Left(d, r.d, Verdict(r.d, w), w, base)
    && r.status == if Verdict(r.d, w) == Ok && !found && !HasTfdt(w) then NoTfdt else Verdict(r.d, w)
  }

  /** A moof, then the rest. */
  lemma LeftMoof(d: bytes, off: nat, n: nat, base: nat, found: bool)
    requires n <= |d|
    requires base < 0x1_0000_0000_0000_0000
    requires off + 8 <= n && Sound(TopBox(d, off, n)) && TopBox(d, off, n).typ == MOOF
    requires var b := TopBox(d, off, n);
      var r1 := PatchMoof(d, off + b.hdr, off + b.size, base, found);
      r1.status == Ok ==> LeftAtTop(r1.d, off + b.size, n, base, r1.found)
    ensures LeftAtTop(d, off, n, base, found)
  {
    hide U32, Left, Agree, Below, HasTfdt, Fault, Verdict, PatchMoof, WalkMoof, InOrder, TopBox;
    TopBoxAt(d, off, n);
    TopFault(d, off, n);
    TopSound(d, off, n);
    var b, r := TopBox(d, off, n), PatchTop(d, off, n, base, found);
    var mid := off + b.size;
    OneBox(d, b);
    LeftAlone(d, b, base);
    BelowOne(b, off + 20);
    var r1 := PatchMoof(d, off + b.hdr, mid, base, found);
    MoofLeft(d, off + b.hdr, mid, base, found);
    MoofWritesBehind(d, off + b.hdr, mid, base, found);
    AgreeUp(d, r1.d, off + b.hdr + 12, off + 20);
    var inner := WalkMoof(r1.d, off + b.hdr, mid);
    LeftCompose(d, d, r1.d, r1.status, [b], inner, off + 20, base);
    MoofInOrder(r1.d, off + b.hdr, mid);
    InOrderIsBelow(inner, off + b.hdr, mid);
    TopBoxBelow(d, r1.d, off, n, off + b.hdr + 12);
    if r1.status != Ok {
      LeftFailed(d, r1.d, r1.status, [b] + inner, WalkTop(r1.d, mid, n), base);
      LeftStatus(d, r1.d, r1.status, [b] + inner + WalkTop(r1.d, mid, n), base);
    } else {
      TopWritesBehind(r1.d, mid, n, base, r1.found);
      MoofWalkKept(r1.d, r.d, off + b.hdr, mid);
      TopBoxBelow(r1.d, r.d, off, n, mid + 12);
      var status := Verdict(r.d, WalkTop(r.d, mid, n));
      MoofJoin(d, r1.d, Patched(r.d, r.found, status), b, inner, WalkTop(r.d, mid, n), mid, base);
      LeftStatus(d, r.d, status, [b] + inner + WalkTop(r.d, mid, n), base);
    }
  }

  /** A box of another type, then the rest. */
  lemma LeftOther(d: bytes, off: nat, n: nat, base: nat, found: bool)
    requires off + 8 <= n <= |d| && Sound(TopBox(d, off, n)) && TopBox(d, off, n).typ != MOOF
    requires LeftAtTop(d, off + TopBox(d, off, n).size, n, base, found)
    ensures LeftAtTop(d, off, n, base, found)
  {
    hide U32, Left, Agree, Below, HasTfdt, Fault, Verdict, PatchMoof, WalkMoof, TopBox;
    TopBoxAt(d, off, n);
    TopFault(d, off, n);
    TopSound(d, off, n);
    var b, r := TopBox(d, off, n), PatchTop(d, off, n, base, found);
    var mid := off + b.size;
    OneBox(d, b);
    LeftAlone(d, b, base);
    BelowOne(b, off + 20);
    TopWritesBehind(d, mid, n, base, found);
    TopBoxBelow(d, r.d, off, n, mid + 12);
    AgreeUp(d, r.d, mid + 12, off + 20);
    var status := Verdict(r.d, WalkTop(r.d, mid, n));
    LeftCompose(d, d, r.d, status, [b], WalkTop(r.d, mid, n), off + 20, base);
    LeftStatus(d, r.d, status, [b] + WalkTop(r.d, mid, n), base);
    VerdictOfBoth(r.d, [b], WalkTop(r.d, mid, n));
    assert [b] + [] == [b];
  }

  lemma LeftAtEnd(d: bytes, off: nat, n: nat, base: nat, found: bool)
    requires n <= |d|
    requires off + 8 > n
    ensures LeftAtTop(d, off, n, base, found)
  {
    LeftNothing(d, base);
    NoBoxes();
  }

  lemma LeftAtUnsound(d: bytes, off: nat, n: nat, base: nat, found: bool)
    requires off + 8 <= n <= |d| && !Sound(TopBox(d, off, n))
    ensures LeftAtTop(d, off, n, base, found)
  {
    hide Fault, TopBox, PatchTop, WalkTop, Left;
    var b := TopBox(d, off, n);
    TopUnsound(d, off, n, base, found);
    LeftAlone(d, b, base);
    OneBox(d, b);
  }

  lemma {:induction false} TopLeft(d: bytes, off: nat, n: nat, base: nat, found: bool)
    requires n <= |d|
    requires base < 0x1_0000_0000_0000_0000
    ensures LeftAtTop(d, off, n, base, found)
    decreases n - off
  {
    hide TopBox, PatchMoof, LeftAtTop;
    if off + 8 > n {
      LeftAtEnd(d, off, n, base, found);
    } else {
      TopBoxAt(d, off, n);
      var b := TopBox(d, off, n);
      if !Sound(b) {
        LeftAtUnsound(d, off, n, base, found);
      } else if b.typ == MOOF {
        var r1 := PatchMoof(d, off + b.hdr, off + b.size, base, found);
        if r1.status == Ok {
          TopLeft(r1.d, off + b.size, n, base, r1.found);
        }
        LeftMoof(d, off, n, base, found);
      } else {
        TopLeft(d, off + b.size, n, base, found);
        LeftOther(d, off, n, base, found);
      }
    }
  }
}
