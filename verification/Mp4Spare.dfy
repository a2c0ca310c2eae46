/** With enough spare capacity, neither the ending of a patch nor its first n bytes depend on what lies
    behind them, or on how much. */
module Mp4Spare {
  import opened MachineInts
  import opened Mp4Boxes

  /** Both have the same first n bytes, and 11 more. */
  ghost predicate SameFront(d: bytes, e: bytes, n: nat) {
    n + 11 <= |d| && n + 11 <= |e| && forall k :: 0 <= k < n ==> d[k] == e[k]
  }

  lemma FrontWords(d: bytes, e: bytes, n: nat, i: nat)
    requires SameFront(d, e, n) && i + 8 <= n
    ensures U32(d, i) == U32(e, i) && U32(d, i + 4) == U32(e, i + 4)
  {
    assert d[i..i + 4] == e[i..i + 4] && d[i + 4..i + 8] == e[i + 4..i + 8];
  }

  lemma FrontHeader(d: bytes, e: bytes, n: nat, off: nat)
    requires SameFront(d, e, n) && off + 8 <= n
    ensures TopHeader(d, off, n) == TopHeader(e, off, n)
    ensures var b := TopHeader(d, off, n); b.Header? ==> b.hdr >= 8
  {
    FrontWords(d, e, n, off);
    if off + 16 <= n {
      assert d[off + 8..off + 16] == e[off + 8..off + 16];
    }
  }

  lemma FrontPut(d: bytes, e: bytes, n: nat, i: nat, v: nat)
    requires SameFront(d, e, n) && i + 8 <= |d| && i + 8 <= |e|
    ensures SameFront(Put(d, i, v), Put(e, i, v), n)
  {
  }

  /** Two patches that went the same way. */
  ghost predicate SameWay(p: Patched, q: Patched, n: nat) {
    p.status == q.status && p.found == q.found && SameFront(p.d, q.d, n)
  }

  lemma {:induction false} TrafSameWay(d: bytes, e: bytes, n: nat, i: nat, hi: nat, base: nat, found: bool)
    requires SameFront(d, e, n) && hi <= n
    ensures SameWay(PatchTraf(d, i, hi, base, found), PatchTraf(e, i, hi, base, found), n)
    decreases hi - i
  {
    hide U32, Put;
    if i + 8 <= hi {
      FrontWords(d, e, n, i);
      var size := U32(d, i);
      if size >= 8 && i + size <= hi {
        if U32(d, i + 4) != TFDT {
          TrafSameWay(d, e, n, i + size, hi, base, found);
        } else if i + 8 < hi && d[i + 8] == 1 {
          FrontPut(d, e, n, i + 12, base);
          TrafSameWay(Put(d, i + 12, base), Put(e, i + 12, base), n, i + size, hi, base, true);
        }
      }
    }
  }

  lemma {:induction false} MoofSameWay(d: bytes, e: bytes, n: nat, off: nat, hi: nat, base: nat, found: bool)
    requires SameFront(d, e, n) && hi <= n
    ensures SameWay(PatchMoof(d, off, hi, base, found), PatchMoof(e, off, hi, base, found), n)
    decreases hi - off
  {
    hide U32, PatchTraf;
    if off + 8 <= hi {
      FrontWords(d, e, n, off);
      var size := U32(d, off);
      if size >= 8 && off + size <= hi {
        if U32(d, off + 4) != TRAF {
          MoofSameWay(d, e, n, off + size, hi, base, found);
        } else {
          TrafSameWay(d, e, n, off + 8, off + size, base, found);
          var p, q := PatchTraf(d, off + 8, off + size, base, found), PatchTraf(e, off + 8, off + size, base, found);
          if p.status == Ok {
            MoofSameWay(p.d, q.d, n, off + size, hi, base, p.found);
          }
        }
      }
    }
  }

  lemma {:induction false} TopSameWay(d: bytes, e: bytes, off: nat, n: nat, base: nat, found: bool)
    requires SameFront(d, e, n)
    ensures SameWay(PatchTop(d, off, n, base, found), PatchTop(e, off, n, base, found), n)
    decreases n - off
  {
    hide TopHeader, PatchMoof;
    if off + 8 <= n {
      FrontHeader(d, e, n, off);
      var b := TopHeader(d, off, n);
      if !b.Truncated? && b.size >= b.hdr && !Overflows(off, b.size) && off + b.size <= n {
        if b.typ != MOOF {
          TopSameWay(d, e, off + b.size, n, base, found);
        } else {
          MoofSameWay(d, e, n, off + b.hdr, off + b.size, base, found);
          var p := PatchMoof(d, off + b.hdr, off + b.size, base, found);
          var q := PatchMoof(e, off + b.hdr, off + b.size, base, found);
          if p.status == Ok {
            TopSameWay(p.d, q.d, off + b.size, n, base, p.found);
          }
        }
      }
    }
  }

  /** So the outcome for a file is told from its bytes alone, once the buffer has 11 bytes to spare. */
  lemma SpareIsUnseen(file: bytes, spare: bytes, other: bytes, base: nat)
    requires |spare| >= 11 && |other| >= 11
    ensures var p, q := PatchTop(file + spare, 0, |file|, base, false), PatchTop(file + other, 0, |file|, base, false);
      p.status == q.status && p.d[..|file|] == q.d[..|file|]
  {
    TopSameWay(file + spare, file + other, 0, |file|, base, false);
  }
}
