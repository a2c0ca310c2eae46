/** The transcoder's passes over ffmpeg output, on the buffer itself. */
module Transcode {
  import opened MachineInts
  import opened Mp4Boxes
  import opened Mp4Patch
  import opened Mp4Search
  import opened Options
  import BE = BigEndian

  method PutUint64(data: array<byte>, i: nat, v: nat)
    requires i + 8 <= data.Length
    modifies data
    ensures data[..] == Put(old(data[..]), i, v)
  {
    var bs := BE.Bytes(v, 8);
    forall k | 0 <= k < 8 {
      data[i + k] := bs[k];
    }
    assert data[..] == Put(old(data[..]), i, v);
  }

  /** The children of the traf in data[i..hi]. */
  method PatchChildren(data: array<byte>, lo: nat, hi: nat, base: nat, wasFound: bool)
    returns (found: bool, status: Status)
    requires lo <= hi <= data.Length
    modifies data
    ensures PatchTraf(old(data[..]), lo, hi, base, wasFound) == Patched(data[..], found, status)
  {
    hide U32, Put;
    found := wasFound;
    var i := lo;
    while i + 8 <= hi
      invariant lo <= i <= hi
      invariant PatchTraf(old(data[..]), lo, hi, base, wasFound) == PatchTraf(data[..], i, hi, base, found)
      decreases hi - i
    {
      var size, typ := U32(data[..], i), U32(data[..], i + 4);
      if size < 8 || i + size > hi {
        return found, Malformed;
      }
      if typ == TFDT {
        if i + 8 >= hi {
          return found, Panic;
        }
        if data[i + 8] != 1 {
          return found, WrongVersion;
        }
        if i + 20 > data.Length {
          return found, Panic;
        }
        PutUint64(data, i + 12, base);
        found := true;
      }
      i := i + size;
    }
    status := Ok;
  }

  method PatchTFDTInBox(data: array<byte>, lo: nat, hi: nat, base: nat, wasFound: bool)
    returns (found: bool, status: Status)
    requires lo <= hi <= data.Length
    modifies data
    ensures PatchMoof(old(data[..]), lo, hi, base, wasFound) == Patched(data[..], found, status)
  {
    hide U32, PatchTraf;
    found := wasFound;
    var off := lo;
    while off + 8 <= hi
      invariant lo <= off <= hi
      invariant PatchMoof(old(data[..]), lo, hi, base, wasFound) == PatchMoof(data[..], off, hi, base, found)
      decreases hi - off
    {
      var size, typ := U32(data[..], off), U32(data[..], off + 4);
      if size < 8 || off + size > hi {
        return found, Malformed;
      }
      if typ == TRAF {
        found, status := PatchChildren(data, off + 8, off + size, base, found);
        if status != Ok {
          return;
        }
      }
      off := off + size;
    }
    status := Ok;
  }

  method PatchBoxes(data: array<byte>, n: nat, base: nat) returns (found: bool, status: Status)
    requires n <= data.Length
    modifies data
    ensures PatchTop(old(data[..]), 0, n, base, false) == Patched(data[..], found, status)
  {
    hide U32, PatchMoof;
    found := false;
    var off := 0;
    while off + 8 <= n
      invariant 0 <= off <= n
      invariant PatchTop(old(data[..]), 0, n, base, false) == PatchTop(data[..], off, n, base, found)
      decreases n - off
    {
      var b := TopHeader(data[..], off, n);
      if b.Truncated? || b.size < b.hdr {
        return found, Malformed;
      }
      if Overflows(off, b.size) {
        return found, Panic;
      }
      if off + b.size > n {
        return found, Malformed;
      }
      if b.typ == MOOF {
        found, status := PatchTFDTInBox(data, off + b.hdr, off + b.size, base, found);
        if status != Ok {
          return;
        }
      }
      off := off + b.size;
    }
    status := if found then Ok else NoTfdt;
  }

  /** Writes base into every tfdt of the fragment, the first n bytes of the array. The boxes met afterwards
      say how that ended; they differ from before in tfdt values only, which read base on success, in the
      fragment itself exactly when none is cut off at its end. With room for every value all this can be
      told from the fragment before. */
  method PatchTFDT(data: array<byte>, n: nat, base: nat) returns (status: Status)
    requires n <= data.Length && base < 0x1_0000_0000_0000_0000
    modifies data
    ensures PatchTop(old(data[..]), 0, n, base, false).d == data[..]
    ensures PatchTop(old(data[..]), 0, n, base, false).status == status
    ensures var u := WalkTop(data[..], 0, n);
      && status == Ending(data[..], u) && OnlyValues(old(data[..]), data[..], u)
      && (status == Ok ==>
            HasTfdt(u) && ReadsBase(data[..], u, base) && (ReadsBase(data[..n], u, base) <==> Uncut(u, n)))
    ensures var t := WalkTop(old(data[..]), 0, n);
      Roomy(t) ==> status == Ending(old(data[..]), t) && WalkTop(data[..], 0, n) == t
  {
    hide PatchTop, WalkTop, OnlyValues, ReadsBase, HasTfdt, Roomy, Uncut, Ending, Fault;
    var _, s := PatchBoxes(data, n, base);
    status := s;
    assert data[..][..n] == data[..n];
    PatchLeaves(old(data[..]), n, base);
    PatchWithRoom(old(data[..]), n, base);
  }

  /** The loop over the first n bytes of the array. */
  method Search(data: array<byte>, n: nat, typ: nat) returns (r: Found)
    requires n <= data.Length
    ensures r == FirstBox(data[..n], 0, typ)
  {
    hide U32;
    var off := 0;
    while off + 8 <= n
      invariant FirstBox(data[..n], 0, typ) == FirstBox(data[..n], off, typ)
      decreases n - off
    {
      var b := TopHeader(data[..n], off, n);
      if b.Truncated? {
        return NotFound;
      }
      if b.typ == typ {
        return At(off);
      }
      if b.size < b.hdr {
        return NotFound;
      }
      if Overflows(off, b.size) {
        return Crash;
      }
      off := off + b.size;
    }
    r := NotFound;
  }

  method FirstBoxOffset(data: array<byte>, n: nat, typ: nat) returns (r: Found)
    requires n <= data.Length
    ensures r == FirstBox(data[..n], 0, typ)
    ensures forall off: nat :: r == At(off) <==> Starts(data[..n], off, typ) && Fills(data[..n], 0, off, typ)
  {
    r := Search(data, n, typ);
    forall off: nat
      ensures r == At(off) <==> Starts(data[..n], off, typ) && Fills(data[..n], 0, off, typ)
    {
      FirstBoxIsFirst(data[..n], 0, typ, off);
    }
  }

  lemma {:induction false} FoundInRange(d: bytes, lo: nat, typ: nat)
    ensures var f := FirstBox(d, lo, typ); f.At? ==> f.off + 8 <= |d|
    decreases |d| - lo
  {
    hide U32;
    if lo + 8 <= |d| {
      var b := TopHeader(d, lo, |d|);
      if b.Header? && b.size >= b.hdr && !Overflows(lo, b.size) {
        FoundInRange(d, lo + b.size, typ);
      }
    }
  }

  /** The segment file ffmpeg has written, the camera's cached init file and its temporary neighbour. */
  datatype Files = Files(path: bytes, init: Option<bytes>, tmp: Option<bytes>)

  /** A write succeeds, or fails and leaves anything in the file. */
  datatype Write = Written | Torn(left: bytes)

  /** What happens to the file operations, in order; a failed rename has no effect. `spare` is what the
      buffer the file is read into holds behind its bytes, up to its capacity. */
  datatype Io = Io(readable: bool, spare: bytes, tmp: Write, renamed: bool, path: Write)

  datatype Split = Unreadable | NoMoof | SearchCrash | TmpFailed | RenameFailed | PatchFailed(status: Status)
                 | PathFailed | Done

  /** A buffer with these bytes and this spare capacity. */
  method Load(file: bytes, spare: bytes) returns (data: array<byte>)
    ensures fresh(data) && data[..] == file + spare
  {
    var all := file + spare;
    data := new byte[|all|](i requires 0 <= i < |all| => all[i]);
  }

  class Splitter {
    var files: Files

    constructor (files: Files)
      ensures this.files == files
    {
      this.files := files;
    }

    method WriteTmp(data: bytes, w: Write) returns (ok: bool)
      modifies this
      ensures ok == w.Written? && files == old(files).(tmp := Some(if w.Written? then data else w.left))
    {
      files := files.(tmp := Some(if w.Written? then data else w.left));
      ok := w.Written?;
    }

    method WritePath(data: bytes, w: Write) returns (ok: bool)
      modifies this
      ensures ok == w.Written? && files == old(files).(path := if w.Written? then data else w.left)
    {
      files := files.(path := if w.Written? then data else w.left);
      ok := w.Written?;
    }

    method Rename(works: bool) returns (ok: bool)
      requires files.tmp.Some?
      modifies this
      ensures ok == works
      ensures files == if works then old(files).(init := old(files).tmp, tmp := None) else old(files)
    {
      if works {
        files := files.(init := files.tmp, tmp := None);
      }
      ok := works;
    }

    /** Cuts the segment file at its first moof, caches what precedes it and moves the rest to base. The
        cached init file is the old one or the whole new one, never part of it; the segment file changes
        only after a successful patch. */
    method SplitInit(base: nat, io: Io) returns (r: Split)
      requires base < 0x1_0000_0000_0000_0000
      modifies this
      ensures var d, f := old(files).path, FirstBox(old(files).path, 0, MOOF);
        && (r.Unreadable? <==> !io.readable)
        && (r.NoMoof? <==> io.readable && (f == NotFound || f == At(0)))
        && (r.SearchCrash? <==> io.readable && f == Crash)
        && (r.Unreadable? || r.NoMoof? || r.SearchCrash? ==> files == old(files))
        && (io.readable && f.At? && f.off > 0 ==>
              && f.off + 8 <= |d|
              && var n := |d| - f.off;
              var p := PatchTop(d[f.off..] + io.spare, 0, n, base, false);
              && (r.TmpFailed? <==> io.tmp.Torn?)
              && (r.RenameFailed? <==> io.tmp.Written? && !io.renamed)
              && (r.PatchFailed? <==> io.tmp.Written? && io.renamed && p.status != Ok)
              && (r.PatchFailed? ==> r.status == p.status)
              && (r.PathFailed? <==> io.tmp.Written? && io.renamed && p.status == Ok && io.path.Torn?)
              && files.init == (if io.tmp.Written? && io.renamed then Some(d[..f.off]) else old(files).init)
              && files.path == (if r.Done? then p.d[..n] else if r.PathFailed? then io.path.left else d)
              && (r.Done? ==>
                    var u := WalkTop(p.d, 0, n); ReadsBase(files.path, u, base) <==> Uncut(u, n)))
    {
      hide PatchTop, FirstBox, WalkTop, Starts, Fills, OnlyValues, ReadsBase, HasTfdt, Roomy, Ending, Uncut;
      if !io.readable {
        return Unreadable;
      }
      var size := |files.path|;
      var data := Load(files.path, io.spare);
      assert data[..size] == files.path;
      var f := FirstBoxOffset(data, size, MOOF);
      if f == Crash {
        return SearchCrash;
      }
      if f == NotFound || f.off == 0 {
        return NoMoof;
      }
      FoundInRange(data[..size], 0, MOOF);
      assert data[..f.off] == files.path[..f.off];
      var ok := WriteTmp(data[..f.off], io.tmp);
      if !ok {
        return TmpFailed;
      }
      ok := Rename(io.renamed);
      if !ok {
        return RenameFailed;
      }
      var frag := Load(data[f.off..size], io.spare);
      assert data[f.off..size] == old(files).path[f.off..];
      var n := size - f.off;
      var status := PatchTFDT(frag, n, base);
      if status != Ok {
        return PatchFailed(status);
      }
      assert frag[..][..n] == frag[..n];
      ok := WritePath(frag[..n], io.path);
      r := if ok then Done else PathFailed;
    }
  }
}
