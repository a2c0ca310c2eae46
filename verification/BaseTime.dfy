/** The base media decode time written into a segment: wall clock on a track's timescale. */
module BaseTime {
  import opened MachineInts

  /** The recorder's value for a wall-clock time given as seconds and nanoseconds within the second. */
  function OfRecorder(sec: int, nsec: nat, scale: nat): int {
    ToUint64(ToUint64(ToUint64(sec) * scale) + ToUint64((nsec / 1_000_000) * scale) / 1000)
  }

  /** Milliseconds since the epoch, as an int64. */
  function UnixMilli(sec: int, nsec: nat): int {
    ToInt64(ToInt64(sec * 1000) + nsec / 1_000_000)
  }

  /** The transcoder's value, on the 90 kHz video clock. */
  function OfTranscoder(sec: int, nsec: nat): int {
    ToUint64(ToUint64(UnixMilli(sec, nsec)) * 90)
  }

  /** uint64 conversion adds a multiple of 2^64. */
  lemma Wraps(x: int) returns (k: int)
    ensures ToUint64(x) == x + k * 0x1_0000_0000_0000_0000
    ensures 0 <= ToUint64(x) < 0x1_0000_0000_0000_0000
  {
    k := -(x / 0x1_0000_0000_0000_0000);
  }

  lemma WrapsSigned(x: int) returns (k: int)
    ensures ToInt64(x) == x + k * 0x1_0000_0000_0000_0000
  {
    if -0x8000_0000_0000_0000 <= x < 0x8000_0000_0000_0000 {
      k := 0;
    } else {
      k := -((x + 0x8000_0000_0000_0000) / 0x1_0000_0000_0000_0000);
    }
  }

  lemma Fits(x: int)
    requires 0 <= x < 0x1_0000_0000_0000_0000
    ensures ToUint64(x) == x
  {
  }

  lemma RecorderSum(sec: int, nsec: nat) returns (k: int)
    requires nsec < 1_000_000_000
    ensures OfRecorder(sec, nsec, 90_000) == sec * 90_000 + nsec / 1_000_000 * 90 + k * 0x1_0000_0000_0000_0000
    ensures 0 <= OfRecorder(sec, nsec, 90_000) < 0x1_0000_0000_0000_0000
  {
    hide ToUint64;
    var ms := nsec / 1_000_000;
    Fits(ms * 90_000);
    var a := Wraps(sec);
    var b := Wraps(ToUint64(sec) * 90_000);
    var c := Wraps(ToUint64(ToUint64(sec) * 90_000) + ms * 90);
    k := a * 90_000 + b + c;
  }

  lemma TranscoderSum(sec: int, nsec: nat) returns (k: int)
    ensures OfTranscoder(sec, nsec) == sec * 90_000 + nsec / 1_000_000 * 90 + k * 0x1_0000_0000_0000_0000
    ensures 0 <= OfTranscoder(sec, nsec) < 0x1_0000_0000_0000_0000
  {
    hide ToUint64, ToInt64;
    var a := WrapsSigned(sec * 1000);
    var b := WrapsSigned(ToInt64(sec * 1000) + nsec / 1_000_000);
    var c := Wraps(UnixMilli(sec, nsec));
    var e := Wraps(ToUint64(UnixMilli(sec, nsec)) * 90);
    k := (a + b + c) * 90 + e;
  }

  /** The recorder and the transcoder write the same base time on the video clock, for every time,
      before or after the epoch and however the int64 and uint64 products wrap. */
  lemma SameBaseTime(sec: int, nsec: nat)
    requires nsec < 1_000_000_000
    ensures OfRecorder(sec, nsec, 90_000) == OfTranscoder(sec, nsec)
  {
    hide OfRecorder, OfTranscoder;
    var a := RecorderSum(sec, nsec);
    var b := TranscoderSum(sec, nsec);
    assert a == b;
  }

  lemma SplitTicks(sec: int, ms: int, scale: int)
    ensures ((sec * 1000 + ms) * scale) / 1000 == sec * scale + ms * scale / 1000
  {
    assert (sec * 1000 + ms) * scale == sec * scale * 1000 + ms * scale;
  }

  lemma SameRest(x: int, y: int, k: int)
    requires 0 <= x < 0x1_0000_0000_0000_0000 && 0 <= y < 0x1_0000_0000_0000_0000
    requires x == y + k * 0x1_0000_0000_0000_0000
    ensures x == y
  {
  }

  /** On any track, audio included, the recorder's value is the ticks of the whole milliseconds since the epoch,
      rounded down, in 64 bits. */
  lemma TicksOnAnyScale(sec: int, nsec: nat, scale: nat)
    requires nsec < 1_000_000_000 && scale < 0x1_0000_0000
    ensures OfRecorder(sec, nsec, scale) == ToUint64((sec * 1000 + nsec / 1_000_000) * scale / 1000)
  {
    hide ToUint64;
    var ms := nsec / 1_000_000;
    assert 0 <= ms * scale < 0x1_0000_0000_0000_0000;
    Fits(ms * scale);
    SplitTicks(sec, ms, scale);
    var a := Wraps(sec);
    var b := Wraps(ToUint64(sec) * scale);
    var c := Wraps(ToUint64(ToUint64(sec) * scale) + ms * scale / 1000);
    var e := Wraps(sec * scale + ms * scale / 1000);
    SameRest(OfRecorder(sec, nsec, scale), ToUint64(sec * scale + ms * scale / 1000), a * scale + b + c - e);
  }
}
