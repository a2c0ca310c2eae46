/** The PGM (P5) stream parser, proved against a printer that writes headers with any whitespace
    and comments. */
module Pgm {
  import opened MachineInts
  import opened Options

  const SPACE: byte := 32
  const HASH: byte := 35
  const NEWLINE: byte := 10
  const PLUS: byte := 43
  const MINUS: byte := 45
  const ZERO: byte := 48
  const MAX_DIM := 4096
  const MAGIC: bytes := [80, 53]

  /** One decoded frame, or why there is none. */
  datatype Outcome = Frame(img: bytes, w: nat, h: nat) | Eof | BadMagic | BadNumber | BadDims

  /** The outcome and the input that is left. */
  datatype Parsed = Parsed(outcome: Outcome, rest: bytes)

  // ---- the grammar, on what is left of the input -------------------------------------------

  /** Past the end of a comment. */
  function SkipComment(bs: bytes): (r: Option<bytes>)
    ensures r.Some? ==> |r.value| < |bs|
  {
    if bs == [] then None
    else if bs[0] == NEWLINE then Some(bs[1..])
    else SkipComment(bs[1..])
  }

  /** From the first byte of the next token on. */
  function Skip(bs: bytes): (r: Option<bytes>)
    ensures r.Some? ==> |r.value| <= |bs| && r.value != [] && r.value[0] > SPACE
    decreases |bs|
  {
    if bs == [] then None
    else if bs[0] == HASH then
      match SkipComment(bs[1..]) { case None => None case Some(r) => Skip(r) }
    else if bs[0] > SPACE then Some(bs)
    else Skip(bs[1..])
  }

  /** A token up to the byte that ends it; that byte is consumed too. */
  function Chars(bs: bytes): (r: Option<(bytes, bytes)>)
    ensures r.Some? ==> |r.value.1| < |bs|
  {
    if bs == [] then None
    else if bs[0] <= SPACE then Some(([], bs[1..]))
    else match Chars(bs[1..]) { case None => None case Some(p) => Some(([bs[0]] + p.0, p.1)) }
  }

  function Token(bs: bytes): (r: Option<(bytes, bytes)>)
    ensures r.Some? ==> |r.value.1| < |bs|
  {
    match Skip(bs) { case None => None case Some(r) => Chars(r) }
  }

  predicate Digit(b: byte) {
    48 <= b <= 57
  }

  /** How many digits a token starts with. */
  function Leading(tok: bytes): (n: nat)
    ensures n <= |tok|
  {
    if tok == [] || !Digit(tok[0]) then 0 else 1 + Leading(tok[1..])
  }

  function Value(ds: bytes): int {
    if ds == [] then 0 else Value(ds[..|ds| - 1]) * 10 + (ds[|ds| - 1] as int - 48)
  }

  /** Sscanf with %d into an int: an optional sign and the digits after it, in int64 range; what
      follows the digits is ignored. */
  function ScanInt(tok: bytes): Option<int> {
    var signed := tok != [] && (tok[0] == PLUS || tok[0] == MINUS);
    var body := if signed then tok[1..] else tok;
    var v := Value(body[..Leading(body)]);
    var n := if signed && tok[0] == MINUS then -v else v;
    if Leading(body) == 0 || n < -0x8000_0000_0000_0000 || n >= 0x8000_0000_0000_0000 then None else Some(n)
  }

  /** A number token: its value and what is left, or the failure. */
  function Number(bs: bytes): (Option<int>, Parsed) {
    match Token(bs)
    case None => (None, Parsed(Eof, []))
    case Some(p) => (ScanInt(p.0), Parsed(BadNumber, p.1))
  }

  function Body(w: int, h: int, bs: bytes): Parsed {
    if w <= 0 || h <= 0 || w > MAX_DIM || h > MAX_DIM then Parsed(BadDims, bs)
    else if |bs| < w * h then Parsed(Eof, [])
    else Parsed(Frame(bs[..w * h], w, h), bs[w * h..])
  }

  function Dims(bs: bytes): Parsed {
    var (w, p1) := Number(bs);
    if w.None? then p1
    else
      var (h, p2) := Number(p1.rest);
      if h.None? then p2
      else
        var (maxv, p3) := Number(p2.rest);
        if maxv.None? then p3 else Body(w.value, h.value, p3.rest)
  }

  function Parse(bs: bytes): Parsed {
    match Token(bs)
    case None => Parsed(Eof, [])
    case Some(p) => if p.0 != MAGIC then Parsed(BadMagic, p.1) else Dims(p.1)
  }

  // ---- the parser --------------------------------------------------------------------------

  function MaxVal(w: int, h: int, bs: bytes): Parsed {
    var (maxv, p) := Number(bs);
    if maxv.None? then p else Body(w, h, p.rest)
  }

  function Height(w: int, bs: bytes): Parsed {
    var (h, p) := Number(bs);
    if h.None? then p else MaxVal(w, h.value, p.rest)
  }

  /** A buffered reader: what has not been read yet. */
  class Reader {
    var data: bytes

    constructor (data: bytes)
      ensures this.data == data
    {
      this.data := data;
    }

    /** None at the end of the stream. */
    method ReadByte() returns (b: Option<byte>)
      modifies this
      ensures old(data) == [] ==> b.None? && data == []
      ensures old(data) != [] ==> b == Some(old(data)[0]) && data == old(data)[1..]
    {
      if |data| == 0 {
        b := None;
      } else {
        b := Some(data[0]);
        data := data[1..];
      }
    }

    /** The next token; None when the stream ends first. */
    method ReadToken() returns (tok: Option<bytes>)
      modifies this
      ensures Token(old(data)).None? ==> tok.None? && data == []
      ensures Token(old(data)).Some? ==> tok == Some(Token(old(data)).value.0) && data == Token(old(data)).value.1
    {
      while true
        invariant Skip(data) == Skip(old(data))
        decreases |data|
      {
        ghost var before := data;
        var c := ReadByte();
        if c.None? {
          return None;
        }
        if c.value == HASH {
          while c.value != NEWLINE
            invariant c.Some? && |data| < |before|
            invariant c.value == NEWLINE ==> Skip(data) == Skip(old(data))
            invariant c.value != NEWLINE ==>
              (match SkipComment(data)
               case None => Skip(old(data)).None?
               case Some(r) => Skip(r) == Skip(old(data)))
            decreases |data|
          {
            c := ReadByte();
            if c.None? {
              return None;
            }
          }
          continue;
        }
        if c.value > SPACE {
          var buf := [c.value];
          assert Skip(old(data)) == Some(before);
          assert Token(old(data)) == Chars(before);
          while true
            invariant match Chars(data) {
              case None => Token(old(data)).None?
              case Some(p) => Token(old(data)) == Some((buf + p.0, p.1)) }
            decreases |data|
          {
            c := ReadByte();
            if c.None? {
              return None;
            }
            if c.value <= SPACE {
              assert buf + [] == buf;
              return Some(buf);
            }
            ghost var tail := Chars(data);
            if tail.Some? {
              assert buf + ([c.value] + tail.value.0) == (buf + [c.value]) + tail.value.0;
            }
            buf := buf + [c.value];
          }
        }
      }
    }

    /** io.ReadFull */
    method ReadFull(n: nat) returns (img: Option<bytes>)
      modifies this
      ensures |old(data)| < n ==> img.None? && data == []
      ensures |old(data)| >= n ==> img == Some(old(data)[..n]) && data == old(data)[n..]
    {
      if |data| < n {
        img := None;
        data := [];
      } else {
        img := Some(data[..n]);
        data := data[n..];
      }
    }

    /** Reads one frame. */
    method ReadPGM() returns (outcome: Outcome)
      modifies this
      ensures outcome == Parse(old(data)).outcome && data == Parse(old(data)).rest
    {
      hide Token, ScanInt;
      var magic := ReadToken();
      if magic.None? {
        return Eof;
      }
      if magic.value != MAGIC {
        return BadMagic;
      }
      var dims: seq<int> := [];
      while |dims| < 3
        invariant |dims| <= 3
        invariant match |dims| {
          case 0 => Parse(old(data)) == Dims(data)
          case 1 => Parse(old(data)) == Height(dims[0], data)
          case 2 => Parse(old(data)) == MaxVal(dims[0], dims[1], data)
          case _ => Parse(old(data)) == Body(dims[0], dims[1], data) }
      {
        var tok := ReadToken();
        if tok.None? {
          return Eof;
        }
        var n := ScanInt(tok.value);
        if n.None? {
          return BadNumber;
        }
        dims := dims + [n.value];
      }
      var w, h := dims[0], dims[1];
      if w <= 0 || h <= 0 || w > MAX_DIM || h > MAX_DIM {
        return BadDims;
      }
      var img := ReadFull(w * h);
      if img.None? {
        return Eof;
      }
      return Frame(img.value, w, h);
    }
  }

  // ---- the printer -------------------------------------------------------------------------

  /** What may stand between header tokens: white bytes and comments. */
  datatype Filler = White(b: byte) | Comment(text: bytes)

  predicate FillerOk(f: Filler) {
    match f
    case White(b) => b <= SPACE
    case Comment(text) => NEWLINE !in text
  }

  predicate GapOk(gap: seq<Filler>) {
    forall i :: 0 <= i < |gap| ==> FillerOk(gap[i])
  }

  function PrintFiller(f: Filler): bytes {
    match f
    case White(b) => [b]
    case Comment(text) => [HASH] + text + [NEWLINE]
  }

  function PrintGap(gap: seq<Filler>): bytes {
    if gap == [] then [] else PrintFiller(gap[0]) + PrintGap(gap[1..])
  }

  function Decimal(n: nat): (ds: bytes)
    ensures ds != [] && forall i :: 0 <= i < |ds| ==> Digit(ds[i])
  {
    if n < 10 then [48 + n] else Decimal(n / 10) + [48 + n % 10]
  }

  /** A token with what precedes it and the white byte that ends it. */
  datatype Field = Field(gap: seq<Filler>, end: byte)

  predicate FieldOk(f: Field) {
    GapOk(f.gap) && f.end <= SPACE
  }

  function PrintField(f: Field, tok: bytes): bytes {
    PrintGap(f.gap) + tok + [f.end]
  }

  /** A frame as a producer may write it. */
  datatype Printed = Printed(magic: Field, width: Field, height: Field, max: Field, maxv: nat,
                             w: nat, h: nat, img: bytes)

  ghost predicate PrintedOk(p: Printed) {
    && FieldOk(p.magic) && FieldOk(p.width) && FieldOk(p.height) && FieldOk(p.max)
    && p.maxv < 0x8000_0000_0000_0000
    && 1 <= p.w <= MAX_DIM && 1 <= p.h <= MAX_DIM && |p.img| == p.w * p.h
  }

  function Print(p: Printed): bytes {
    PrintField(p.magic, MAGIC) + (PrintField(p.width, Decimal(p.w)) + (PrintField(p.height, Decimal(p.h))
      + (PrintField(p.max, Decimal(p.maxv)) + p.img)))
  }

  // ---- parsing undoes printing -------------------------------------------------------------

  lemma {:induction false} SkipCommentText(text: bytes, rest: bytes)
    requires NEWLINE !in text
    ensures SkipComment(text + [NEWLINE] + rest) == Some(rest)
  {
    var bs := text + [NEWLINE] + rest;
    if text == [] {
      assert bs[1..] == rest;
    } else {
      assert bs[1..] == text[1..] + [NEWLINE] + rest;
      SkipCommentText(text[1..], rest);
    }
  }

  lemma SkipFiller(f: Filler, rest: bytes)
    requires FillerOk(f)
    ensures Skip(PrintFiller(f) + rest) == Skip(rest)
  {
    var bs := PrintFiller(f) + rest;
    match f
    case White(b) => assert bs[1..] == rest;
    case Comment(text) =>
      assert bs[1..] == text + [NEWLINE] + rest;
      SkipCommentText(text, rest);
  }

  lemma {:induction false} SkipGap(gap: seq<Filler>, rest: bytes)
    requires GapOk(gap)
    ensures Skip(PrintGap(gap) + rest) == Skip(rest)
  {
    if gap == [] {
      assert PrintGap(gap) + rest == rest;
    } else {
      assert PrintGap(gap) + rest == PrintFiller(gap[0]) + (PrintGap(gap[1..]) + rest);
      SkipFiller(gap[0], PrintGap(gap[1..]) + rest);
      SkipGap(gap[1..], rest);
    }
  }

  lemma {:induction false} CharsOfToken(tok: bytes, end: byte, rest: bytes)
    requires end <= SPACE && forall i :: 0 <= i < |tok| ==> tok[i] > SPACE
    ensures Chars(tok + [end] + rest) == Some((tok, rest))
  {
    var bs := tok + [end] + rest;
    if tok == [] {
      assert bs[1..] == rest;
    } else {
      assert bs[1..] == tok[1..] + [end] + rest;
      CharsOfToken(tok[1..], end, rest);
      assert [tok[0]] + tok[1..] == tok;
    }
  }

  predicate TokenOk(tok: bytes) {
    tok != [] && tok[0] != HASH && forall i :: 0 <= i < |tok| ==> tok[i] > SPACE
  }

  /** A field is read as its token, up to and including the white byte after it. */
  lemma TokenOfField(f: Field, tok: bytes, rest: bytes)
    requires FieldOk(f) && TokenOk(tok)
    ensures Token(PrintField(f, tok) + rest) == Some((tok, rest))
  {
    var tail := tok + [f.end] + rest;
    assert PrintField(f, tok) + rest == PrintGap(f.gap) + tail;
    SkipGap(f.gap, tail);
    assert tail[0] == tok[0];
    CharsOfToken(tok, f.end, rest);
  }

  lemma {:induction false} LeadingAll(ds: bytes)
    requires forall i :: 0 <= i < |ds| ==> Digit(ds[i])
    ensures Leading(ds) == |ds|
  {
    if ds != [] {
      LeadingAll(ds[1..]);
    }
  }

  lemma {:induction false} ValueOfDecimal(n: nat)
    ensures Value(Decimal(n)) == n
  {
    if n < 10 {
      assert [48 + n][..0] == [];
    } else {
      ValueOfDecimal(n / 10);
      var ds := Decimal(n / 10);
      assert (ds + [48 + n % 10])[..|ds|] == ds;
    }
  }

  lemma ScanDecimal(n: nat)
    requires n < 0x8000_0000_0000_0000
    ensures ScanInt(Decimal(n)) == Some(n)
  {
    LeadingAll(Decimal(n));
    ValueOfDecimal(n);
    assert Decimal(n)[..|Decimal(n)|] == Decimal(n);
    assert Digit(Decimal(n)[0]);
  }

  lemma NumberOfField(f: Field, n: nat, rest: bytes)
    requires FieldOk(f) && n < 0x8000_0000_0000_0000
    ensures var (v, p) := Number(PrintField(f, Decimal(n)) + rest); v == Some(n) && p.rest == rest
  {
    forall i | 0 <= i < |Decimal(n)| ensures Decimal(n)[i] > SPACE {
      assert Digit(Decimal(n)[i]);
    }
    assert Digit(Decimal(n)[0]);
    TokenOfField(f, Decimal(n), rest);
    ScanDecimal(n);
  }

  lemma Regroup(p: Printed, rest: bytes)
    ensures Print(p) + rest
            == PrintField(p.magic, MAGIC) + (PrintField(p.width, Decimal(p.w)) + (PrintField(p.height, Decimal(p.h))
               + (PrintField(p.max, Decimal(p.maxv)) + (p.img + rest))))
  {
  }

  /** Reading back a printed frame gives exactly its pixels and dimensions, and consumes exactly
      its bytes, whatever the pixels are and whatever follows. */
  lemma ParseUndoesPrint(p: Printed, rest: bytes)
    requires PrintedOk(p)
    ensures Parse(Print(p) + rest) == Parsed(Frame(p.img, p.w, p.h), rest)
  {
    hide Token, Number, PrintField, Decimal;
    var r3 := p.img + rest;
    var r2 := PrintField(p.max, Decimal(p.maxv)) + r3;
    var r1 := PrintField(p.height, Decimal(p.h)) + r2;
    var r0 := PrintField(p.width, Decimal(p.w)) + r1;
    Regroup(p, rest);
    TokenOfField(p.magic, MAGIC, r0);
    NumberOfField(p.width, p.w, r1);
    NumberOfField(p.height, p.h, r2);
    NumberOfField(p.max, p.maxv, r3);
    assert r3[..p.w * p.h] == p.img && r3[p.w * p.h..] == rest;
  }

  // ---- every complete header ---------------------------------------------------------------

  /** Four tokens, whatever they say. */
  datatype Header = Header(magic: Field, width: Field, height: Field, max: Field,
                           m: bytes, w: bytes, h: bytes, x: bytes)

  predicate HeaderOk(p: Header) {
    && FieldOk(p.magic) && FieldOk(p.width) && FieldOk(p.height) && FieldOk(p.max)
    && TokenOk(p.m) && TokenOk(p.w) && TokenOk(p.h) && TokenOk(p.x)
  }

  lemma NumberOfToken(f: Field, tok: bytes, rest: bytes)
    requires FieldOk(f) && TokenOk(tok)
    ensures Number(PrintField(f, tok) + rest) == (ScanInt(tok), Parsed(BadNumber, rest))
  {
    TokenOfField(f, tok, rest);
  }

  /** The outcome and what is consumed for every complete header, right or wrong, and whatever follows it: the first
      token that is not what it should be decides, then the body. */
  lemma EveryHeaderIsRead(p: Header, body: bytes)
    requires HeaderOk(p)
    ensures var w, h := ScanInt(p.w), ScanInt(p.h);
      var r3 := PrintField(p.max, p.x) + body;
      var r2 := PrintField(p.height, p.h) + r3;
      var r1 := PrintField(p.width, p.w) + r2;
      Parse(PrintField(p.magic, p.m) + r1) ==
        if p.m != [80, 53] then Parsed(BadMagic, r1)
        else if w.None? then Parsed(BadNumber, r2)
        else if h.None? then Parsed(BadNumber, r3)
        else if ScanInt(p.x).None? then Parsed(BadNumber, body)
        else Body(w.value, h.value, body)
  {
    hide ScanInt, Token, Number, PrintField, TokenOk, FieldOk;
    var r3 := PrintField(p.max, p.x) + body;
    var r2 := PrintField(p.height, p.h) + r3;
    TokenOfField(p.magic, p.m, PrintField(p.width, p.w) + r2);
    NumberOfToken(p.width, p.w, r2);
    NumberOfToken(p.height, p.h, r3);
    NumberOfToken(p.max, p.x, body);
  }

  /** The body: dimensions from 1 to 4096, then as many pixels, or the end. */
  lemma EveryBodyIsRead(w: int, h: int, body: bytes)
    ensures !(1 <= w <= 4096 && 1 <= h <= 4096) ==> Body(w, h, body) == Parsed(BadDims, body)
    ensures 1 <= w <= 4096 && 1 <= h <= 4096 ==>
      var n := w * h;
      if n <= |body| then Body(w, h, body) == Parsed(Frame(body[..n], w, h), body[n..])
      else Body(w, h, body) == Parsed(Eof, [])
  {
  }

  predicate Sign(tok: bytes) {
    tok == [] || tok == [PLUS] || tok == [MINUS]
  }

  lemma {:induction false} LeadingStops(ds: bytes, tail: bytes)
    requires forall i :: 0 <= i < |ds| ==> Digit(ds[i])
    requires tail == [] || !Digit(tail[0])
    ensures Leading(ds + tail) == |ds|
  {
    if ds == [] {
      assert ds + tail == tail;
    } else {
      assert (ds + tail)[0] == ds[0] && (ds + tail)[1..] == ds[1..] + tail;
      LeadingStops(ds[1..], tail);
    }
  }

  lemma ScanParts(sign: bytes, rest: bytes)
    requires Sign(sign) && (sign != [] || rest == [] || (rest[0] != PLUS && rest[0] != MINUS))
    ensures var v := Value(rest[..Leading(rest)]);
      var n := if sign == [MINUS] then -v else v;
      ScanInt(sign + rest)
        == if Leading(rest) == 0 || n < -0x8000_0000_0000_0000 || n >= 0x8000_0000_0000_0000 then None else Some(n)
  {
    hide Value, Leading;
    if sign == [] {
      assert sign + rest == rest;
    } else {
      assert (sign + rest)[1..] == rest && (sign + rest)[0] == sign[0];
    }
  }

  /** A number is read behind an optional sign, up to the first byte that is no digit; there is none beyond 64
      bits. */
  lemma SignedNumbers(sign: bytes, n: nat, tail: bytes)
    requires Sign(sign) && (tail == [] || !Digit(tail[0]))
    ensures var k: int := n;
      var v := if sign == [MINUS] then -k else k;
      ScanInt(sign + (Decimal(n) + tail))
        == if -0x8000_0000_0000_0000 <= v < 0x8000_0000_0000_0000 then Some(v) else None
  {
    hide Value, ScanInt, Decimal;
    var ds := Decimal(n);
    assert Digit(ds[0]) && (ds + tail)[0] == ds[0] && (ds + tail)[..|ds|] == ds;
    LeadingStops(ds, tail);
    ValueOfDecimal(n);
    ScanParts(sign, ds + tail);
  }

  /** And none without a digit. */
  lemma NoNumber(sign: bytes, tail: bytes)
    requires Sign(sign) && (tail == [] || !Digit(tail[0]))
    requires sign != [] || tail == [] || (tail[0] != PLUS && tail[0] != MINUS)
    ensures ScanInt(sign + tail) == None
  {
    ScanParts(sign, tail);
    hide ScanInt;
  }

  lemma FrameConsumes(bs: bytes)
    ensures Parse(bs).outcome.Frame? ==> |Parse(bs).rest| < |bs|
  {
  }

  /** A whole session: frames until the first reading that yields none. */
  function ReadAll(bs: bytes): (seq<Outcome>, Parsed)
    decreases |bs|
  {
    var p := Parse(bs);
    FrameConsumes(bs);
    if p.outcome.Frame? then
      var (more, end) := ReadAll(p.rest);
      ([p.outcome] + more, end)
    else ([], p)
  }

  function PrintAll(ps: seq<Printed>): bytes {
    if ps == [] then [] else Print(ps[0]) + PrintAll(ps[1..])
  }

  lemma EmptyStream()
    ensures Parse([]) == Parsed(Eof, [])
  {
  }

  /** Over a whole stream: every frame comes back, in order, and the end is the end. */
  lemma {:induction false} ReadAllUndoesPrintAll(ps: seq<Printed>)
    requires forall i :: 0 <= i < |ps| ==> PrintedOk(ps[i])
    ensures var (frames, end) := ReadAll(PrintAll(ps));
      && |frames| == |ps|
      && (forall i :: 0 <= i < |ps| ==> frames[i] == Frame(ps[i].img, ps[i].w, ps[i].h))
      && end == Parsed(Eof, [])
  {
    hide Print, PrintedOk;
    if ps == [] {
      EmptyStream();
    } else {
      ParseUndoesPrint(ps[0], PrintAll(ps[1..]));
      ReadAllUndoesPrintAll(ps[1..]);
    }
  }
}
