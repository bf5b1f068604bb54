/** The event codec: asciiEscape, which turns JSON text into ASCII, with what the
    text says before and after it; and the header of the Glue wire format. */
module Codec {
  import opened Domain

  type Byte = b: int | 0 <= b < 256

  const RUNE_SELF := 0x80
  const RUNE_ERROR := 0xFFFD
  const QUOTE: Byte := 0x22
  const BACKSLASH: Byte := 0x5C
  const LOWER_U: Byte := 0x75

  // ---------------------------------------------------------------- UTF-8

  predicate Tail(b: Byte) {
    0x80 <= b <= 0xBF
  }

  /** The second byte allowed after a lead byte: no overlong forms, no surrogates, nothing
      above U+10FFFF. */
  predicate Second(lead: Byte, b: Byte) {
    match lead
    case 0xE0 => 0xA0 <= b <= 0xBF
    case 0xED => 0x80 <= b <= 0x9F
    case 0xF0 => 0x90 <= b <= 0xBF
    case 0xF4 => 0x80 <= b <= 0x8F
    case _ => Tail(b)
  }

  /** The payload of a byte after the lead byte. */
  function Bits(b: Byte): int {
    var x: int := b;
    x - 0x80
  }

  /** utf8.DecodeRune on a non-empty slice: a rune and its width, or (RUNE_ERROR, 1) where
      no well-formed sequence starts. */
  function DecodeRune(b: seq<Byte>): (r: (int, nat))
    requires b != []
    ensures 1 <= r.1 <= 4 && r.1 <= |b|
    ensures 0 <= r.0 <= 0x10FFFF
    ensures r.0 < RUNE_SELF <==> b[0] < 0x80
    ensures r.0 < RUNE_SELF ==> r == (b[0], 1)
  {
    var x: int := b[0];
    if x < 0x80 then (x, 1)
    else if 0xC2 <= x <= 0xDF && |b| >= 2 && Tail(b[1]) then
      ((x - 0xC0) * 0x40 + Bits(b[1]), 2)
    else if 0xE0 <= x <= 0xEF && |b| >= 3 && Second(x, b[1]) && Tail(b[2]) then
      (((x - 0xE0) * 0x40 + Bits(b[1])) * 0x40 + Bits(b[2]), 3)
    else if 0xF0 <= x <= 0xF4 && |b| >= 4 && Second(x, b[1]) && Tail(b[2]) && Tail(b[3]) then
      ((((x - 0xF0) * 0x40 + Bits(b[1])) * 0x40 + Bits(b[2])) * 0x40 + Bits(b[3]), 4)
    else (RUNE_ERROR, 1)
  }

  predicate Scalar(r: int) {
    0 <= r < 0xD800 || 0xE000 <= r <= 0x10FFFF
  }

  /** Section 3 of RFC 3629. */
  function EncodeRune(r: int): (b: seq<Byte>)
    requires Scalar(r)
    ensures 1 <= |b| <= 4
  {
    var q := r / 0x40;
    var p := q / 0x40;
    if r < 0x80 then [r]
    else if r < 0x800 then [0xC0 + q, 0x80 + r % 0x40]
    else if r < 0x10000 then [0xE0 + p, 0x80 + q % 0x40, 0x80 + r % 0x40]
    else [0xF0 + p / 0x40, 0x80 + p % 0x40, 0x80 + q % 0x40, 0x80 + r % 0x40]
  }

  lemma {:induction false} DecodeEncodeLong(r: int, rest: seq<Byte>)
    requires 0x10000 <= r <= 0x10FFFF
    ensures DecodeRune(EncodeRune(r) + rest) == (r, 4)
  {
    var b, q := EncodeRune(r) + rest, r / 0x40;
    var p := q / 0x40;
    assert b[0] == 0xF0 + p / 0x40 && b[1] == 0x80 + p % 0x40 && b[2] == 0x80 + q % 0x40 && b[3] == 0x80 + r % 0x40;
  }

  /** The decoder inverts the encoder, whatever follows. */
  lemma {:induction false} DecodeEncode(r: int, rest: seq<Byte>)
    requires Scalar(r)
    ensures DecodeRune(EncodeRune(r) + rest) == (r, |EncodeRune(r)|)
  {
    if r >= 0x10000 {
      DecodeEncodeLong(r, rest);
    } else {
      var b, q := EncodeRune(r) + rest, r / 0x40;
      if 0x80 <= r < 0x800 {
        assert b[0] == 0xC0 + q && b[1] == 0x80 + r % 0x40;
      } else if r >= 0x800 {
        assert b[0] == 0xE0 + q / 0x40 && b[1] == 0x80 + q % 0x40 && b[2] == 0x80 + r % 0x40;
      }
    }
  }

  predicate WellFormedAt(b: seq<Byte>)
    requires b != []
  {
    DecodeRune(b) != (RUNE_ERROR, 1)
  }

  lemma {:induction false} Digits(q: int, d: int)
    requires 0 <= d < 0x40
    ensures (q * 0x40 + d) / 0x40 == q && (q * 0x40 + d) % 0x40 == d
  {
  }

  lemma {:induction false} EncodeDecodeLong(b: seq<Byte>)
    requires b != [] && DecodeRune(b).1 == 4
    ensures Scalar(DecodeRune(b).0) && EncodeRune(DecodeRune(b).0) == [b[0], b[1], b[2], b[3]]
  {
    var x: int := b[0];
    var p := (x - 0xF0) * 0x40 + Bits(b[1]);
    Digits(x - 0xF0, Bits(b[1]));
    Digits(p, Bits(b[2]));
    Digits(p * 0x40 + Bits(b[2]), Bits(b[3]));
  }

  lemma {:induction false} EncodeDecodeMedium(b: seq<Byte>)
    requires b != [] && DecodeRune(b).1 == 3
    ensures Scalar(DecodeRune(b).0) && EncodeRune(DecodeRune(b).0) == [b[0], b[1], b[2]]
  {
    var x: int := b[0];
    Digits(x - 0xE0, Bits(b[1]));
    Digits((x - 0xE0) * 0x40 + Bits(b[1]), Bits(b[2]));
  }

  /** And the encoder inverts the decoder wherever a well-formed sequence starts. */
  lemma {:induction false} EncodeDecode(b: seq<Byte>)
    requires b != [] && WellFormedAt(b)
    ensures Scalar(DecodeRune(b).0) && EncodeRune(DecodeRune(b).0) == b[..DecodeRune(b).1]
  {
    var (r, size) := DecodeRune(b);
    var x: int := b[0];
    if size == 1 {
      assert EncodeRune(r) == [b[0]];
    } else if size == 2 {
      Digits(x - 0xC0, Bits(b[1]));
      assert EncodeRune(r) == [b[0], b[1]];
    } else if size == 3 {
      EncodeDecodeMedium(b);
    } else {
      EncodeDecodeLong(b);
    }
  }

  // ---------------------------------------------------------------- UTF-16

  /** Section 2.1 of RFC 2781. */
  function Utf16(r: int): seq<int>
    requires Scalar(r)
  {
    if r < 0x10000 then [r] else [0xD800 + (r - 0x10000) / 0x400, 0xDC00 + (r - 0x10000) % 0x400]
  }

  /** Section 2.2 of RFC 2781 reads the rune back from its pair. */
  lemma {:induction false} PairDecodes(r: int)
    requires 0x10000 <= r <= 0x10FFFF
    ensures |Utf16(r)| == 2 && 0xD800 <= Utf16(r)[0] <= 0xDBFF && 0xDC00 <= Utf16(r)[1] <= 0xDFFF
    ensures 0x10000 + (Utf16(r)[0] - 0xD800) * 0x400 + (Utf16(r)[1] - 0xDC00) == r
  {
  }

  // ---------------------------------------------------------------- the loop

  function HexDigit(d: int): Byte
    requires 0 <= d < 16
  {
    if d < 10 then 0x30 + d else 0x61 + (d - 10)
  }

  /** \u and four lower-case hexadecimal digits. */
  function UEscape(unit: int): (b: seq<Byte>)
    requires 0 <= unit <= 0xFFFF
    ensures |b| == 6
  {
    var q := unit / 16;
    var p := q / 16;
    [BACKSLASH, LOWER_U, HexDigit(p / 16), HexDigit(p % 16), HexDigit(q % 16), HexDigit(unit % 16)]
  }

  function EscapeRune(r: int): (b: seq<Byte>)
    requires 0 <= r <= 0x10FFFF
    ensures |b| > 0
  {
    if r < RUNE_SELF then [r]
    else if r > 0xFFFF then UEscape(0xD800 + (r - 0x10000) / 0x400) + UEscape(0xDC00 + (r - 0x10000) % 0x400)
    else UEscape(r)
  }

  function Escaped(b: seq<Byte>): seq<Byte> {
    if b == [] then [] else EscapeRune(DecodeRune(b).0) + Escaped(b[DecodeRune(b).1..])
  }

  /** The switch of the loop: one rune is appended to the builder. */
  method WriteRune(out: seq<Byte>, rune: int) returns (longer: seq<Byte>)
    requires 0 <= rune <= 0x10FFFF
    ensures longer == out + EscapeRune(rune)
  {
    var r := rune;
    if r < RUNE_SELF {
      longer := out + [r];
    } else if r > 0xFFFF {
      r := r - 0x10000;
      longer := out + UEscape(0xD800 + r / 0x400) + UEscape(0xDC00 + r % 0x400);
    } else {
      longer := out + UEscape(r);
    }
  }

  lemma {:induction false} Regroup<T>(a: seq<T>, b: seq<T>, c: seq<T>)
    ensures (a + b) + c == a + (b + c)
  {
  }

  lemma {:induction false} OneRune(b: seq<Byte>, r: int, size: nat)
    requires b != [] && (r, size) == DecodeRune(b)
    ensures Escaped(b) == EscapeRune(r) + Escaped(b[size..])
  {
  }

  method AsciiEscape(b: seq<Byte>) returns (out: seq<Byte>)
    ensures out == Escaped(b)
  {
    out := [];
    var rest := b;
    while |rest| > 0
      invariant out + Escaped(rest) == Escaped(b)
      decreases |rest|
    {
      var (r, size) := DecodeRune(rest);
      OneRune(rest, r, size);
      rest := rest[size..];
      Regroup(out, EscapeRune(r), Escaped(rest));
      out := WriteRune(out, r);
    }
    assert out + [] == out;
  }

  predicate IsAscii(b: seq<Byte>) {
    forall i :: 0 <= i < |b| ==> b[i] < 0x80
  }

  lemma {:induction false} UEscapeIsAscii(unit: int)
    requires 0 <= unit <= 0xFFFF
    ensures IsAscii(UEscape(unit))
  {
  }

  lemma {:induction false} AsciiConcat(a: seq<Byte>, b: seq<Byte>)
    requires IsAscii(a) && IsAscii(b)
    ensures IsAscii(a + b)
  {
  }

  lemma {:induction false} EscapeRuneIsAscii(r: int)
    requires 0 <= r <= 0x10FFFF
    ensures IsAscii(EscapeRune(r))
  {
    if r > 0xFFFF {
      var hi, lo := Surrogates(r);
      UEscapeIsAscii(hi);
      UEscapeIsAscii(lo);
      AsciiConcat(UEscape(hi), UEscape(lo));
    } else if r >= RUNE_SELF {
      UEscapeIsAscii(r);
    }
  }

  lemma {:induction false} OutputIsAscii(b: seq<Byte>)
    ensures IsAscii(Escaped(b))
  {
    if b != [] {
      var (r, size) := DecodeRune(b);
      OneRune(b, r, size);
      OutputIsAscii(b[size..]);
      EscapeRuneIsAscii(r);
      AsciiConcat(EscapeRune(r), Escaped(b[size..]));
    }
  }

  lemma {:induction false} AsciiIsKept(b: seq<Byte>)
    requires IsAscii(b)
    ensures Escaped(b) == b
  {
    if b != [] {
      AsciiIsKept(b[1..]);
    }
  }

  /** Applying it twice changes nothing more. */
  lemma {:induction false} Idempotent(b: seq<Byte>)
    ensures Escaped(Escaped(b)) == Escaped(b)
  {
    OutputIsAscii(b);
    AsciiIsKept(Escaped(b));
  }

  // ---------------------------------------------------------------- the characters of a JSON string

  /** The character after a backslash, other than u; section 7 of RFC 8259. */
  function ShortEscape(b: Byte): Option<int> {
    match b
    case 0x22 => Some(0x22)
    case 0x5C => Some(0x5C)
    case 0x2F => Some(0x2F)
    case 0x62 => Some(0x08)
    case 0x66 => Some(0x0C)
    case 0x6E => Some(0x0A)
    case 0x72 => Some(0x0D)
    case 0x74 => Some(0x09)
    case _ => None
  }

  function HexValue(b: Byte): Option<int> {
    if 0x30 <= b <= 0x39 then Some(b - 0x30)
    else if 0x61 <= b <= 0x66 then Some(b - 0x61 + 10)
    else if 0x41 <= b <= 0x46 then Some(b - 0x41 + 10)
    else None
  }

  function HexUnit(b: seq<Byte>): Option<int>
    requires |b| == 4
  {
    var w, x, y, z := HexValue(b[0]), HexValue(b[1]), HexValue(b[2]), HexValue(b[3]);
    if w.Some? && x.Some? && y.Some? && z.Some? then
      Some(((w.value * 16 + x.value) * 16 + y.value) * 16 + z.value)
    else None
  }

  /** What the decoder yields can be encoded; ill-formed bytes read as U+FFFD, one by one. */
  lemma {:induction false} RuneIsScalar(b: seq<Byte>)
    requires b != []
    ensures Scalar(DecodeRune(b).0)
  {
    if WellFormedAt(b) {
      EncodeDecode(b);
    }
  }

  /** The first character of a string body: the UTF-16 units it denotes and its length. */
  function Token(b: seq<Byte>): (t: Option<(seq<int>, nat)>)
    requires b != []
    ensures t.Some? ==> 1 <= t.value.1 <= |b|
  {
    if b[0] == BACKSLASH then
      if |b| < 2 then None
      else if b[1] == LOWER_U then
        if |b| < 6 then None
        else
          var unit := HexUnit(b[2..6]);
          if unit.None? then None else Some(([unit.value], 6))
      else
        var c := ShortEscape(b[1]);
        if c.None? then None else Some(([c.value], 2))
    else if b[0] < 0x20 || b[0] == QUOTE then None
    else
      RuneIsScalar(b);
      Some((Utf16(DecodeRune(b).0), DecodeRune(b).1))
  }

  lemma {:induction false} HexDigitValue(d: int)
    requires 0 <= d < 16
    ensures HexValue(HexDigit(d)) == Some(d)
  {
  }

  lemma {:induction false} HexUnitValue(unit: int)
    requires 0 <= unit <= 0xFFFF
    ensures HexUnit(UEscape(unit)[2..6]) == Some(unit)
  {
    var q := unit / 16;
    var p := q / 16;
    HexDigitValue(p / 16);
    HexDigitValue(p % 16);
    HexDigitValue(q % 16);
    HexDigitValue(unit % 16);
  }

  /** An escape is a backslash, a u and four lower-case digits, as Python writes it. */
  lemma {:induction false} EscapeIsCanonical(unit: int)
    requires 0 <= unit <= 0xFFFF
    ensures UEscape(unit)[..2] == [0x5C, 0x75] && HexUnit(UEscape(unit)[2..6]) == Some(unit)
    ensures forall i :: 2 <= i < 6 ==> 0x30 <= UEscape(unit)[i] <= 0x39 || 0x61 <= UEscape(unit)[i] <= 0x66
  {
    HexUnitValue(unit);
  }

  /** Reading an escape back gives the unit it was made from. */
  lemma {:induction false} UEscapeToken(unit: int, rest: seq<Byte>)
    requires 0 <= unit <= 0xFFFF
    ensures Token(UEscape(unit) + rest) == Some(([unit], 6))
  {
    var b := UEscape(unit) + rest;
    assert b[2..6] == UEscape(unit)[2..6];
    HexUnitValue(unit);
  }

  lemma {:induction false} Surrogates(r: int) returns (hi: int, lo: int)
    requires 0xFFFF < r <= 0x10FFFF
    ensures 0xD800 <= hi <= 0xDBFF && 0xDC00 <= lo <= 0xDFFF
    ensures EscapeRune(r) == UEscape(hi) + UEscape(lo) && Utf16(r) == [hi, lo]
  {
    hi, lo := 0xD800 + (r - 0x10000) / 0x400, 0xDC00 + (r - 0x10000) % 0x400;
  }

  lemma {:induction false} AsciiByte(x: Byte, rest: seq<Byte>)
    requires x < RUNE_SELF
    ensures Escaped([x] + rest) == [x] + Escaped(rest)
  {
    assert ([x] + rest)[1..] == rest;
    OneRune([x] + rest, x, 1);
  }

  /** ASCII bytes pass through one by one. */
  lemma {:induction false} AsciiPrefix(a: seq<Byte>, rest: seq<Byte>)
    requires IsAscii(a)
    ensures Escaped(a + rest) == a + Escaped(rest)
  {
    if a == [] {
      assert a + rest == rest;
    } else {
      AsciiPrefix(a[1..], rest);
      AsciiByte(a[0], a[1..] + rest);
      assert [a[0]] + a[1..] == a;
      Regroup([a[0]], a[1..], rest);
      Regroup([a[0]], a[1..], Escaped(rest));
    }
  }

  /** A token of ASCII bytes only is read the same whatever comes after it. */
  lemma {:induction false} AsciiToken(b: seq<Byte>, rest: seq<Byte>)
    requires b != [] && b[0] < 0x80 && Token(b).Some?
    ensures IsAscii(b[..Token(b).value.1]) && Token(b[..Token(b).value.1] + rest) == Token(b)
  {
    var k := Token(b).value.1;
    var c := b[..k] + rest;
    assert c[0] == b[0];
    if b[0] == BACKSLASH {
      assert c[1] == b[1];
      if b[1] == LOWER_U {
        assert c[2..6] == b[2..6];
        HexIsAscii(b[2..6]);
        assert forall i :: 2 <= i < 6 ==> b[i] == b[2..6][i - 2];
      }
    }
  }

  lemma {:induction false} HexIsAscii(b: seq<Byte>)
    requires |b| == 4 && HexUnit(b).Some?
    ensures IsAscii(b)
  {
  }

  // ---------------------------------------------------------------- what a JSON text says

  /** A JSON text, read left to right: bytes outside strings and units inside them. */
  datatype Piece = Raw(b: Byte) | Unit(u: int)

  function Units(units: seq<int>): seq<Piece> {
    seq(|units|, i requires 0 <= i < |units| => Unit(units[i]))
  }

  /** The pieces at the front of a text, how long they are, and whether a string is open
      afterwards. Outside strings JSON is ASCII. */
  function Front(b: seq<Byte>, inside: bool): (p: Option<(seq<Piece>, nat, bool)>)
    requires b != []
    ensures p.Some? ==> 1 <= p.value.1 <= |b|
  {
    if b[0] == QUOTE then Some(([Raw(QUOTE)], 1, !inside))
    else if inside then
      var t := Token(b);
      if t.None? then None else Some((Units(t.value.0), t.value.1, true))
    else if b[0] < 0x80 then Some(([Raw(b[0])], 1, false))
    else None
  }

  /** What a text says; None if a string is malformed or unfinished or if there is non-ASCII
      text outside strings, none of which occurs in valid JSON. */
  function Reads(b: seq<Byte>, inside: bool): Option<seq<Piece>> {
    if b == [] then if inside then None else Some([])
    else
      var p := Front(b, inside);
      if p.None? then None
      else
        var rest := Reads(b[p.value.1..], p.value.2);
        if rest.None? then None else Some(p.value.0 + rest.value)
  }

  lemma {:induction false} FrontThen(head: seq<Byte>, rest: seq<Byte>, inside: bool, pieces: seq<Piece>, open: bool)
    requires head != [] && Front(head + rest, inside) == Some((pieces, |head|, open)) && Reads(rest, open).Some?
    ensures Reads(head + rest, inside) == Some(pieces + Reads(rest, open).value)
  {
    assert (head + rest)[|head|..] == rest;
  }

  lemma {:induction false} UEscapeReads(unit: int, rest: seq<Byte>)
    requires 0 <= unit <= 0xFFFF && Reads(rest, true).Some?
    ensures Reads(UEscape(unit) + rest, true) == Some([Unit(unit)] + Reads(rest, true).value)
  {
    UEscapeToken(unit, rest);
    assert Units([unit]) == [Unit(unit)];
    FrontThen(UEscape(unit), rest, true, [Unit(unit)], true);
  }

  lemma {:induction false} EscapeRuneReads(r: int, rest: seq<Byte>)
    requires Scalar(r) && r >= RUNE_SELF && Reads(rest, true).Some?
    ensures Reads(EscapeRune(r) + rest, true) == Some(Units(Utf16(r)) + Reads(rest, true).value)
  {
    if r > 0xFFFF {
      var hi, lo := Surrogates(r);
      UEscapeReads(lo, rest);
      UEscapeReads(hi, UEscape(lo) + rest);
      Regroup(UEscape(hi), UEscape(lo), rest);
      Regroup([Unit(hi)], [Unit(lo)], Reads(rest, true).value);
      assert Units([hi, lo]) == [Unit(hi)] + [Unit(lo)];
    } else {
      UEscapeReads(r, rest);
      assert Units([r]) == [Unit(r)];
    }
  }

  /** A front of ASCII bytes stays, and is read the same before the rewritten rest. */
  lemma {:induction false} AsciiFrontStays(head: seq<Byte>, rest: seq<Byte>, inside: bool, pieces: seq<Piece>, open: bool)
    requires head != [] && head[0] < 0x80 && Front(head + rest, inside) == Some((pieces, |head|, open))
    ensures Escaped(head + rest) == head + Escaped(rest)
    ensures Front(head + Escaped(rest), inside) == Some((pieces, |head|, open))
  {
    if inside && head[0] != QUOTE {
      AsciiToken(head + rest, Escaped(rest));
      assert (head + rest)[..|head|] == head;
    }
    AsciiPrefix(head, rest);
  }

  /** The rewriting preserves what every JSON text says, ill-formed UTF-8 in strings included. */
  lemma {:induction false} MeaningKept(b: seq<Byte>, inside: bool)
    requires Reads(b, inside).Some?
    ensures Reads(Escaped(b), inside) == Reads(b, inside)
  {
    if b != [] {
      var (pieces, k, open) := Front(b, inside).value;
      var head, rest := b[..k], b[k..];
      assert b == head + rest;
      MeaningKept(rest, open);
      if b[0] < 0x80 {
        AsciiFrontStays(head, rest, inside, pieces, open);
        FrontThen(head, Escaped(rest), inside, pieces, open);
      } else {
        RuneIsScalar(b);
        OneRune(b, DecodeRune(b).0, k);
        EscapeRuneReads(DecodeRune(b).0, Escaped(rest));
      }
    }
  }

  // ---------------------------------------------------------------- the Glue header

  const GLUE_HEADER_VERSION: Byte := 0x03
  const GLUE_NO_COMPRESSION: Byte := 0x00
  const GLUE_HEADER_SIZE := 18

  function Framed(id: seq<Byte>, payload: seq<Byte>): seq<Byte>
    requires |id| == 16
  {
    [GLUE_HEADER_VERSION, GLUE_NO_COMPRESSION] + id + payload
  }

  /** prependGlueHeader: fills one buffer. `id` is the parsed version UUID, if it parses. */
  method PrependGlueHeader(id: Option<seq<Byte>>, payload: seq<Byte>) returns (r: Result<seq<Byte>>)
    requires id.Some? ==> |id.value| == 16
    ensures r == if id.None? then Err(BadVersionId) else Ok(Framed(id.value, payload))
    ensures r.Ok? ==> id.Some? && |r.value| == 18 + |payload| && r.value[0] == 3 && r.value[1] == 0
                      && r.value[2..18] == id.value && r.value[18..] == payload
  {
    if id.None? { return Err(BadVersionId); }
    var out := new Byte[GLUE_HEADER_SIZE + |payload|];
    out[0] := GLUE_HEADER_VERSION;
    out[1] := GLUE_NO_COMPRESSION;
    forall i | 2 <= i < 18 {
      out[i] := id.value[i - 2];
    }
    forall i | GLUE_HEADER_SIZE <= i < out.Length {
      out[i] := payload[i - GLUE_HEADER_SIZE];
    }
    assert out[..] == Framed(id.value, payload);
    r := Ok(out[..]);
  }

  function StripGlueHeader(encoded: seq<Byte>): Result<seq<Byte>> {
    if |encoded| < GLUE_HEADER_SIZE then Err(HeaderTooShort)
    else if encoded[0] != GLUE_HEADER_VERSION then Err(UnexpectedHeaderVersion)
    else Ok(encoded[GLUE_HEADER_SIZE..])
  }

  /** Decoding undoes encoding for every payload; what decoding accepts is a framing of its
      result, except for the compression byte, which it does not look at. */
  lemma {:induction false} HeaderRoundTrip(id: seq<Byte>, payload: seq<Byte>, encoded: seq<Byte>)
    requires |id| == 16
    ensures StripGlueHeader(Framed(id, payload)) == Ok(payload) && Framed(id, payload)[2..18] == id
    ensures StripGlueHeader(encoded).Ok? <==>
              |encoded| >= GLUE_HEADER_SIZE
              && encoded[1 := GLUE_NO_COMPRESSION] == Framed(encoded[2..18], encoded[18..])
    ensures StripGlueHeader(encoded).Ok? ==> StripGlueHeader(encoded).value == encoded[18..]
  {
    assert Framed(id, payload)[18..] == payload;
    assert Framed(id, payload)[2..18] == id;
    if |encoded| >= GLUE_HEADER_SIZE {
      assert encoded[1 := GLUE_NO_COMPRESSION][0] == encoded[0];
      assert Framed(encoded[2..18], encoded[18..])[0] == GLUE_HEADER_VERSION;
    }
  }
}
