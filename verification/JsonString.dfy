/**
 * What parse_string makes of a string literal, and what RFC 8259 section 7 and RFC 3629 section 3
 * say it should make of it.
 */
module JsonString {
  import opened Bytes
  import opened JsonRender

  // ---------- the two passes of parse_string, as functions of the text ----------

  /** First pass: the closing quote of a literal whose contents start at i. */
  function Scan(s: seq<byte>, i: nat): (r: Option<nat>)
    ensures r.Some? ==> i <= r.value < |s| && s[r.value] == QUOTE
    decreases |s| - i
  {
    if i >= |s| then None
    else if s[i] == QUOTE then Some(i)
    else if s[i] == BACKSLASH then (if i + 1 >= |s| then None else Scan(s, i + 2))
    else Scan(s, i + 1)
  }

  /** How many escapes the first pass, started at i, finds to start before p. */
  function EscapesBefore(s: seq<byte>, i: nat, p: nat): nat
    requires p <= |s|
    decreases p - i
  {
    if i >= p then 0
    else if s[i] == BACKSLASH then 1 + EscapesBefore(s, i + 2, p)
    else EscapesBefore(s, i + 1, p)
  }

  /** The value of a hexadecimal digit, -1 for any other byte. */
  function HexValue(b: byte): (v: int)
    ensures -1 <= v < 16
  {
    if 48 <= b <= 57 then b - 48
    else if 65 <= b <= 70 then b - 55
    else if 97 <= b <= 102 then b - 87
    else -1
  }

  ghost predicate IsHex4(h: seq<byte>) {
    |h| == 4 && HexValue(h[0]) >= 0 && HexValue(h[1]) >= 0 && HexValue(h[2]) >= 0 && HexValue(h[3]) >= 0
  }

  /** parse_hex4: malformed digits read as 0. */
  function Hex4(h: seq<byte>): (v: nat)
    requires |h| == 4
    ensures v < 0x1_0000
  {
    var a, b, c, d := HexValue(h[0]), HexValue(h[1]), HexValue(h[2]), HexValue(h[3]);
    if a < 0 || b < 0 || c < 0 || d < 0 then 0 else ((a * 16 + b) * 16 + c) * 16 + d
  }

  predicate IsHigh(u: nat) { 0xD800 <= u <= 0xDBFF }

  predicate IsLow(u: nat) { 0xDC00 <= u <= 0xDFFF }

  /** The code point two surrogates stand for. */
  function Join(high: nat, low: nat): (cp: nat)
    requires IsHigh(high) && IsLow(low)
    ensures 0x1_0000 <= cp <= 0x10_FFFF
  {
    0x1_0000 + (high - 0xD800) * 0x400 + (low - 0xDC00)
  }

  /** The bytes utf16_literal_to_utf8 writes for a code point. */
  function Utf8(cp: nat): (r: seq<byte>)
    requires cp <= 0x10_FFFF
    ensures 1 <= |r| <= 4
  {
    if cp < 0x80 then [cp]
    else if cp < 0x800 then [0xC0 + cp / 64, 0x80 + cp % 64]
    else if cp < 0x1_0000 then [0xE0 + cp / 64 / 64, 0x80 + cp / 64 % 64, 0x80 + cp % 64]
    else [0xF0 + cp / 64 / 64 / 64, 0x80 + cp / 64 / 64 % 64, 0x80 + cp / 64 % 64, 0x80 + cp % 64]
  }

  /** A decoded \u escape: how long it is and the code point, or not acceptable. */
  datatype CodePoint = CodePoint(length: nat, value: nat) | BadEscape

  /** utf16_literal_to_utf8 on the escape at p of a literal that ends at `end`. */
  function Utf16Literal(s: seq<byte>, p: nat, end: nat): (r: CodePoint)
    requires p <= end <= |s|
    ensures r.CodePoint? ==> p + r.length <= end && r.value <= 0x10_FFFF
    ensures r.CodePoint? ==> (r.length == 6 && r.value < 0x1_0000) || (r.length == 12 && r.value >= 0x1_0000)
  {
    if end - p < 6 then BadEscape
    else
      var first := Hex4(s[p + 2..p + 6]);
      if IsLow(first) then BadEscape
      else if IsHigh(first) then
        if end - (p + 6) < 6 then BadEscape
        else if s[p + 6] != BACKSLASH || s[p + 7] != 117 then BadEscape
        else
          var second := Hex4(s[p + 8..p + 12]);
          if IsLow(second) then CodePoint(12, Join(first, second)) else BadEscape
      else CodePoint(6, first)
  }

  /** The byte a one-letter escape stands for; 0 for letters that are no such escape. */
  function ShortMeaning(letter: byte): byte {
    if letter == 98 then 8
    else if letter == 102 then 12
    else if letter == 110 then 10
    else if letter == 114 then 13
    else if letter == 116 then 9
    else if letter == 34 || letter == 92 || letter == 47 then letter
    else 0
  }

  /** Second pass: the bytes of the literal, or the position of the escape that is no good. */
  datatype Decoded = Text(bytes: seq<byte>) | Bad(at: nat)

  function Prepend(w: seq<byte>, d: Decoded): Decoded {
    match d
    case Text(bytes) => Text(w + bytes)
    case Bad(at) => d
  }

  function Decode(s: seq<byte>, p: nat, end: nat): (r: Decoded)
    requires end < |s|
    ensures r.Bad? ==> p <= r.at < end
    decreases end - p
  {
    if p >= end then Text([])
    else if s[p] != BACKSLASH then Prepend([s[p]], Decode(s, p + 1, end))
    else if s[p + 1] == 117 then
      var u := Utf16Literal(s, p, end);
      if u.BadEscape? then Bad(p) else Prepend(Utf8(u.value), Decode(s, p + u.length, end))
    else if ShortMeaning(s[p + 1]) != 0 then Prepend([ShortMeaning(s[p + 1])], Decode(s, p + 2, end))
    else Bad(p)
  }

  // ---------- the space the second pass needs ----------

  lemma {:induction false} EscapesMonotone(s: seq<byte>, i: nat, p: nat, q: nat)
    requires p <= q <= |s|
    ensures EscapesBefore(s, i, p) <= EscapesBefore(s, i, q)
    decreases q - i
  {
    if i < p {
      EscapesMonotone(s, if s[i] == BACKSLASH then i + 2 else i + 1, p, q);
    }
  }

  /** Two neighbouring bytes hold at most one start of an escape. */
  lemma {:induction false} EscapesInTwo(s: seq<byte>, i: nat, p: nat)
    requires p + 2 <= |s|
    ensures EscapesBefore(s, i, p + 2) <= EscapesBefore(s, i, p) + 1
    decreases p + 2 - i
  {
    if i < p {
      EscapesInTwo(s, if s[i] == BACKSLASH then i + 2 else i + 1, p);
    } else if i < p + 2 {
      assert EscapesBefore(s, i + 2, p + 2) == 0;
      assert EscapesBefore(s, i + 3, p + 2) == 0;
    }
  }

  /** A byte that is no backslash starts no escape. */
  lemma {:induction false} EscapesInPlain(s: seq<byte>, i: nat, p: nat)
    requires p < |s| && s[p] != BACKSLASH
    ensures EscapesBefore(s, i, p + 1) == EscapesBefore(s, i, p)
    decreases p + 1 - i
  {
    if i < p {
      EscapesInPlain(s, if s[i] == BACKSLASH then i + 2 else i + 1, p);
    }
  }

  lemma EscapesInSix(s: seq<byte>, i: nat, p: nat)
    requires p + 6 <= |s|
    ensures EscapesBefore(s, i, p + 6) <= EscapesBefore(s, i, p) + 3
  {
    EscapesInTwo(s, i, p);
    EscapesInTwo(s, i, p + 2);
    EscapesInTwo(s, i, p + 4);
  }

  lemma {:induction false} EscapesAreSparse(s: seq<byte>, i: nat, p: nat, q: nat)
    requires p <= q <= |s|
    ensures EscapesBefore(s, i, q) <= EscapesBefore(s, i, p) + (q - p)
    decreases q - i
  {
    if i < q {
      var next := if s[i] == BACKSLASH then i + 2 else i + 1;
      if next <= p {
        EscapesAreSparse(s, next, p, q);
      } else if next <= q {
        EscapesAreSparse(s, next, next, q);
      }
    }
  }

  /**
   * The allocation of parse_string for contents between start and end is long enough for every
   * byte written up to position q, even if q is one past the closing quote.
   */
  lemma Room(s: seq<byte>, start: nat, q: nat, end: nat)
    requires q <= end + 1 <= |s|
    ensures q - EscapesBefore(s, start, q) <= end + 1 - EscapesBefore(s, start, end)
  {
    if q <= end {
      EscapesAreSparse(s, start, q, end);
    } else {
      EscapesMonotone(s, start, end, q);
    }
  }

  // ---------- what the standards say ----------

  /** RFC 3629 section 3: `r` is the UTF-8 form of `cp`, read the way a decoder reads it. */
  ghost predicate IsUtf8Of(r: seq<byte>, cp: nat) {
    if |r| == 1 then r[0] < 0x80 && cp == r[0]
    else if |r| == 2 then 0xC0 <= r[0] < 0xE0 && cp >= 0x80 && Continues(r, 1, r[0] - 0xC0, cp)
    else if |r| == 3 then 0xE0 <= r[0] < 0xF0 && cp >= 0x800 && Continues(r, 1, r[0] - 0xE0, cp)
    else |r| == 4 && 0xF0 <= r[0] < 0xF8 && 0x1_0000 <= cp <= 0x10_FFFF && Continues(r, 1, r[0] - 0xF0, cp)
  }

  /** The continuation bytes from index i on add six bits each to `bits`, which makes `cp`. */
  ghost predicate Continues(r: seq<byte>, i: nat, bits: int, cp: int)
    requires i <= |r|
    decreases |r| - i
  {
    if i == |r| then bits == cp
    else 0x80 <= r[i] < 0xC0 && Continues(r, i + 1, bits * 64 + (r[i] - 0x80), cp)
  }

  lemma SixBits(q: int, t: int)
    requires 0 <= t < 64
    ensures (q * 64 + t) / 64 == q && (q * 64 + t) % 64 == t
  {
  }

  /** What the first byte of a form contributes. */
  ghost function LeadBits(r: seq<byte>): int
    requires |r| > 0
  {
    var lead: int := r[0];
    lead - (if |r| == 1 then 0 else if |r| == 2 then 0xC0 else if |r| == 3 then 0xE0 else 0xF0)
  }

  /** The encoder writes a UTF-8 form of the code point. */
  lemma Utf8IsAForm(cp: nat)
    requires cp <= 0x10_FFFF
    ensures IsUtf8Of(Utf8(cp), cp)
  {
    var r := Utf8(cp);
    var a := cp / 64;
    var b := a / 64;
    var c := b / 64;
    assert cp == a * 64 + cp % 64 && a == b * 64 + a % 64 && b == c * 64 + b % 64;
    assert Continues(r, |r|, cp, cp);
    if |r| == 4 {
      assert Continues(r, 3, a, cp);
      assert Continues(r, 2, b, cp);
      assert Continues(r, 1, c, cp);
    } else if |r| == 3 {
      assert Continues(r, 2, a, cp);
      assert Continues(r, 1, b, cp);
    }
  }

  /** And there is no other: the form of a code point is unique. */
  lemma Utf8IsTheForm(cp: nat, r: seq<byte>)
    requires cp <= 0x10_FFFF && IsUtf8Of(r, cp)
    ensures r == Utf8(cp)
  {
    if |r| == 2 {
      TheTwoBytes(cp, r);
    } else if |r| == 3 {
      TheThreeBytes(cp, r);
    } else if |r| == 4 {
      TheFourBytes(cp, r);
    }
  }

  lemma TheTwoBytes(cp: nat, r: seq<byte>)
    requires cp <= 0x10_FFFF && IsUtf8Of(r, cp) && |r| == 2
    ensures r == Utf8(cp)
  {
    var x := LeadBits(r);
    SixBits(x, r[1] - 0x80);
    assert Continues(r, 2, x * 64 + (r[1] - 0x80), cp);
  }

  lemma TheThreeBytes(cp: nat, r: seq<byte>)
    requires cp <= 0x10_FFFF && IsUtf8Of(r, cp) && |r| == 3
    ensures r == Utf8(cp)
  {
    var x := LeadBits(r);
    var y := x * 64 + (r[1] - 0x80);
    assert Continues(r, 2, y, cp);
    assert Continues(r, 3, y * 64 + (r[2] - 0x80), cp);
    SixBits(x, r[1] - 0x80);
    SixBits(y, r[2] - 0x80);
  }

  lemma TheFourBytes(cp: nat, r: seq<byte>)
    requires cp <= 0x10_FFFF && IsUtf8Of(r, cp) && |r| == 4
    ensures r == Utf8(cp)
  {
    var x := LeadBits(r);
    var y := x * 64 + (r[1] - 0x80);
    var z := y * 64 + (r[2] - 0x80);
    assert Continues(r, 2, y, cp);
    assert Continues(r, 3, z, cp);
    assert Continues(r, 4, z * 64 + (r[3] - 0x80), cp);
    SixBits(x, r[1] - 0x80);
    SixBits(y, r[2] - 0x80);
    SixBits(z, r[3] - 0x80);
  }

  /** A piece of a string literal: a byte as it is, a one-letter escape, or \u and four digits. */
  datatype Piece = Raw(b: byte) | Short(letter: byte) | Unit(digits: seq<byte>)

  ghost predicate ValidPiece(p: Piece) {
    match p
    case Raw(b) => b != QUOTE && b != BACKSLASH && b != 0
    case Short(letter) => ShortMeaning(letter) != 0
    case Unit(digits) => IsHex4(digits)
  }

  ghost predicate ValidPieces(ps: seq<Piece>) {
    forall i :: 0 <= i < |ps| ==> ValidPiece(ps[i])
  }

  ghost function PieceText(p: Piece): seq<byte> {
    match p
    case Raw(b) => [b]
    case Short(letter) => [BACKSLASH, letter]
    case Unit(digits) => [BACKSLASH, 117] + digits
  }

  ghost function LiteralText(ps: seq<Piece>): seq<byte> {
    if |ps| == 0 then [] else PieceText(ps[0]) + LiteralText(ps[1..])
  }

  /** Behind \u four bytes that are no hexadecimal digits, and all that is left of the literal. */
  ghost predicate Malformed(digits: seq<byte>) {
    |digits| >= 4 && !IsHex4(digits[..4])
  }

  /**
   * RFC 8259 section 7: the string a literal denotes, in UTF-8, or None where a surrogate stands
   * alone. A malformed \u, which is none of RFC 8259, is taken for a NUL, and ends the string.
   */
  ghost function Meaning(ps: seq<Piece>): Option<seq<byte>> {
    if |ps| == 0 then Some([])
    else match ps[0]
      case Raw(b) => Before([b], Meaning(ps[1..]))
      case Short(letter) => Before([ShortMeaning(letter)], Meaning(ps[1..]))
      case Unit(digits) =>
        if Malformed(digits) then Some([0])
        else if |digits| != 4 then None
        else
          var u := Hex4(digits);
          if IsLow(u) then None
          else if IsHigh(u) then
            if |ps| > 1 && ps[1].Unit? && |ps[1].digits| == 4 && IsLow(Hex4(ps[1].digits))
            then Before(Utf8(Join(u, Hex4(ps[1].digits))), Meaning(ps[2..]))
            else None
          else Before(Utf8(u), Meaning(ps[1..]))
  }

  ghost function Before(w: seq<byte>, r: Option<seq<byte>>): Option<seq<byte>> {
    match r
    case None => None
    case Some(v) => Some(w + v)
  }

  // ---------- the two passes meet the standards ----------

  /** The first pass finds the closing quote of every well-formed literal. */
  lemma {:induction false} ScanFindsEnd(s: seq<byte>, i: nat, ps: seq<Piece>)
    requires ValidPieces(ps)
    requires At(s, i, LiteralText(ps)) && i + |LiteralText(ps)| < |s| && s[i + |LiteralText(ps)|] == QUOTE
    ensures Scan(s, i) == Some(i + |LiteralText(ps)|)
    decreases ps
  {
    hide At, Scan, ValidPiece, PieceText;
    if |ps| == 0 {
      ScanStops(s, i);
    } else {
      assert ValidPiece(ps[0]);
      AtSplit(s, i, PieceText(ps[0]), LiteralText(ps[1..]));
      ScanFindsEnd(s, i + |PieceText(ps[0])|, ps[1..]);
      ScanSkipsPiece(s, i, ps[0]);
    }
  }

  lemma ScanStops(s: seq<byte>, i: nat)
    requires i < |s| && s[i] == QUOTE
    ensures Scan(s, i) == Some(i)
  {
  }

  /** The scan goes over a piece that has something behind it. */
  lemma ScanSkipsPiece(s: seq<byte>, i: nat, p: Piece)
    requires ValidPiece(p) && At(s, i, PieceText(p)) && i + |PieceText(p)| < |s|
    ensures Scan(s, i) == Scan(s, i + |PieceText(p)|)
  {
    hide At, IsHex4, ShortMeaning;
    AtHead(s, i, PieceText(p));
    if p.Unit? {
      AtSplit(s, i, [BACKSLASH, 117], p.digits);
      DigitsAreFour(p.digits);
      ScanSkipsDigits(s, i + 2, p.digits);
    }
  }

  lemma DigitsAreFour(h: seq<byte>)
    requires IsHex4(h)
    ensures |h| == 4
  {
  }

  lemma ScanSkipsDigits(s: seq<byte>, i: nat, h: seq<byte>)
    requires IsHex4(h) && At(s, i, h)
    ensures Scan(s, i) == Scan(s, i + 4)
  {
    AtByte(s, i, h, 0);
    AtByte(s, i, h, 1);
    AtByte(s, i, h, 2);
    AtByte(s, i, h, 3);
    assert Scan(s, i) == Scan(s, i + 1);
    assert Scan(s, i + 1) == Scan(s, i + 2);
    assert Scan(s, i + 2) == Scan(s, i + 3);
  }

  /** The decoder agrees with the meaning: same bytes, or both reject. */
  ghost predicate Agrees(d: Decoded, m: Option<seq<byte>>) {
    match m
    case None => d.Bad?
    case Some(bytes) => d == Text(bytes)
  }

  /** The second pass computes the meaning of every well-formed literal. */
  lemma {:induction false} DecodeIsMeaning(s: seq<byte>, p: nat, ps: seq<Piece>)
    requires ValidPieces(ps)
    requires At(s, p, LiteralText(ps)) && p + |LiteralText(ps)| < |s|
    ensures Agrees(Decode(s, p, p + |LiteralText(ps)|), Meaning(ps))
    decreases |ps|
  {
    hide Utf16Literal, Hex4, Utf8, At, Decode, Agrees, Meaning, ShortMeaning, LiteralText, ValidPieces;
    PiecesSplit(ps);
    var end := p + |LiteralText(ps)|;
    if |ps| == 0 {
      DecodeNothing(s, p);
      MeaningOfNothing(ps);
    } else {
      MeaningOfSimple(ps);
      AtSplit(s, p, PieceText(ps[0]), LiteralText(ps[1..]));
      DecodeIsMeaning(s, p + |PieceText(ps[0])|, ps[1..]);
      match ps[0]
      case Raw(b) =>
        AtHead(s, p, [b]);
        DecodeSimple(s, p, end);
        AgreesBehind([b], Decode(s, p + 1, end), Meaning(ps[1..]));
      case Short(letter) =>
        AtHead(s, p, PieceText(ps[0]));
        AtByte(s, p, PieceText(ps[0]), 1);
        DecodeSimple(s, p, end);
        AgreesBehind([ShortMeaning(letter)], Decode(s, p + 2, end), Meaning(ps[1..]));
      case Unit(digits) => DecodeUnit(s, p, ps);
    }
  }

  lemma DecodeNothing(s: seq<byte>, p: nat)
    requires p < |s|
    ensures Agrees(Decode(s, p, p), Some([]))
  {
  }

  lemma PiecesSplit(ps: seq<Piece>)
    requires ValidPieces(ps)
    ensures |ps| == 0 ==> LiteralText(ps) == []
    ensures |ps| > 0 ==> ValidPiece(ps[0]) && ValidPieces(ps[1..])
    ensures |ps| > 0 ==> LiteralText(ps) == PieceText(ps[0]) + LiteralText(ps[1..])
  {
    hide ValidPiece;
  }

  lemma MeaningOfNothing(ps: seq<Piece>)
    requires |ps| == 0
    ensures Meaning(ps) == Some([])
  {
  }

  lemma MeaningOfSimple(ps: seq<Piece>)
    requires |ps| > 0
    ensures ps[0].Raw? ==> Meaning(ps) == Before([ps[0].b], Meaning(ps[1..]))
    ensures ps[0].Short? ==> Meaning(ps) == Before([ShortMeaning(ps[0].letter)], Meaning(ps[1..]))
  {
    hide ShortMeaning;
  }

  /** A byte as it is, or a one-letter escape. */
  lemma DecodeSimple(s: seq<byte>, p: nat, end: nat)
    requires p < end < |s|
    ensures s[p] != BACKSLASH ==> Decode(s, p, end) == Prepend([s[p]], Decode(s, p + 1, end))
    ensures s[p] == BACKSLASH && ShortMeaning(s[p + 1]) != 0 ==>
              Decode(s, p, end) == Prepend([ShortMeaning(s[p + 1])], Decode(s, p + 2, end))
  {
  }

  lemma {:induction false} DecodeUnit(s: seq<byte>, p: nat, ps: seq<Piece>)
    requires ValidPieces(ps) && |ps| > 0 && ps[0].Unit?
    requires At(s, p, LiteralText(ps)) && p + |LiteralText(ps)| < |s|
    requires Agrees(Decode(s, p + 6, p + |LiteralText(ps)|), Meaning(ps[1..]))
    ensures Agrees(Decode(s, p, p + |LiteralText(ps)|), Meaning(ps))
    decreases |ps|, 0
  {
    hide Utf16Literal, Hex4, Utf8, At, Decode, Meaning, Agrees;
    assert ValidPiece(ps[0]);
    UnitAt(s, p, ps[0].digits, LiteralText(ps[1..]));
    UnitsRead(s, p, ps);
    DecodeEscape(s, p, p + |LiteralText(ps)|);
    MeaningOfUnit(ps);
    if PairStands(ps) {
      assert ValidPiece(ps[1]);
      AtSplit(s, p, PieceText(ps[0]) + PieceText(ps[1]), LiteralText(ps[2..])) by {
        PairText(ps);
      }
      PairText(ps);
      DecodeIsMeaning(s, p + 12, ps[2..]);
      AgreesBehind(Utf8(Join(Hex4(ps[0].digits), Hex4(ps[1].digits))),
                   Decode(s, p + 12, p + |LiteralText(ps)|), Meaning(ps[2..]));
    } else {
      AgreesBehind(Utf8(Hex4(ps[0].digits)), Decode(s, p + 6, p + |LiteralText(ps)|), Meaning(ps[1..]));
    }
  }

  lemma DecodeEscape(s: seq<byte>, p: nat, end: nat)
    requires p < end < |s| && s[p] == BACKSLASH && s[p + 1] == 117
    ensures var u := Utf16Literal(s, p, end);
            Decode(s, p, end)
            == if u.BadEscape? then Bad(p) else Prepend(Utf8(u.value), Decode(s, p + u.length, end))
  {
    hide Utf16Literal, Utf8;
  }

  lemma MeaningOfUnit(ps: seq<Piece>)
    requires |ps| > 0 && ps[0].Unit? && IsHex4(ps[0].digits)
    requires |ps| > 1 && ps[1].Unit? ==> |ps[1].digits| == 4
    ensures var u := Hex4(ps[0].digits);
            Meaning(ps)
            == if PairStands(ps) then Before(Utf8(Join(u, Hex4(ps[1].digits))), Meaning(ps[2..]))
               else if IsLow(u) || IsHigh(u) then None
               else Before(Utf8(u), Meaning(ps[1..]))
  {
    hide Utf8, Hex4;
  }

  lemma AgreesBehind(w: seq<byte>, d: Decoded, m: Option<seq<byte>>)
    ensures forall at :: Agrees(Bad(at), None)
    ensures Agrees(d, m) ==> Agrees(Prepend(w, d), Before(w, m))
  {
  }

  /** The literal starts with two \u escapes that make a surrogate pair. */
  ghost predicate PairStands(ps: seq<Piece>) {
    && |ps| > 1 && ps[0].Unit? && ps[1].Unit? && |ps[0].digits| == |ps[1].digits| == 4
    && IsHigh(Hex4(ps[0].digits)) && IsLow(Hex4(ps[1].digits))
  }

  lemma PairText(ps: seq<Piece>)
    requires |ps| > 1
    ensures LiteralText(ps) == PieceText(ps[0]) + PieceText(ps[1]) + LiteralText(ps[2..])
  {
    assert ps[1..][1..] == ps[2..];
    Assoc(PieceText(ps[0]), PieceText(ps[1]), LiteralText(ps[2..]));
  }

  /** What utf16_literal_to_utf8 sees at the start of a literal that begins with a \u escape. */
  lemma UnitsRead(s: seq<byte>, p: nat, ps: seq<Piece>)
    requires ValidPieces(ps) && |ps| > 0 && ps[0].Unit?
    requires At(s, p, LiteralText(ps))
    ensures Utf16Literal(s, p, p + |LiteralText(ps)|)
         == if PairStands(ps) then CodePoint(12, Join(Hex4(ps[0].digits), Hex4(ps[1].digits)))
            else if IsLow(Hex4(ps[0].digits)) || IsHigh(Hex4(ps[0].digits)) then BadEscape
            else CodePoint(6, Hex4(ps[0].digits))
  {
    hide Hex4, At, LiteralText, ValidPieces, Join, Utf16Literal;
    PiecesSplit(ps);
    PiecesSplit(ps[1..]);
    UnitAt(s, p, ps[0].digits, LiteralText(ps[1..]));
    AtIsSlice(s, p, LiteralText(ps));
    FirstUnit(s, p, p + |LiteralText(ps)|);
    if IsHigh(Hex4(ps[0].digits)) && |ps| > 1 {
      AtSplit(s, p, PieceText(ps[0]), LiteralText(ps[1..]));
      SecondRead(s, p + 6, ps[1..]);
    }
  }

  /** How far the first unit decides, and what the second adds. */
  lemma FirstUnit(s: seq<byte>, p: nat, end: nat)
    requires p + 6 <= end <= |s|
    ensures var u, r := Hex4(s[p + 2..p + 6]), Utf16Literal(s, p, end);
            && (IsLow(u) ==> r == BadEscape)
            && (!IsLow(u) && !IsHigh(u) ==> r == CodePoint(6, u))
            && (IsHigh(u) && (end < p + 12 || s[p + 6] != BACKSLASH || s[p + 7] != 117) ==> r == BadEscape)
            && (IsHigh(u) && end >= p + 12 && s[p + 6] == BACKSLASH && s[p + 7] == 117 ==>
                  var v := Hex4(s[p + 8..p + 12]);
                  r == if IsLow(v) then CodePoint(12, Join(u, v)) else BadEscape)
  {
    hide Hex4, Join;
  }

  /** The next piece, where a second surrogate would have to stand. */
  lemma SecondRead(s: seq<byte>, q: nat, ps: seq<Piece>)
    requires |ps| > 0 && ValidPiece(ps[0]) && At(s, q, LiteralText(ps))
    ensures |LiteralText(ps)| > 0
    ensures ps[0].Unit? ==>
              && |LiteralText(ps)| >= 6 && s[q] == BACKSLASH && s[q + 1] == 117
              && s[q + 2..q + 6] == ps[0].digits
    ensures !ps[0].Unit? && |LiteralText(ps)| >= 2 ==> s[q] != BACKSLASH || s[q + 1] != 117
  {
    AtHead(s, q, LiteralText(ps));
    if ps[0].Unit? {
      UnitAt(s, q, ps[0].digits, LiteralText(ps[1..]));
    } else if |LiteralText(ps)| >= 2 {
      assert s[q..q + |LiteralText(ps)|][1] == s[q + 1];
    }
  }

  /** The digits of a \u escape where the decoder looks for them. */
  lemma UnitAt(s: seq<byte>, p: nat, h: seq<byte>, rest: seq<byte>)
    requires IsHex4(h) && At(s, p, PieceText(Unit(h)) + rest)
    ensures p + 6 <= |s| && s[p] == BACKSLASH && s[p + 1] == 117 && s[p + 2..p + 6] == h
  {
    AtSplit(s, p, PieceText(Unit(h)), rest);
    AtSplit(s, p, [BACKSLASH, 117], h);
    AtHead(s, p, [BACKSLASH, 117]);
    assert s[p..p + 2][1] == s[p + 1];
  }

  // ---------- what print_string_ptr writes is a literal for the same string ----------

  ghost function EscapePiece(b: byte): Piece {
    if ShortEscape(b) != 0 then Short(ShortEscape(b))
    else if b < 32 then Unit([48, 48, HexDigit(b / 16), HexDigit(b % 16)])
    else Raw(b)
  }

  ghost function EscapePieces(x: seq<byte>): seq<Piece> {
    if |x| == 0 then [] else [EscapePiece(x[0])] + EscapePieces(x[1..])
  }

  lemma EscapePieceMeans(b: byte)
    requires b != 0
    ensures ValidPiece(EscapePiece(b)) && PieceText(EscapePiece(b)) == EscapeByte(b)
    ensures EscapePiece(b).Short? ==> ShortMeaning(EscapePiece(b).letter) == b
    ensures EscapePiece(b).Raw? ==> EscapePiece(b).b == b
    ensures EscapePiece(b).Unit? ==> |EscapePiece(b).digits| == 4 && Hex4(EscapePiece(b).digits) == b < 0x80
  {
  }

  lemma MeaningOfByte(b: byte, ps: seq<Piece>)
    requires b != 0 && |ps| > 0 && ps[0] == EscapePiece(b)
    ensures Meaning(ps) == Before([b], Meaning(ps[1..]))
  {
    hide Hex4;
    EscapePieceMeans(b);
  }

  /** Escaping and then reading the literal gives the string back. */
  lemma {:induction false} EscapeMeansItself(x: seq<byte>)
    requires NulFree(x)
    ensures ValidPieces(EscapePieces(x)) && LiteralText(EscapePieces(x)) == Escape(x)
    ensures Meaning(EscapePieces(x)) == Some(x)
  {
    if |x| > 0 {
      EscapePieceMeans(x[0]);
      EscapeMeansItself(x[1..]);
      assert EscapePieces(x)[1..] == EscapePieces(x[1..]);
      assert [x[0]] + x[1..] == x;
      MeaningOfByte(x[0], EscapePieces(x));
    }
  }

  /**
   * Printing takes the shortest escape: no piece of RFC 8259 that denotes the byte is shorter than what is written
   * for it, and hexadecimal digits are in lower case.
   */
  lemma EscapeIsShortest(b: byte, p: Piece)
    requires ValidPiece(p) && (p.Raw? ==> p.b >= 32) && Meaning([p]) == Some([b])
    ensures |EscapeByte(b)| <= |PieceText(p)|
    ensures |EscapeByte(b)| == 6 ==> forall i :: 2 <= i < 6 ==> !(65 <= EscapeByte(b)[i] <= 70)
  {
    hide Hex4, Utf8;
    assert [p][1..] == [];
    if !p.Unit? {
      var m: byte := if p.Raw? then p.b else ShortMeaning(p.letter);
      assert [m] + [] == [m];
      assert Meaning([p]) == Some([m]);
      assert [m][0] == [b][0];
    }
  }
}
