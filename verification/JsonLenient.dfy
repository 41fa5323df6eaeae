/**
 * The texts that the parser accepts beyond those of RFC 8259, and that it accepts no others: whatever it accepts is
 * written as a lenient document is, and the tree is what that document denotes.
 */
module JsonLenient {
  import opened Bytes
  import opened JsonTree
  import opened JsonRender
  import opened JsonString
  import opened JsonNumber
  import opened JsonGrammar
  import opened JsonText

  /** No quote but behind a backslash; a backslash takes the byte behind it. */
  ghost predicate Unquoted(w: seq<byte>) {
    |w| > 0 ==> if w[0] == BACKSLASH then |w| > 1 && Unquoted(w[2..]) else w[0] != QUOTE && Unquoted(w[1..])
  }

  /** Control bytes may stand in a string, and malformed digits behind \u, with anything behind them. */
  ghost predicate LenientPieces(ps: seq<Piece>) {
    |ps| > 0 ==>
      match ps[0]
      case Raw(b) => b != QUOTE && b != BACKSLASH && LenientPieces(ps[1..])
      case Short(letter) => ShortMeaning(letter) != 0 && LenientPieces(ps[1..])
      case Unit(digits) =>
        || (IsHex4(digits) && LenientPieces(ps[1..]))
        || (Malformed(digits) && Unquoted(digits) && |ps| == 1)
  }

  ghost predicate Lenient(t: Text) {
    match t
    case NumberText(n) => LenientNumeral(n)
    case StringText(ps) => LenientPieces(ps)
    case ArrayText(space, es) => IsBlank(space) && LenientElements(es)
    case ObjectText(space, fs) => IsBlank(space) && LenientFields(fs)
    case _ => true
  }

  ghost predicate LenientElement(e: Element) {
    IsBlank(e.before) && Lenient(e.value) && IsBlank(e.after)
  }

  ghost predicate LenientElements(es: seq<Element>) {
    |es| > 0 ==> LenientElement(es[0]) && LenientElements(es[1..])
  }

  ghost predicate LenientField(f: Field) {
    IsBlank(f.before) && LenientPieces(f.name) && IsBlank(f.gap) && LenientElement(f.element)
  }

  ghost predicate LenientFields(fs: seq<Field>) {
    |fs| > 0 ==> LenientField(fs[0]) && LenientFields(fs[1..])
  }

  // ---------- strings ----------

  /** What the first pass goes over has no quote of its own. */
  lemma {:induction false} ScannedIsUnquoted(s: seq<byte>, i: nat, end: nat)
    requires Scan(s, i) == Some(end)
    ensures i <= end < |s| && Unquoted(s[i..end])
    decreases |s| - i
  {
    if s[i] == QUOTE {
    } else if s[i] == BACKSLASH {
      ScannedIsUnquoted(s, i + 2, end);
      assert s[i..end][2..] == s[i + 2..end];
    } else {
      ScannedIsUnquoted(s, i + 1, end);
      assert s[i..end][1..] == s[i + 1..end];
    }
  }

  lemma {:induction false} CutBehind(w: seq<byte>, u: seq<byte>, v: seq<byte>)
    requires CStr(u) == CStr(v)
    ensures CStr(w + u) == CStr(w + v)
  {
    if |w| == 0 {
      assert w + u == u && w + v == v;
    } else {
      hide CStr;
      CutBehind(w[1..], u, v);
      CutStep(w, u);
      CutStep(w, v);
    }
  }

  lemma CutStep(w: seq<byte>, u: seq<byte>)
    requires |w| > 0
    ensures CStr(w + u) == if w[0] == 0 then [] else [w[0]] + CStr(w[1..] + u)
  {
    assert (w + u)[1..] == w[1..] + u;
  }

  lemma NulCuts(u: seq<byte>)
    ensures CStr([0] + u) == []
  {
  }

  /** What the second pass decodes is written in pieces, which denote what it yields up to the first NUL. */
  lemma {:induction false} DecodedIsLenient(s: seq<byte>, p: nat, end: nat) returns (ps: seq<Piece>)
    requires Scan(s, p) == Some(end) && end < |s| && Decode(s, p, end).Text?
    ensures LenientPieces(ps) && p <= end && LiteralText(ps) == s[p..end]
    ensures Meaning(ps).Some? && CStr(Meaning(ps).value) == CStr(Decode(s, p, end).bytes)
    decreases |s| - p
  {
    hide Scan, Decode, Meaning, LiteralText, LenientPieces, CStr, ShortMeaning;
    if p == end {
      ps := [];
      NothingDecoded(s, p);
      assert s[p..end] == [];
      return;
    }
    ScanGoesOn(s, p, end);
    if s[p] == BACKSLASH && s[p + 1] == 117 {
      ps := UnitIsLenient(s, p, end);
    } else {
      var k, b := SimpleDecoded(s, p, end);
      ps := DecodedIsLenient(s, p + k, end);
      CutBehind([b], Meaning(ps).value, Decode(s, p + k, end).bytes);
      ps := SimplePiece(if k == 2 then Short(s[p + 1]) else Raw(b), ps, s[p..end]);
    }
  }

  /** If the first pass ends behind p, there is a byte behind a backslash at p. */
  lemma ScanGoesOn(s: seq<byte>, p: nat, end: nat)
    requires Scan(s, p) == Some(end) && p != end
    ensures p < end < |s| && s[p] != QUOTE && (s[p] == BACKSLASH ==> p + 2 <= end && Scan(s, p + 2) == Some(end))
    ensures s[p] != BACKSLASH ==> Scan(s, p + 1) == Some(end)
  {
  }

  lemma NothingDecoded(s: seq<byte>, p: nat)
    requires p < |s|
    ensures Decode(s, p, p) == Text([]) && Meaning([]) == Some([]) && LiteralText([]) == [] && LenientPieces([])
  {
  }

  /** A byte as it is, or a one-letter escape. */
  lemma SimpleDecoded(s: seq<byte>, p: nat, end: nat) returns (k: nat, b: byte)
    requires Scan(s, p) == Some(end) && p < end < |s| && Decode(s, p, end).Text?
    requires s[p] == BACKSLASH ==> s[p + 1] != 117
    ensures (k == 1 && b == s[p] != BACKSLASH && b != QUOTE)
            || (k == 2 && s[p] == BACKSLASH && b == ShortMeaning(s[p + 1]) != 0)
    ensures p + k <= end && Scan(s, p + k) == Some(end) && Decode(s, p + k, end).Text?
    ensures Decode(s, p, end).bytes == [b] + Decode(s, p + k, end).bytes
  {
    hide ShortMeaning;
    ScanGoesOn(s, p, end);
    k, b := if s[p] == BACKSLASH then 2 else 1, if s[p] == BACKSLASH then ShortMeaning(s[p + 1]) else s[p];
  }

  lemma SimplePiece(p: Piece, rest: seq<Piece>, w: seq<byte>) returns (ps: seq<Piece>)
    requires LenientPieces(rest) && |PieceText(p)| <= |w|
    requires w[..|PieceText(p)|] == PieceText(p) && w[|PieceText(p)|..] == LiteralText(rest)
    requires match p {
               case Raw(b) => b != QUOTE && b != BACKSLASH
               case Short(letter) => ShortMeaning(letter) != 0
               case Unit(_) => false
             }
    ensures LenientPieces(ps) && LiteralText(ps) == w
    ensures Meaning(ps) == Before([if p.Raw? then p.b else ShortMeaning(p.letter)], Meaning(rest))
  {
    hide ShortMeaning;
    ps := OneMore(p, rest, w);
  }

  lemma OneMore(p: Piece, rest: seq<Piece>, w: seq<byte>) returns (ps: seq<Piece>)
    requires |PieceText(p)| <= |w| && w[..|PieceText(p)|] == PieceText(p) && w[|PieceText(p)|..] == LiteralText(rest)
    ensures ps == [p] + rest && ps[1..] == rest && LiteralText(ps) == w
  {
    ps := [p] + rest;
    assert ps[1..] == rest;
  }

  /** An escape of the form \u. */
  lemma {:induction false} UnitIsLenient(s: seq<byte>, p: nat, end: nat) returns (ps: seq<Piece>)
    requires Scan(s, p) == Some(end) && p < end < |s| && Decode(s, p, end).Text?
    requires s[p] == BACKSLASH && s[p + 1] == 117
    ensures LenientPieces(ps) && LiteralText(ps) == s[p..end]
    ensures Meaning(ps).Some? && CStr(Meaning(ps).value) == CStr(Decode(s, p, end).bytes)
    decreases |s| - p, 0
  {
    hide Utf8, Hex4, IsHex4, Scan, Decode, Meaning, LiteralText, LenientPieces, CStr;
    var digits, bytes := UnitDecoded(s, p, end);
    if !IsHex4(digits) {
      ps := MalformedIsLenient(s, p, end);
    } else {
      ScanSkipsUnit(s, p, end, digits);
      if Utf16Literal(s, p, end).length == 6 {
        ps := DecodedIsLenient(s, p + 6, end);
        CutBehind(Utf8(Hex4(digits)), Meaning(ps).value, Decode(s, p + 6, end).bytes);
        ps := UnitPiece(digits, ps, s[p..end]);
      } else {
        var low := s[p + 8..p + 12];
        LowIsHex(low);
        ScanSkipsUnit(s, p + 6, end, low);
        ps := DecodedIsLenient(s, p + 12, end);
        CutBehind(Utf8(Join(Hex4(digits), Hex4(low))), Meaning(ps).value, Decode(s, p + 12, end).bytes);
        SliceOfSlice(s, p, end, 8, 12);
        ps := PairPieces(digits, low, ps, s[p..end]);
      }
    }
  }

  lemma SliceOfSlice(s: seq<byte>, p: nat, end: nat, i: nat, j: nat)
    requires p + j <= end <= |s| && i <= j
    ensures s[p..end][i..j] == s[p + i..p + j] && s[p..end][j..] == s[p + j..end]
  {
    var w := s[p..end];
    assert forall k :: 0 <= k < |w| ==> w[k] == s[p + k];
    assert w[i..j] == s[p + i..p + j];
    assert w[j..] == s[p + j..end];
  }

  /** What the second pass does with it. */
  lemma UnitDecoded(s: seq<byte>, p: nat, end: nat) returns (digits: seq<byte>, bytes: seq<byte>)
    requires Scan(s, p) == Some(end) && p < end < |s| && Decode(s, p, end).Text?
    requires s[p] == BACKSLASH && s[p + 1] == 117
    ensures Scan(s, p + 2) == Some(end) && p + 6 <= end && digits == s[p + 2..p + 6]
    ensures bytes == Decode(s, p, end).bytes
    ensures var u := Utf16Literal(s, p, end);
            && u.CodePoint? && Decode(s, p + u.length, end).Text?
            && bytes == Utf8(u.value) + Decode(s, p + u.length, end).bytes
            && if u.length == 6 then u.value == Hex4(digits) && !IsLow(u.value) && !IsHigh(u.value)
               else
                 var low := s[p + 8..p + 12];
                 && IsHigh(Hex4(digits)) && IsLow(Hex4(low)) && s[p + 6] == BACKSLASH && s[p + 7] == 117
                 && p + 12 <= end && u.value == Join(Hex4(digits), Hex4(low))
  {
    hide Hex4, Utf8;
    digits, bytes := s[p + 2..p + 6], Decode(s, p, end).bytes;
  }

  lemma ScanSkipsUnit(s: seq<byte>, p: nat, end: nat, digits: seq<byte>)
    requires Scan(s, p) == Some(end) && p + 6 <= end < |s| && s[p] == BACKSLASH
    requires digits == s[p + 2..p + 6] && IsHex4(digits)
    ensures Scan(s, p + 6) == Some(end)
  {
    hide IsHex4;
    assert Scan(s, p) == Scan(s, p + 2);
    ScanSkipsDigits(s, p + 2, digits);
  }

  lemma LowIsHex(low: seq<byte>)
    requires |low| == 4 && IsLow(Hex4(low))
    ensures IsHex4(low)
  {
  }

  lemma MalformedIsLenient(s: seq<byte>, p: nat, end: nat) returns (ps: seq<Piece>)
    requires Scan(s, p + 2) == Some(end) && p + 6 <= end < |s| && Decode(s, p, end).Text?
    requires s[p] == BACKSLASH && s[p + 1] == 117 && !IsHex4(s[p + 2..p + 6])
    ensures LenientPieces(ps) && LiteralText(ps) == s[p..end]
    ensures Meaning(ps).Some? && CStr(Meaning(ps).value) == CStr(Decode(s, p, end).bytes)
  {
    hide Scan, IsHex4, Unquoted, Decode, CStr;
    var rest := s[p + 2..end];
    ps := [Unit(rest)];
    ScannedIsUnquoted(s, p + 2, end);
    assert rest[..4] == s[p + 2..p + 6];
    assert ps[1..] == [];
    assert PieceText(ps[0]) + [] == s[p..end];
    MalformedIsNul(s, p, end);
  }

  lemma MalformedIsNul(s: seq<byte>, p: nat, end: nat)
    requires p + 6 <= end < |s| && Decode(s, p, end).Text?
    requires s[p] == BACKSLASH && s[p + 1] == 117 && !IsHex4(s[p + 2..p + 6])
    ensures CStr(Decode(s, p, end).bytes) == [] == CStr([0])
  {
    assert Hex4(s[p + 2..p + 6]) == 0;
    NulCuts(Decode(s, p + 6, end).bytes);
  }

  lemma UnitPiece(digits: seq<byte>, rest: seq<Piece>, w: seq<byte>) returns (ps: seq<Piece>)
    requires IsHex4(digits) && !IsLow(Hex4(digits)) && !IsHigh(Hex4(digits)) && LenientPieces(rest)
    requires |w| >= 6 && w[0] == BACKSLASH && w[1] == 117 && w[2..6] == digits && w[6..] == LiteralText(rest)
    ensures LenientPieces(ps) && LiteralText(ps) == w && Meaning(ps) == Before(Utf8(Hex4(digits)), Meaning(rest))
  {
    hide Hex4, Utf8;
    ps := OneMore(Unit(digits), rest, w);
    assert digits[..4] == digits;
  }

  lemma PairPieces(digits: seq<byte>, low: seq<byte>, rest: seq<Piece>, w: seq<byte>) returns (ps: seq<Piece>)
    requires IsHex4(digits) && IsHex4(low) && IsHigh(Hex4(digits)) && IsLow(Hex4(low)) && LenientPieces(rest)
    requires |w| >= 12 && w[0] == BACKSLASH && w[1] == 117 && w[2..6] == digits
    requires w[6] == BACKSLASH && w[7] == 117 && w[8..12] == low && w[12..] == LiteralText(rest)
    ensures LenientPieces(ps) && LiteralText(ps) == w
    ensures Meaning(ps) == Before(Utf8(Join(Hex4(digits), Hex4(low))), Meaning(rest))
  {
    hide Hex4, Utf8;
    var more := OneMore(Unit(low), rest, w[6..]);
    ps := OneMore(Unit(digits), more, w);
    assert digits[..4] == digits && low[..4] == low;
    assert ps[2..] == more[1..];
  }

  /** What parse_string accepts is a lenient literal. */
  lemma StringIsLenient(s: seq<byte>, o: nat) returns (ps: seq<Piece>)
    requires o < |s| && Terminated(s) && ParseString(s, o).Ok?
    ensures LenientPieces(ps) && Meaning(ps).Some?
    ensures var r := ParseString(s, o);
            r.value == CStr(Meaning(ps).value) && JsonText.Literal(ps) == s[o..r.next]
  {
    hide Decode, Scan, LiteralText, Meaning, CStr;
    var end := Scan(s, o + 1).value;
    ps := DecodedIsLenient(s, o + 1, end);
    assert s[o..end + 1] == [QUOTE] + s[o + 1..end] + [QUOTE];
  }

  // ---------- numbers ----------

  lemma {:induction false} DigitsBefore(r: seq<byte>, i: nat)
    requires i <= |r|
    ensures AllDigits(r[i..DigitsEnd(r, i)])
    decreases |r| - i
  {
    if i < |r| && IsDigit(r[i]) {
      DigitsBefore(r, i + 1);
      assert r[i..DigitsEnd(r, i)] == [r[i]] + r[i + 1..DigitsEnd(r, i + 1)];
    }
  }

  lemma ExponentIsLenient(r: seq<byte>, end: nat) returns (e: Option<Exponent>)
    requires end <= |r|
    ensures e.Some? ==> ValidExponent(e.value)
    ensures ExponentText(e) == r[end..ReadExponent(r, end).0] && ExponentValue(e) == ReadExponent(r, end).1
  {
    hide DigitsEnd, DigitsValue;
    var next := ReadExponent(r, end).0;
    if next == end {
      e := None;
    } else {
      var i := SignEnd(r, end + 1);
      e := Some(Exponent(r[end], r[end + 1..i], r[i..next]));
      DigitsBefore(r, i);
      assert r[end..next] == [r[end]] + (r[end + 1..i] + r[i..next]);
    }
  }

  /** Where strtod finds the parts of a number. */
  lemma StrtodParts(r: seq<byte>, i: nat, whole: nat, end: nat) returns (n: Numeral)
    requires |r| > 0 && (r[0] == 45 || IsDigit(r[0])) && Strtod(r).length > 0
    requires i == SignEnd(r, 0) && whole == DigitsEnd(r, i)
    requires end == if whole < |r| && r[whole] == 46 then DigitsEnd(r, whole + 1) else whole
    ensures i <= whole <= end <= ReadExponent(r, end).0 == Strtod(r).length
    ensures LenientNumeral(n) && n.whole == r[i..whole] && Point(n.fraction) == r[whole..end]
    ensures Minus(n) == r[..i] && NumeralValue(n) == Strtod(r).value
    ensures ExponentText(n.exponent) == r[end..ReadExponent(r, end).0]
  {
    hide DigitsEnd, DigitsValue, ReadExponent, AllDigits, ValidExponent, ExponentText, ExponentValue;
    var point := whole < |r| && r[whole] == 46;
    var e := ExponentIsLenient(r, end);
    var fraction := if point then Some(r[whole + 1..end]) else None;
    DigitsBefore(r, i);
    if point {
      DigitsBefore(r, whole + 1);
      assert r[whole..end] == [46] + r[whole + 1..end];
    }
    n := Numeral(i == 1, r[i..whole], fraction, e);
    StartsWithDigit(r, i);
    NoDigits();
  }

  /** What strtod reads of a run that parse_number hands it is a lenient number. */
  lemma StrtodIsLenient(r: seq<byte>) returns (n: Numeral)
    requires |r| > 0 && (r[0] == 45 || IsDigit(r[0])) && Strtod(r).length > 0
    ensures LenientNumeral(n) && NumeralText(n) == r[..Strtod(r).length] && NumeralValue(n) == Strtod(r).value
  {
    var i := SignEnd(r, 0);
    var whole := DigitsEnd(r, i);
    var end := if whole < |r| && r[whole] == 46 then DigitsEnd(r, whole + 1) else whole;
    n := StrtodParts(r, i, whole, end);
    hide Strtod, DigitsEnd, SignEnd, ReadExponent, LenientNumeral, NumeralValue, Minus, Point, ExponentText;
    FourSlices(r, i, whole, end, Strtod(r).length);
  }

  lemma FourSlices(r: seq<byte>, i: nat, j: nat, k: nat, l: nat)
    requires i <= j <= k <= l <= |r|
    ensures r[..l] == r[..i] + (r[i..j] + (r[j..k] + r[k..l]))
  {
  }

  lemma NoDigits()
    ensures AllDigits([])
  {
  }

  lemma StartsWithDigit(r: seq<byte>, i: nat)
    requires |r| > 0 && (r[0] == 45 || IsDigit(r[0])) && i == SignEnd(r, 0)
    ensures i == 1 ==> r[0] == 45
    ensures i == 0 ==> DigitsEnd(r, i) > i
  {
  }

  lemma NumberIsLenient(s: seq<byte>, o: nat) returns (n: Numeral)
    requires o < |s| && Terminated(s) && (s[o] == 45 || IsDigit(s[o])) && ParseNumber(s, o).Ok?
    ensures LenientNumeral(n) && IsShort(n)
    ensures var r := ParseNumber(s, o);
            r.value == Number(NumeralValue(n)) && NumeralText(n) == s[o..r.next]
  {
    hide Strtod, NumeralText, NumeralValue, LenientNumeral;
    var run := s[o..o + RunLength(s, o, 0)];
    assert |run| > 0 by {
      assert IsNumberChar(s[o]) && RunLength(s, o, 0) == RunLength(s, o, 1);
    }
    n := StrtodIsLenient(run);
    assert run[..Strtod(run).length] == s[o..o + Strtod(run).length];
  }

  // ---------- values ----------

  /** t is written as w, denotes v up to NULs in its strings, and is nested no deeper than `room`. */
  ghost predicate IsTextOf(t: Text, w: seq<byte>, v: Json, room: int) {
    Lenient(t) && Write(t) == w && Kept(Value(t)) == Some(v) && Height(t) <= room && ShortNumbers(t)
  }

  ghost predicate AreElementsOf(es: seq<Element>, w: seq<byte>, vs: seq<Json>, room: int) {
    && |es| > 0 && LenientElements(es) && WriteElements(es) == w && KeptItems(Values(es)) == Some(vs)
    && HeightOfElements(es) <= room && ShortElements(es)
  }

  ghost predicate AreFieldsOf(fs: seq<Field>, w: seq<byte>, ms: seq<Member>, room: int) {
    && |fs| > 0 && LenientFields(fs) && WriteFields(fs) == w && KeptMembers(Members(fs)) == Some(ms)
    && HeightOfFields(fs) <= room && ShortFields(fs)
  }

  lemma SkippedIsBlank(s: seq<byte>, o: nat)
    requires o < |s|
    ensures IsBlank(s[o..SkipSpace(s, o)])
  {
  }

  /** Whatever parse_value accepts is the text of a value, and it yields that value. */
  lemma {:induction false} ValueIsLenient(s: seq<byte>, o: nat, depth: nat) returns (t: Text)
    requires o < |s| && Terminated(s) && depth <= NESTING_LIMIT && ParseValue(s, o, depth).Ok?
    ensures var r := ParseValue(s, o, depth);
            IsTextOf(t, s[o..r.next], r.value, NESTING_LIMIT - depth)
    decreases |s| - o, 3
  {
    hide ParseString, ParseNumber, ParseArray, ParseObject, Meaning, LenientPieces, LiteralText, LenientNumeral,
         NumeralText, NumeralValue, IsShort, CStr;
    if Word(s, o, TEXT_NULL) {
      t := NullText;
    } else if Word(s, o, TEXT_FALSE) {
      t := FalseText;
    } else if Word(s, o, TEXT_TRUE) {
      t := TrueText;
    } else if s[o] == QUOTE {
      var ps := StringIsLenient(s, o);
      t := StringText(ps);
    } else if s[o] == 45 || 48 <= s[o] <= 57 {
      var n := NumberIsLenient(s, o);
      t := NumberText(n);
    } else if s[o] == LBRACKET {
      t := ArrayIsLenient(s, o, depth);
    } else {
      t := ObjectIsLenient(s, o, depth);
    }
  }

  lemma {:induction false} ArrayIsLenient(s: seq<byte>, o: nat, depth: nat) returns (t: Text)
    requires o < |s| && Terminated(s) && depth <= NESTING_LIMIT && s[o] == LBRACKET && ParseArray(s, o, depth).Ok?
    ensures var r := ParseArray(s, o, depth);
            IsTextOf(t, s[o..r.next], r.value, NESTING_LIMIT - depth)
    decreases |s| - o, 2
  {
    hide SkipSpace, ParseItems, WriteElements, LenientElements, HeightOfElements, Values, ShortElements;
    var k := SkipSpace(s, o + 1);
    var next := ParseArray(s, o, depth).next;
    if s[k] == RBRACKET {
      SkippedIsBlank(s, o + 1);
      NoElements([]);
      EmptyIsFlat();
      NothingLenient();
      t := ArrayText(s[o + 1..k], []);
      assert s[o..next] == [LBRACKET] + (s[o + 1..k] + [RBRACKET]);
    } else {
      var es := ItemsAreLenient(s, o + 1, depth + 1);
      t := ArrayText([], es);
      assert s[o..next] == [LBRACKET] + s[o + 1..next];
    }
  }

  lemma NothingLenient()
    ensures LenientElements([]) && LenientFields([])
  {
  }

  /** One element and what follows it. */
  lemma FourParts(s: seq<byte>, i: nat, j: nat, k: nat, l: nat, m: nat)
    requires i <= j <= k <= l <= m <= |s|
    ensures s[i..m] == s[i..j] + (s[j..k] + (s[k..l] + s[l..m]))
  {
  }

  lemma {:induction false} ItemsAreLenient(s: seq<byte>, o: nat, depth: nat) returns (es: seq<Element>)
    requires o < |s| && Terminated(s) && depth <= NESTING_LIMIT && ParseItems(s, o, depth).Ok?
    ensures var r := ParseItems(s, o, depth);
            AreElementsOf(es, s[o..r.next], r.value, NESTING_LIMIT - depth)
    decreases |s| - o, 4
  {
    hide SkipSpace, ParseValue, ParseItems, Write, Value, Height, ShortNumbers, Truncated, Lenient, IsBlank;
    var p := SkipSpace(s, o);
    ItemsAccepted(s, o, p, depth);
    var r := ParseValue(s, p, depth);
    var t := ValueIsLenient(s, p, depth);
    var q, next := SkipSpace(s, r.next), ParseItems(s, o, depth).next;
    SkippedIsBlank(s, o);
    SkippedIsBlank(s, r.next);
    FourParts(s, o, p, r.next, q, next);
    var e := Element(s[o..p], t, s[r.next..q]);
    if s[q] == COMMA {
      var rest := ItemsAreLenient(s, q + 1, depth);
      assert s[q..next] == [COMMA] + s[q + 1..next];
      es := MoreElementsOf(e, rest, s[q + 1..next], r.value, ParseItems(s, q + 1, depth).value, NESTING_LIMIT - depth);
    } else {
      assert s[q..next] == [RBRACKET];
      es := LastElementOf(e, r.value, NESTING_LIMIT - depth);
    }
  }

  /** What parse_array has found when it succeeds. */
  lemma ItemsAccepted(s: seq<byte>, o: nat, p: nat, depth: nat)
    requires o < |s| && Terminated(s) && ParseItems(s, o, depth).Ok? && p == SkipSpace(s, o)
    ensures var r, whole := ParseValue(s, p, depth), ParseItems(s, o, depth);
            && r.Ok?
            && var q := SkipSpace(s, r.next);
               if s[q] == COMMA then
                 && q + 1 < |s| && ParseItems(s, q + 1, depth).Ok?
                 && whole == Ok([r.value] + ParseItems(s, q + 1, depth).value, ParseItems(s, q + 1, depth).next)
               else s[q] == RBRACKET && whole == Ok([r.value], q + 1)
  {
    hide ParseValue;
    var r := ParseValue(s, p, depth);
    if r.Ok? && s[SkipSpace(s, r.next)] == COMMA {
      CommaIsInside(s, SkipSpace(s, r.next));
    }
  }

  lemma LastElementOf(e: Element, v: Json, room: int) returns (es: seq<Element>)
    requires LenientElement(e) && Kept(Value(e.value)) == Some(v) && Height(e.value) <= room && ShortNumbers(e.value)
    ensures AreElementsOf(es, e.before + (Write(e.value) + (e.after + [RBRACKET])), [v], room)
  {
    hide Write, Value, Height, ShortNumbers, Truncated, LenientElement;
    es := [e];
    assert es[1..] == [];
    OneElement(es);
    OneItem(Value(e.value).value);
    NothingLenient();
    assert WriteElements(es) == WriteElement(e, MoreElements(es)) && MoreElements(es) == [RBRACKET];
  }

  lemma MoreElementsOf(e: Element, rest: seq<Element>, w: seq<byte>, v: Json, vs: seq<Json>, room: int)
    returns (es: seq<Element>)
    requires LenientElement(e) && Kept(Value(e.value)) == Some(v) && Height(e.value) <= room && ShortNumbers(e.value)
    requires AreElementsOf(rest, w, vs, room)
    ensures AreElementsOf(es, e.before + (Write(e.value) + (e.after + ([COMMA] + w))), [v] + vs, room)
  {
    hide Write, Value, Height, ShortNumbers, Truncated, LenientElement;
    es := [e] + rest;
    assert es[1..] == rest;
    MoreItems(Value(e.value).value, Values(rest).value);
    assert WriteElements(es) == WriteElement(e, MoreElements(es)) && MoreElements(es) == [COMMA] + w;
  }

  lemma {:induction false} ObjectIsLenient(s: seq<byte>, o: nat, depth: nat) returns (t: Text)
    requires o < |s| && Terminated(s) && depth <= NESTING_LIMIT && s[o] == LBRACE && ParseObject(s, o, depth).Ok?
    ensures var r := ParseObject(s, o, depth);
            IsTextOf(t, s[o..r.next], r.value, NESTING_LIMIT - depth)
    decreases |s| - o, 2
  {
    hide SkipSpace, ParseMembers, WriteFields, LenientFields, HeightOfFields, Members, ShortFields;
    var k := SkipSpace(s, o + 1);
    var next := ParseObject(s, o, depth).next;
    if s[k] == RBRACE {
      SkippedIsBlank(s, o + 1);
      NoFields([]);
      EmptyIsFlat();
      NothingLenient();
      t := ObjectText(s[o + 1..k], []);
      assert s[o..next] == [LBRACE] + (s[o + 1..k] + [RBRACE]);
    } else {
      var fs := MembersAreLenient(s, o + 1, depth + 1);
      t := ObjectText([], fs);
      assert s[o..next] == [LBRACE] + s[o + 1..next];
    }
  }

  lemma {:induction false} MembersAreLenient(s: seq<byte>, o: nat, depth: nat) returns (fs: seq<Field>)
    requires o < |s| && Terminated(s) && depth <= NESTING_LIMIT && ParseMembers(s, o, depth).Ok?
    ensures var r := ParseMembers(s, o, depth);
            AreFieldsOf(fs, s[o..r.next], r.value, NESTING_LIMIT - depth)
    decreases |s| - o, 5
  {
    hide SkipSpace, ParseMember, ParseMembers, WriteField, LenientField, TruncatedMember, Height, ShortNumbers,
         MemberOf;
    MembersAccepted(s, o, depth);
    var q, next := ParseMember(s, o, depth).next, ParseMembers(s, o, depth).next;
    assert s[o..next] == s[o..q] + s[q..next];
    if s[q] == COMMA {
      var rest := MembersAreLenient(s, q + 1, depth);
      var f := MemberIsLenient(s, o, depth, s[q..next]);
      assert s[q..next] == [COMMA] + s[q + 1..next];
      fs := MoreFieldsOf(f, rest, s[q + 1..next], ParseMember(s, o, depth).value,
                         ParseMembers(s, q + 1, depth).value, NESTING_LIMIT - depth);
    } else {
      assert s[q..next] == [RBRACE];
      var f := MemberIsLenient(s, o, depth, [RBRACE]);
      fs := LastFieldOf(f, ParseMember(s, o, depth).value, NESTING_LIMIT - depth);
    }
  }

  lemma LastFieldOf(f: Field, m: Member, room: int) returns (fs: seq<Field>)
    requires LenientField(f) && KeptMember(MemberOf(f)) == Some(m)
    requires Height(f.element.value) <= room && ShortNumbers(f.element.value)
    ensures AreFieldsOf(fs, WriteField(f, [RBRACE]), [m], room)
  {
    hide WriteField, Height, ShortNumbers, LenientField;
    fs := [f];
    NoFields([]);
    EmptyIsFlat();
    NothingLenient();
    MoreMembersKept(f, []);
    assert [f] + [] == fs && fs[1..] == [];
    assert TruncatedMembers([]) == [] && [m] + [] == [m];
    assert WriteFields(fs) == WriteField(f, MoreFields(fs)) && MoreFields(fs) == [RBRACE];
  }

  lemma MoreFieldsOf(f: Field, rest: seq<Field>, w: seq<byte>, m: Member, ms: seq<Member>, room: int)
    returns (fs: seq<Field>)
    requires LenientField(f) && KeptMember(MemberOf(f)) == Some(m) && AreFieldsOf(rest, w, ms, room)
    requires Height(f.element.value) <= room && ShortNumbers(f.element.value)
    ensures AreFieldsOf(fs, WriteField(f, [COMMA] + w), [m] + ms, room)
  {
    hide WriteField, Height, ShortNumbers, LenientField;
    fs := [f] + rest;
    MoreMembersKept(f, rest);
    assert WriteFields(fs) == WriteField(f, MoreFields(fs)) && MoreFields(fs) == [COMMA] + w;
  }

  lemma MoreMembersKept(f: Field, rest: seq<Field>)
    requires MemberOf(f).Some? && Members(rest).Some?
    ensures ([f] + rest)[1..] == rest
    ensures KeptMembers(Members([f] + rest))
         == Some([TruncatedMember(MemberOf(f).value)] + TruncatedMembers(Members(rest).value))
  {
    hide MemberOf, TruncatedMember;
    var m, ms := MemberOf(f).value, Members(rest).value;
    assert ([f] + rest)[1..] == rest;
    assert ([m] + ms)[1..] == ms;
  }

  /** What parse_object has found when it succeeds. */
  lemma MembersAccepted(s: seq<byte>, o: nat, depth: nat)
    requires o < |s| && Terminated(s) && ParseMembers(s, o, depth).Ok?
    ensures var r, whole := ParseMember(s, o, depth), ParseMembers(s, o, depth);
            && r.Ok?
            && if s[r.next] == COMMA then
                 && r.next + 1 < |s| && ParseMembers(s, r.next + 1, depth).Ok?
                 && whole == Ok([r.value] + ParseMembers(s, r.next + 1, depth).value,
                                ParseMembers(s, r.next + 1, depth).next)
               else s[r.next] == RBRACE && whole == Ok([r.value], r.next + 1)
  {
    hide ParseMember;
    var r := ParseMember(s, o, depth);
    if r.Ok? && s[r.next] == COMMA {
      CommaIsInside(s, r.next);
    }
  }

  /** A name, a colon and a value, with `rest` behind them. */
  lemma {:induction false} MemberIsLenient(s: seq<byte>, o: nat, depth: nat, rest: seq<byte>) returns (f: Field)
    requires o < |s| && Terminated(s) && depth <= NESTING_LIMIT && ParseMember(s, o, depth).Ok?
    ensures var r := ParseMember(s, o, depth);
            && LenientField(f) && WriteField(f, rest) == s[o..r.next] + rest && KeptMember(MemberOf(f)) == Some(r.value)
            && Height(f.element.value) <= NESTING_LIMIT - depth && ShortNumbers(f.element.value)
    decreases |s| - o, 4
  {
    hide SkipSpace, ParseValue, ParseString, Write, Value, Height, ShortNumbers, Truncated, Lenient, IsBlank,
         LenientPieces, Meaning, Literal, CStr;
    var p := SkipSpace(s, o);
    var key := ParseString(s, p);
    var colon := SkipSpace(s, key.next);
    var start := SkipSpace(s, colon + 1);
    var v := ParseValue(s, start, depth);
    var end := SkipSpace(s, v.next);
    var ps := StringIsLenient(s, p);
    var t := ValueIsLenient(s, start, depth);
    SkippedIsBlank(s, o);
    SkippedIsBlank(s, key.next);
    SkippedIsBlank(s, colon + 1);
    SkippedIsBlank(s, v.next);
    f := Field(s[o..p], ps, s[key.next..colon], Element(s[colon + 1..start], t, s[v.next..end]));
    SevenParts(s, o, p, key.next, colon, start, v.next, end, rest);
  }

  lemma SevenParts(s: seq<byte>, a: nat, b: nat, c: nat, d: nat, e: nat, f: nat, g: nat, rest: seq<byte>)
    requires a <= b <= c <= d < e <= f <= g <= |s| && s[d] == COLON
    ensures s[a..b] + (s[b..c] + (s[c..d] + ([COLON] + (s[d + 1..e] + (s[e..f] + (s[f..g] + rest))))))
         == s[a..g] + rest
  {
    assert s[d..d + 1] == [COLON];
    Cons(s, f, g, g, rest);
    Cons(s, e, f, g, rest);
    Cons(s, d + 1, e, g, rest);
    Cons(s, d, d + 1, g, rest);
    Cons(s, c, d, g, rest);
    Cons(s, b, c, g, rest);
    Cons(s, a, b, g, rest);
    assert s[g..g] + rest == rest;
  }

  lemma Cons(s: seq<byte>, i: nat, j: nat, k: nat, rest: seq<byte>)
    requires i <= j <= k <= |s|
    ensures s[i..j] + (s[j..k] + rest) == s[i..k] + rest
  {
  }

  // ---------- documents ----------

  /**
   * Whatever cJSON_ParseWithOpts accepts is a lenient document, up to where it has read, and the tree is what the
   * document denotes, with strings cut at their first NUL. If the text must be read to its end, it is all of the text.
   */
  lemma AcceptedIsLenient(text: seq<byte>, requireTerminated: bool) returns (d: Document)
    requires ParseText(text, requireTerminated).Ok?
    ensures LenientElement(d.element) && Value(d.element.value).Some?
    ensures Height(d.element.value) <= NESTING_LIMIT && ShortNumbers(d.element.value)
    ensures var r := ParseText(text, requireTerminated);
            && r.value == Truncated(Value(d.element.value).value)
            && DocumentText(d) == text[..r.next] && (requireTerminated ==> r.next == |text|)
  {
    hide ParseValue, SkipSpace, Write, Value, Height, ShortNumbers, Truncated, Lenient, IsBlank;
    var s: seq<byte> := text + [0];
    var o := SkipBom(s);
    var p := SkipSpace(s, o);
    var r := ParseValue(s, p, 0);
    var t := ValueIsLenient(s, p, 0);
    var whole := ParseText(text, requireTerminated);
    SkippedIsBlank(s, o);
    SkippedIsBlank(s, r.next);
    d := Document(o == 3, Element(s[o..p], t, s[r.next..whole.next]));
    if requireTerminated {
      EndReached(s, r.next);
    }
    assert s[..o] == if d.bom then BOM else [];
    assert s[r.next..r.next] == [];
    BlankNothing();
    FourParts(s, 0, o, p, r.next, whole.next);
    assert s[0..o] == s[..o] && s[0..whole.next] == text[..whole.next];
    assert s[r.next..whole.next] + [] == s[r.next..whole.next];
  }

  lemma BlankNothing()
    ensures IsBlank([])
  {
  }

  lemma EndReached(s: seq<byte>, o: nat)
    requires o < |s| && s[SkipSpace(s, o)] == 0
    ensures SkipSpace(s, o) == |s| - 1
  {
  }

  // ---------- where parsing stops ----------

  /** The first byte from o on that is neither white space nor a control byte, or the end of the text. */
  function FirstVisible(text: seq<byte>, o: nat): (p: nat)
    requires o <= |text|
    ensures o <= p <= |text| && (p < |text| ==> text[p] > 32) && forall k :: o <= k < p ==> text[k] <= 32
    decreases |text| - o
  {
    if o < |text| && text[o] <= 32 then FirstVisible(text, o + 1) else o
  }

  lemma VisibleIsSkipped(text: seq<byte>, o: nat)
    requires o <= |text|
    ensures SkipSpace(text + [0], o) == FirstVisible(text, o)
  {
    var s: seq<byte> := text + [0];
    var p := FirstVisible(text, o);
    if p < |text| {
      SkipsTo(s, o, p);
    } else {
      SkipsToNul(s, o);
    }
  }

  /** A byte that a value can start with. */
  predicate StartsValue(b: byte) {
    b == 110 || b == 102 || b == 116 || b == QUOTE || b == 45 || IsDigit(b) || b == LBRACKET || b == LBRACE
  }

  /** If no value starts at the first visible byte, or there is none, that is where the error is. */
  lemma ErrorAtStart(text: seq<byte>, requireTerminated: bool)
    requires var o := SkipBom(text + [0]);
             o <= |text| && var p := FirstVisible(text, o); p < |text| ==> !StartsValue(text[p])
    ensures ParseText(text, requireTerminated) == Fail(FirstVisible(text, SkipBom(text + [0])))
  {
    hide SkipSpace, SkipBom, ParseValue, StartsValue;
    var s: seq<byte> := text + [0];
    var p := FirstVisible(text, SkipBom(s));
    VisibleIsSkipped(text, SkipBom(s));
    NulStartsNothing();
    NoValueThere(s, p);
  }

  lemma NulStartsNothing()
    ensures !StartsValue(0)
  {
  }

  lemma NoValueThere(s: seq<byte>, p: nat)
    requires p < |s| && Terminated(s) && !StartsValue(s[p])
    ensures ParseValue(s, p, 0) == Fail(p)
  {
    hide ParseNumber, ParseArray, ParseObject, ParseString;
    if Word(s, p, TEXT_NULL) { WordBegins(s, p, TEXT_NULL); }
    if Word(s, p, TEXT_FALSE) { WordBegins(s, p, TEXT_FALSE); }
    if Word(s, p, TEXT_TRUE) { WordBegins(s, p, TEXT_TRUE); }
  }

  /**
   * If the text must be read to its end, it is refused exactly if something visible stands behind the value, and the
   * error is there.
   */
  lemma ErrorBehindValue(text: seq<byte>)
    requires ParseText(text, false).Ok?
    ensures var r := ParseText(text, false);
            var p := FirstVisible(text, r.next);
            ParseText(text, true) == if p < |text| then Fail(p) else Ok(r.value, |text|)
  {
    hide ParseValue, SkipSpace, SkipBom;
    var r := ParseText(text, false);
    VisibleIsSkipped(text, r.next);
  }
}
