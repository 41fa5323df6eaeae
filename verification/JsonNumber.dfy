/** The characters parse_number collects, and the number strtod reads from them. */
module JsonNumber {
  import opened Bytes
  import opened JsonTree
  import opened JsonRender

  /** sizeof(number_c_string) - 1 */
  const MAX_NUMBER: nat := 63

  predicate IsDigit(b: byte) { 48 <= b <= 57 }

  predicate IsSign(b: byte) { b == 43 || b == 45 }

  predicate IsExponent(b: byte) { b == 101 || b == 69 }

  /** A character parse_number copies to its scratch buffer. */
  predicate IsNumberChar(b: byte) { IsDigit(b) || IsSign(b) || IsExponent(b) || b == 46 }

  /** How many characters from o on belong to the number, i of them already seen. */
  function RunLength(s: seq<byte>, o: nat, i: nat): (n: nat)
    requires o + i < |s| && s[|s| - 1] == 0 && i <= MAX_NUMBER
    ensures i <= n <= MAX_NUMBER && o + n < |s|
    decreases MAX_NUMBER - i
  {
    if i < MAX_NUMBER && IsNumberChar(s[o + i]) then RunLength(s, o, i + 1) else i
  }

  function DigitsEnd(r: seq<byte>, i: nat): (e: nat)
    requires i <= |r|
    ensures i <= e <= |r|
    decreases |r| - i
  {
    if i < |r| && IsDigit(r[i]) then DigitsEnd(r, i + 1) else i
  }

  function SignEnd(r: seq<byte>, i: nat): (e: nat)
    requires i <= |r|
    ensures i <= e <= |r|
  {
    if i < |r| && IsSign(r[i]) then i + 1 else i
  }

  /** The value of a run of digits. */
  function DigitsValue(d: seq<byte>): int {
    if |d| == 0 then 0 else 10 * DigitsValue(d[..|d| - 1]) + d[|d| - 1] - 48
  }

  /** What strtod reads: how many characters, and their value. */
  datatype Read = Read(length: nat, value: Decimal)

  /**
   * strtod (ISO C, in the "C" locale) on a run of number characters: an optional sign, digits
   * with an optional point, and an exponent only if it has digits. No digit in front of the
   * exponent means that nothing is read.
   */
  function Strtod(r: seq<byte>): (n: Read)
    ensures n.length <= |r|
  {
    var i := SignEnd(r, 0);
    var whole := DigitsEnd(r, i);
    var end := if whole < |r| && r[whole] == 46 then DigitsEnd(r, whole + 1) else whole;
    var fraction := if end > whole then r[whole + 1..end] else [];
    var digits := r[i..whole] + fraction;
    if |digits| == 0 then Read(0, Decimal(0, 0))
    else
      var (length, exponent) := ReadExponent(r, end);
      var magnitude := DigitsValue(digits);
      var value := if i == 1 && r[0] == 45 then -magnitude else magnitude;
      Read(length, Decimal(value, exponent - |fraction|))
  }

  function ReadExponent(r: seq<byte>, end: nat): (n: (nat, int))
    requires end <= |r|
    ensures end <= n.0 <= |r|
  {
    if end < |r| && IsExponent(r[end]) then
      var i := SignEnd(r, end + 1);
      var e := DigitsEnd(r, i);
      if e == i then (end, 0)
      else
        var magnitude := DigitsValue(r[i..e]);
        (e, if i > end + 1 && r[end + 1] == 45 then -magnitude else magnitude)
    else (end, 0)
  }

  // ---------- the numbers of RFC 8259 ----------

  datatype Exponent = Exponent(letter: byte, sign: seq<byte>, digits: seq<byte>)

  /** A decimal number; a fraction is what stands behind a point. */
  datatype Numeral = Numeral(minus: bool, whole: seq<byte>, fraction: Option<seq<byte>>, exponent: Option<Exponent>)

  predicate AllDigits(d: seq<byte>) {
    forall k :: 0 <= k < |d| ==> IsDigit(d[k])
  }

  predicate ValidExponent(e: Exponent) {
    IsExponent(e.letter) && (e.sign == [] || e.sign == [43] || e.sign == [45]) && |e.digits| > 0 && AllDigits(e.digits)
  }

  /** What strtod takes for a number: leading zeros, and nothing in front of the point or behind it, are allowed. */
  predicate IsNumeral(n: Numeral) {
    && AllDigits(n.whole) && AllDigits(Decimals(n.fraction)) && |n.whole| + |Decimals(n.fraction)| > 0
    && (n.exponent.Some? ==> ValidExponent(n.exponent.value))
  }

  /** A number that parse_value hands to parse_number, which takes no plus and no point for its start. */
  predicate LenientNumeral(n: Numeral) {
    IsNumeral(n) && (n.minus || |n.whole| > 0)
  }

  /** A number of section 6 of RFC 8259. */
  predicate ValidNumeral(n: Numeral) {
    && IsNumeral(n) && |n.whole| > 0 && (n.whole[0] == 48 ==> |n.whole| == 1)
    && (n.fraction.Some? ==> |n.fraction.value| > 0)
  }

  function Decimals(fraction: Option<seq<byte>>): seq<byte> {
    match fraction
    case None => []
    case Some(digits) => digits
  }

  function Minus(n: Numeral): seq<byte> {
    if n.minus then [45] else []
  }

  function Point(fraction: Option<seq<byte>>): seq<byte> {
    match fraction
    case None => []
    case Some(digits) => [46] + digits
  }

  function ExponentText(e: Option<Exponent>): seq<byte> {
    match e
    case None => []
    case Some(x) => [x.letter] + (x.sign + x.digits)
  }

  function NumeralText(n: Numeral): seq<byte> {
    Minus(n) + (n.whole + (Point(n.fraction) + ExponentText(n.exponent)))
  }

  function ExponentValue(e: Option<Exponent>): int {
    match e
    case None => 0
    case Some(x) => if x.sign == [45] then -DigitsValue(x.digits) else DigitsValue(x.digits)
  }

  function NumeralValue(n: Numeral): Decimal {
    var digits := DigitsValue(n.whole + Decimals(n.fraction));
    Decimal(if n.minus then -digits else digits, ExponentValue(n.exponent) - |Decimals(n.fraction)|)
  }

  lemma {:induction false} DigitsAreRead(r: seq<byte>, i: nat, d: seq<byte>)
    requires At(r, i, d) && AllDigits(d) && (i + |d| < |r| ==> !IsDigit(r[i + |d|]))
    ensures DigitsEnd(r, i) == i + |d|
    decreases |d|
  {
    if |d| > 0 {
      assert d == [d[0]] + d[1..];
      AtSplit(r, i, [d[0]], d[1..]);
      AtHead(r, i, d);
      DigitsAreRead(r, i + 1, d[1..]);
    }
  }

  /** Where the parts of a number stand in it, with `junk` behind it. */
  lemma NumeralParts(n: Numeral, junk: seq<byte>)
    requires IsNumeral(n)
    ensures var r, i := NumeralText(n) + junk, |Minus(n)|;
            && SignEnd(r, 0) == i && (i == 1 ==> r[0] == 45) && At(r, i, n.whole)
            && At(r, i + |n.whole|, Point(n.fraction))
            && At(r, i + |n.whole| + |Point(n.fraction)|, ExponentText(n.exponent) + junk)
            && i + |n.whole| + |Point(n.fraction)| + |ExponentText(n.exponent) + junk| == |r|
  {
    hide At, Point, ExponentText, SignEnd, Minus, IsNumeral, IsSign;
    var r := NumeralText(n) + junk;
    JunkBehind(Minus(n), n.whole, Point(n.fraction), ExponentText(n.exponent), junk);
    FourAt(r, Minus(n), n.whole, Point(n.fraction), ExponentText(n.exponent) + junk);
    BodyHead(r, n);
    SignOf(r, n);
  }

  lemma FourAt(r: seq<byte>, a: seq<byte>, b: seq<byte>, c: seq<byte>, d: seq<byte>)
    requires r == a + (b + (c + d))
    ensures At(r, 0, a) && At(r, |a|, b) && At(r, |a| + |b|, c) && At(r, |a| + |b| + |c|, d)
    ensures |r| == |a| + |b| + |c| + |d|
  {
    hide At;
    WholeAt(r);
    AtSplit(r, 0, a, b + (c + d));
    AtSplit(r, |a|, b, c + d);
    AtSplit(r, |a| + |b|, c, d);
  }

  /** Behind the sign comes a digit or the point. */
  lemma BodyHead(r: seq<byte>, n: Numeral)
    requires IsNumeral(n) && At(r, |Minus(n)|, n.whole) && At(r, |Minus(n)| + |n.whole|, Point(n.fraction))
    ensures |Minus(n)| < |r| && !IsSign(r[|Minus(n)|])
  {
    if |n.whole| > 0 {
      AtHead(r, |Minus(n)|, n.whole);
    } else {
      AtHead(r, |Minus(n)|, Point(n.fraction));
    }
  }

  lemma JunkBehind(a: seq<byte>, b: seq<byte>, c: seq<byte>, d: seq<byte>, junk: seq<byte>)
    ensures a + (b + (c + d)) + junk == a + (b + (c + (d + junk)))
  {
  }

  lemma SignOf(r: seq<byte>, n: Numeral)
    requires At(r, 0, Minus(n)) && |Minus(n)| < |r| && !IsSign(r[|Minus(n)|])
    ensures SignEnd(r, 0) == |Minus(n)| && (|Minus(n)| == 1 ==> r[0] == 45)
  {
    if n.minus {
      AtHead(r, 0, Minus(n));
    }
  }

  /** What may be left of a number behind the part that strtod can use: an exponent without digits. */
  predicate IsJunk(e: Option<Exponent>, junk: seq<byte>) {
    |junk| > 0 ==>
      && e.None? && IsExponent(junk[0]) && |junk| <= 2
      && (|junk| == 2 ==> IsSign(junk[1]))
  }

  lemma ExponentSign(r: seq<byte>, end: nat, x: Exponent)
    requires At(r, end, ExponentText(Some(x))) && ValidExponent(x)
    ensures end < |r| && IsExponent(r[end]) && SignEnd(r, end + 1) == end + 1 + |x.sign|
    ensures |x.sign| > 0 ==> r[end + 1] == x.sign[0]
    ensures At(r, end + 1 + |x.sign|, x.digits)
  {
    hide At, SignEnd, AllDigits;
    AtSplit(r, end, [x.letter], x.sign + x.digits);
    AtHead(r, end, [x.letter]);
    AtSplit(r, end + 1, x.sign, x.digits);
    FirstIsDigit(x.digits);
    AtHead(r, end + 1 + |x.sign|, x.digits);
    if |x.sign| > 0 {
      AtHead(r, end + 1, x.sign);
    }
    SignStops(r, end + 1, |x.sign|);
  }

  lemma FirstIsDigit(d: seq<byte>)
    requires AllDigits(d) && |d| > 0
    ensures !IsSign(d[0])
  {
  }

  lemma SignStops(r: seq<byte>, i: nat, k: nat)
    requires k <= 1 && i + k < |r| && !IsSign(r[i + k]) && (k == 1 ==> IsSign(r[i]))
    ensures SignEnd(r, i) == i + k
  {
  }

  lemma ExponentRead(r: seq<byte>, end: nat, e: Option<Exponent>, junk: seq<byte>)
    requires At(r, end, ExponentText(e) + junk) && end + |ExponentText(e) + junk| == |r|
    requires (e.Some? ==> ValidExponent(e.value)) && IsJunk(e, junk)
    ensures ReadExponent(r, end) == (|r| - |junk|, ExponentValue(e))
  {
    hide DigitsEnd, DigitsValue, At;
    AtSplit(r, end, ExponentText(e), junk);
    if e.Some? {
      hide SignEnd, ExponentText;
      var x := e.value;
      ExponentLength(x);
      ExponentSign(r, end, x);
      DigitsAreRead(r, end + 1 + |x.sign|, x.digits);
      AtIsSlice(r, end + 1 + |x.sign|, x.digits);
    } else if |junk| > 0 {
      JunkRead(r, end, junk);
    }
  }

  lemma ExponentLength(x: Exponent)
    ensures |ExponentText(Some(x))| == 1 + |x.sign| + |x.digits|
  {
  }

  lemma JunkRead(r: seq<byte>, end: nat, junk: seq<byte>)
    requires At(r, end, junk) && |r| == end + |junk| && |junk| > 0 && IsJunk(None, junk)
    ensures ReadExponent(r, end) == (end, 0)
  {
    hide At, DigitsValue;
    AtHead(r, end, junk);
    if |junk| == 2 {
      AtByte(r, end, junk, 1);
    }
  }

  /** The head of what stands behind the digits is no digit, and no point. */
  lemma ExponentHead(r: seq<byte>, end: nat, e: Option<Exponent>, junk: seq<byte>)
    requires At(r, end, ExponentText(e) + junk) && end + |ExponentText(e) + junk| == |r|
    requires (e.Some? ==> ValidExponent(e.value)) && IsJunk(e, junk)
    ensures end < |r| ==> !IsDigit(r[end]) && r[end] != 46
  {
    if end < |r| {
      AtHead(r, end, ExponentText(e) + junk);
    }
  }

  /** strtod reads every number up to what it cannot use, and gives the value that its digits write. */
  lemma StrtodReadsUpTo(n: Numeral, junk: seq<byte>)
    requires IsNumeral(n) && IsJunk(n.exponent, junk)
    ensures Strtod(NumeralText(n) + junk) == Read(|NumeralText(n)|, NumeralValue(n))
  {
    hide DigitsEnd, DigitsValue, ReadExponent, NumeralText, ExponentText, ExponentValue, SignEnd, At, AllDigits,
         ValidExponent, IsJunk;
    var r, i := NumeralText(n) + junk, |Minus(n)|;
    NumeralParts(n, junk);
    var whole := i + |n.whole|;
    var end := whole + |Point(n.fraction)|;
    ExponentHead(r, end, n.exponent, junk);
    DigitsOf(r, i, n.whole, n.fraction, end);
    ExponentRead(r, end, n.exponent, junk);
  }

  /** The digits in front of the point and behind it. */
  lemma DigitsOf(r: seq<byte>, i: nat, w: seq<byte>, fraction: Option<seq<byte>>, end: nat)
    requires At(r, i, w) && At(r, i + |w|, Point(fraction)) && end == i + |w| + |Point(fraction)|
    requires AllDigits(w) && AllDigits(Decimals(fraction)) && (end < |r| ==> !IsDigit(r[end]) && r[end] != 46)
    ensures end <= |r| && DigitsEnd(r, i) == i + |w| && r[i..i + |w|] == w
    ensures end == (if i + |w| < |r| && r[i + |w|] == 46 then DigitsEnd(r, i + |w| + 1) else i + |w|)
    ensures Decimals(fraction) == if end > i + |w| then r[i + |w| + 1..end] else []
  {
    hide DigitsEnd, At, IsDigit, AllDigits;
    AtIsSlice(r, i, w);
    AtIsSlice(r, i + |w|, Point(fraction));
    if fraction.Some? {
      PointThenDigits(r, i + |w|, fraction.value, end);
    }
    DigitsAreRead(r, i, w);
  }

  lemma PointThenDigits(r: seq<byte>, p: nat, digits: seq<byte>, end: nat)
    requires At(r, p, [46] + digits) && AllDigits(digits) && end == p + 1 + |digits|
    requires end < |r| ==> !IsDigit(r[end])
    ensures end <= |r| && r[p] == 46 && !IsDigit(r[p]) && DigitsEnd(r, p + 1) == end && r[p + 1..end] == digits
  {
    hide DigitsEnd, At, AllDigits, IsDigit;
    AtSplit(r, p, [46], digits);
    AtHead(r, p, [46]);
    PointIsNoDigit();
    AtIsSlice(r, p + 1, digits);
    DigitsAreRead(r, p + 1, digits);
  }

  lemma PointIsNoDigit()
    ensures !IsDigit(46)
  {
  }

  /** strtod reads every number to its end, and gives the value that its digits write. */
  lemma StrtodReads(n: Numeral)
    requires IsNumeral(n)
    ensures Strtod(NumeralText(n)) == Read(|NumeralText(n)|, NumeralValue(n))
  {
    hide Strtod, NumeralText, NumeralValue;
    StrtodReadsUpTo(n, []);
    assert NumeralText(n) + [] == NumeralText(n);
  }

  // ---------- numbers that are too long ----------

  /** parse_number's scratch buffer can hold the number. */
  predicate IsShort(n: Numeral) {
    |NumeralText(n)| <= MAX_NUMBER
  }

  /** How many characters the buffer has left behind the digits in front of the point. */
  function SpaceLeft(n: Numeral): int {
    MAX_NUMBER - |Minus(n)| - |n.whole|
  }

  /**
   * The number that is left of one that is too long: a point may lose its digits, and an exponent that loses its
   * digits is lost.
   */
  function Cut(n: Numeral): Numeral
    requires LenientNumeral(n) && !IsShort(n)
  {
    var left := SpaceLeft(n);
    if left <= 0 then n.(whole := n.whole[..MAX_NUMBER - |Minus(n)|], fraction := None, exponent := None)
    else if left < |Point(n.fraction)| then n.(fraction := Some(n.fraction.value[..left - 1]), exponent := None)
    else
      var x := n.exponent.value;
      var e := left - |Point(n.fraction)|;
      if e <= 1 + |x.sign| then n.(exponent := None)
      else n.(exponent := Some(x.(digits := x.digits[..e - 1 - |x.sign|])))
  }

  /** How many characters strtod uses of a number that is too long. */
  function CutLength(n: Numeral): nat
    requires LenientNumeral(n) && !IsShort(n)
  {
    |NumeralText(Cut(n))|
  }

  lemma TakeBehind(a: seq<byte>, b: seq<byte>, k: nat)
    requires |a| <= k <= |a| + |b|
    ensures (a + b)[..k] == a + b[..k - |a|]
  {
  }

  /** Too long already in front of the point. */
  lemma CutInWhole(n: Numeral)
    requires LenientNumeral(n) && !IsShort(n) && SpaceLeft(n) <= 0
    ensures LenientNumeral(Cut(n)) && NumeralText(n)[..MAX_NUMBER] == NumeralText(Cut(n))
  {
    var rest := n.whole + (Point(n.fraction) + ExponentText(n.exponent));
    TakeBehind(Minus(n), rest, MAX_NUMBER);
    assert rest[..MAX_NUMBER - |Minus(n)|] == Cut(n).whole;
    assert Cut(n).whole + ([] + []) == Cut(n).whole;
  }

  /** Too long in the fraction. */
  lemma CutInFraction(n: Numeral)
    requires LenientNumeral(n) && !IsShort(n) && 0 < SpaceLeft(n) < |Point(n.fraction)|
    ensures LenientNumeral(Cut(n)) && NumeralText(n)[..MAX_NUMBER] == NumeralText(Cut(n))
  {
    var m := Cut(n);
    TakeBehind(Minus(n), n.whole + (Point(n.fraction) + ExponentText(n.exponent)), MAX_NUMBER);
    TakeBehind(n.whole, Point(n.fraction) + ExponentText(n.exponent), MAX_NUMBER - |Minus(n)|);
    assert (Point(n.fraction) + ExponentText(n.exponent))[..SpaceLeft(n)] == Point(n.fraction)[..SpaceLeft(n)];
    assert Point(n.fraction)[..SpaceLeft(n)] == Point(m.fraction) == Point(m.fraction) + [];
  }

  /** Too long in the exponent: what is kept of it has a digit, or is junk. */
  lemma CutInExponent(n: Numeral) returns (junk: seq<byte>)
    requires LenientNumeral(n) && !IsShort(n) && SpaceLeft(n) >= |Point(n.fraction)| && SpaceLeft(n) > 0
    ensures LenientNumeral(Cut(n)) && IsJunk(Cut(n).exponent, junk)
    ensures NumeralText(n)[..MAX_NUMBER] == NumeralText(Cut(n)) + junk
  {
    var e := SpaceLeft(n) - |Point(n.fraction)|;
    var x, tail := n.exponent.value, ExponentText(n.exponent);
    junk := if e <= 1 + |x.sign| then tail[..e] else [];
    CutExponentText(x, e);
    CutInTail(Minus(n), n.whole, Point(n.fraction), tail, ExponentText(Cut(n).exponent), junk, e);
  }

  lemma CutInTail(a: seq<byte>, b: seq<byte>, c: seq<byte>, d: seq<byte>, kept: seq<byte>, junk: seq<byte>, e: nat)
    requires e <= |d| && d[..e] == kept + junk
    ensures (a + (b + (c + d)))[..|a| + |b| + |c| + e] == a + (b + (c + kept)) + junk
  {
    TakeBehind(a, b + (c + d), |a| + |b| + |c| + e);
    TakeBehind(b, c + d, |b| + |c| + e);
    TakeBehind(c, d, |c| + e);
    JunkBehind(a, b, c, kept, junk);
  }

  lemma CutExponentText(x: Exponent, e: nat)
    requires ValidExponent(x) && e < |ExponentText(Some(x))|
    ensures e <= 1 + |x.sign| ==>
              var junk := ExponentText(Some(x))[..e];
              IsJunk(None, junk) && ExponentText(None) + junk == junk
    ensures e > 1 + |x.sign| ==>
              var y := x.(digits := x.digits[..e - 1 - |x.sign|]);
              ValidExponent(y) && ExponentText(Some(y)) + [] == ExponentText(Some(x))[..e]
  {
  }

  /** What strtod reads of a number that is too long: the number that is left of it. */
  lemma CutRead(n: Numeral)
    requires LenientNumeral(n) && !IsShort(n)
    ensures Strtod(NumeralText(n)[..MAX_NUMBER]) == Read(CutLength(n), NumeralValue(Cut(n)))
    ensures 0 < CutLength(n) <= MAX_NUMBER
  {
    hide Strtod, NumeralText, NumeralValue, Cut;
    if SpaceLeft(n) <= 0 {
      CutInWhole(n);
      StrtodReads(Cut(n));
    } else if SpaceLeft(n) < |Point(n.fraction)| {
      CutInFraction(n);
      StrtodReads(Cut(n));
    } else {
      var junk := CutInExponent(n);
      StrtodReadsUpTo(Cut(n), junk);
    }
    NumeralChars(Cut(n));
  }

  /** A number in front of anything that is no number character is the whole run. */
  lemma {:induction false} RunIsText(s: seq<byte>, o: nat, w: seq<byte>, i: nat)
    requires i <= |w| <= MAX_NUMBER && o + |w| < |s| && At(s, o, w)
    requires forall k :: 0 <= k < |w| ==> IsNumberChar(w[k])
    requires !IsNumberChar(s[o + |w|]) && s[|s| - 1] == 0
    ensures RunLength(s, o, i) == |w|
    decreases |w| - i
  {
    if i < |w| {
      assert s[o + i] == s[o..o + |w|][i];
      RunIsText(s, o, w, i + 1);
    }
  }

  lemma NumeralChars(n: Numeral)
    requires IsNumeral(n)
    ensures |NumeralText(n)| > 0
    ensures forall k :: 0 <= k < |NumeralText(n)| ==> IsNumberChar(NumeralText(n)[k])
    ensures n.minus || |n.whole| > 0 ==> NumeralText(n)[0] == 45 || IsDigit(NumeralText(n)[0])
  {
  }

  // ---------- printed integers ----------

  lemma {:induction false} DigitsValueInverts(n: nat)
    ensures DigitsValue(Digits(n)) == n
  {
    var d := Digits(n);
    if n < 10 {
      assert d[..0] == [];
    } else {
      DigitsValueInverts(n / 10);
      assert d[..|d| - 1] == Digits(n / 10);
    }
  }

  lemma {:induction false} NoLeadingZero(n: nat)
    ensures Digits(n)[0] == 48 ==> |Digits(n)| == 1
    ensures n > 0 ==> Digits(n)[0] != 48
  {
    if n >= 10 {
      NoLeadingZero(n / 10);
    }
  }

  /** An integer as print_number writes it. */
  function IntNumeral(n: int): Numeral {
    Numeral(n < 0, Digits(if n < 0 then -n else n), None, None)
  }

  /** What print_number writes for an integer is a number of that value. */
  lemma IntIsNumeral(n: int)
    requires -EXACT_LIMIT < n < EXACT_LIMIT
    ensures ValidNumeral(IntNumeral(n)) && IsShort(IntNumeral(n)) && NumeralText(IntNumeral(n)) == IntText(n)
    ensures NumeralValue(IntNumeral(n)) == Decimal(n, 0)
  {
    var magnitude := if n < 0 then -n else n;
    NoLeadingZero(magnitude);
    DigitsValueInverts(magnitude);
    IntTextFits(n);
    assert Digits(magnitude) + ([] + []) == Digits(magnitude);
    assert Digits(magnitude) + [] == Digits(magnitude);
    assert [] + Digits(magnitude) == Digits(magnitude);
  }
}
