/**
 * The texts of RFC 8259, with any layout and any choice of escapes, what they denote, and which of
 * them the parser accepts, with which value.
 */
module JsonText {
  import opened Bytes
  import opened JsonTree
  import opened JsonRender
  import opened JsonString
  import opened JsonNumber
  import opened JsonGrammar

  /** A value as it is written. An array or object has `space` inside only if it is empty. */
  datatype Text =
    | NullText
    | FalseText
    | TrueText
    | NumberText(numeral: Numeral)
    | StringText(pieces: seq<Piece>)
    | ArrayText(space: seq<byte>, elements: seq<Element>)
    | ObjectText(space: seq<byte>, fields: seq<Field>)

  /** A value with the white space around it. */
  datatype Element = Element(before: seq<byte>, value: Text, after: seq<byte>)

  /** A name with the white space around it, and behind the colon its value. */
  datatype Field = Field(before: seq<byte>, name: seq<Piece>, gap: seq<byte>, element: Element)

  /** Insignificant white space, section 2. */
  predicate IsWhite(w: seq<byte>) {
    forall i :: 0 <= i < |w| ==> w[i] == 32 || w[i] == 9 || w[i] == 10 || w[i] == 13
  }

  ghost predicate Valid(t: Text) {
    match t
    case NumberText(n) => ValidNumeral(n)
    case StringText(ps) => ValidPieces(ps)
    case ArrayText(space, es) => IsWhite(space) && ValidElements(es)
    case ObjectText(space, fs) => IsWhite(space) && ValidFields(fs)
    case _ => true
  }

  ghost predicate ValidElement(e: Element) {
    IsWhite(e.before) && Valid(e.value) && IsWhite(e.after)
  }

  ghost predicate ValidElements(es: seq<Element>) {
    |es| > 0 ==> ValidElement(es[0]) && ValidElements(es[1..])
  }

  ghost predicate ValidFields(fs: seq<Field>) {
    |fs| > 0 ==>
      && IsWhite(fs[0].before) && ValidPieces(fs[0].name) && IsWhite(fs[0].gap) && ValidElement(fs[0].element)
      && ValidFields(fs[1..])
  }

  // ---------- texts beyond RFC 8259 ----------

  /** All control bytes are taken for white space. */
  predicate IsBlank(w: seq<byte>) {
    forall i :: 0 <= i < |w| ==> w[i] <= 32
  }

  /** Between the tokens may stand any control bytes, and numbers are those that strtod knows. */
  ghost predicate Readable(t: Text) {
    match t
    case NumberText(n) => LenientNumeral(n)
    case StringText(ps) => ValidPieces(ps)
    case ArrayText(space, es) => IsBlank(space) && ReadableElements(es)
    case ObjectText(space, fs) => IsBlank(space) && ReadableFields(fs)
    case _ => true
  }

  ghost predicate ReadableElement(e: Element) {
    IsBlank(e.before) && Readable(e.value) && IsBlank(e.after)
  }

  ghost predicate ReadableElements(es: seq<Element>) {
    |es| > 0 ==> ReadableElement(es[0]) && ReadableElements(es[1..])
  }

  ghost predicate ReadableFields(fs: seq<Field>) {
    |fs| > 0 ==>
      && IsBlank(fs[0].before) && ValidPieces(fs[0].name) && IsBlank(fs[0].gap) && ReadableElement(fs[0].element)
      && ReadableFields(fs[1..])
  }

  /** The texts of RFC 8259 are among them. */
  lemma {:induction false} ValidIsReadable(t: Text)
    requires Valid(t)
    ensures Readable(t)
    decreases t, 1
  {
    match t
    case ArrayText(_, es) => ValidElementsAreReadable(es);
    case ObjectText(_, fs) => ValidFieldsAreReadable(fs);
    case _ =>
  }

  lemma {:induction false} ValidElementsAreReadable(es: seq<Element>)
    requires ValidElements(es)
    ensures ReadableElements(es)
    decreases es, 0
  {
    hide Valid, Readable;
    if |es| > 0 {
      ValidIsReadable(es[0].value);
      ValidElementsAreReadable(es[1..]);
    }
  }

  lemma {:induction false} ValidFieldsAreReadable(fs: seq<Field>)
    requires ValidFields(fs)
    ensures ReadableFields(fs)
    decreases fs, 0
  {
    hide Valid, Readable, ValidPieces;
    if |fs| > 0 {
      ValidIsReadable(fs[0].element.value);
      ValidFieldsAreReadable(fs[1..]);
    }
  }

  lemma ElementIsReadable(e: Element)
    requires ValidElement(e)
    ensures ReadableElement(e)
  {
    ValidIsReadable(e.value);
  }

  // ---------- writing ----------

  ghost function Literal(ps: seq<Piece>): seq<byte> {
    [QUOTE] + LiteralText(ps) + [QUOTE]
  }

  ghost function Write(t: Text): seq<byte> {
    match t
    case NullText => TEXT_NULL
    case FalseText => TEXT_FALSE
    case TrueText => TEXT_TRUE
    case NumberText(n) => NumeralText(n)
    case StringText(ps) => Literal(ps)
    case ArrayText(space, es) => [LBRACKET] + (if |es| == 0 then space + [RBRACKET] else WriteElements(es))
    case ObjectText(space, fs) => [LBRACE] + (if |fs| == 0 then space + [RBRACE] else WriteFields(fs))
  }

  /** An element, and `rest` behind it. */
  ghost function WriteElement(e: Element, rest: seq<byte>): seq<byte> {
    e.before + (Write(e.value) + (e.after + rest))
  }

  /** The elements, up to and including the closing bracket. */
  ghost function WriteElements(es: seq<Element>): seq<byte>
    requires |es| > 0
  {
    WriteElement(es[0], MoreElements(es))
  }

  /** What follows the first element. */
  ghost function MoreElements(es: seq<Element>): seq<byte>
    requires |es| > 0
    decreases es, 0
  {
    if |es| == 1 then [RBRACKET] else [COMMA] + WriteElements(es[1..])
  }

  /** A name, a colon and a value, and `rest` behind them. */
  ghost function WriteField(f: Field, rest: seq<byte>): seq<byte> {
    f.before + (Literal(f.name) + (f.gap + ([COLON] + WriteElement(f.element, rest))))
  }

  ghost function WriteFields(fs: seq<Field>): seq<byte>
    requires |fs| > 0
  {
    WriteField(fs[0], MoreFields(fs))
  }

  ghost function MoreFields(fs: seq<Field>): seq<byte>
    requires |fs| > 0
    decreases fs, 0
  {
    if |fs| == 1 then [RBRACE] else [COMMA] + WriteFields(fs[1..])
  }

  // ---------- meaning ----------

  /** What a text denotes; None if a surrogate stands alone in a string. */
  ghost function Value(t: Text): Option<Json> {
    match t
    case NullText => Some(Null)
    case FalseText => Some(False)
    case TrueText => Some(True)
    case NumberText(n) => Some(Number(NumeralValue(n)))
    case StringText(ps) => (match Meaning(ps) case None => None case Some(x) => Some(String(x)))
    case ArrayText(_, es) => (match Values(es) case None => None case Some(items) => Some(Array(items)))
    case ObjectText(_, fs) => (match Members(fs) case None => None case Some(ms) => Some(Object(ms)))
  }

  ghost function Values(es: seq<Element>): Option<seq<Json>> {
    if |es| == 0 then Some([])
    else
      match (Value(es[0].value), Values(es[1..]))
      case (Some(v), Some(rest)) => Some([v] + rest)
      case _ => None
  }

  ghost function Members(fs: seq<Field>): Option<seq<Member>> {
    if |fs| == 0 then Some([])
    else
      match (MemberOf(fs[0]), Members(fs[1..]))
      case (Some(m), Some(rest)) => Some([m] + rest)
      case _ => None
  }

  ghost function MemberOf(f: Field): Option<Member> {
    match (Meaning(f.name), Value(f.element.value))
    case (Some(key), Some(v)) => Some(Member(key, v))
    case _ => None
  }

  /** How deeply the text is nested. */
  ghost function Height(t: Text): nat {
    match t
    case ArrayText(_, es) => 1 + HeightOfElements(es)
    case ObjectText(_, fs) => 1 + HeightOfFields(fs)
    case _ => 0
  }

  ghost function HeightOfElements(es: seq<Element>): nat {
    if |es| == 0 then 0 else Max(Height(es[0].value), HeightOfElements(es[1..]))
  }

  ghost function HeightOfFields(fs: seq<Field>): nat {
    if |fs| == 0 then 0 else Max(Height(fs[0].element.value), HeightOfFields(fs[1..]))
  }

  // ---------- what a C program keeps of it ----------

  /** The tree with every string and name cut at its first NUL, which \u0000 writes. */
  function Truncated(t: Json): Json {
    match t
    case String(x) => String(CStr(x))
    case Array(items) => Array(TruncatedItems(items))
    case Object(members) => Object(TruncatedMembers(members))
    case _ => t
  }

  function TruncatedItems(items: seq<Json>): seq<Json> {
    if |items| == 0 then [] else [Truncated(items[0])] + TruncatedItems(items[1..])
  }

  function TruncatedMember(m: Member): Member {
    Member(CStr(m.key), Truncated(m.value))
  }

  function TruncatedMembers(members: seq<Member>): seq<Member> {
    if |members| == 0 then [] else [TruncatedMember(members[0])] + TruncatedMembers(members[1..])
  }

  /** A tree without NUL in its strings is kept as it is. */
  lemma {:induction false} PrintableIsKept(t: Json)
    requires Printable(t)
    ensures Truncated(t) == t
    decreases t, 1
  {
    match t
    case Array(items) => PrintableItemsAreKept(items);
    case Object(members) => PrintableMembersAreKept(members);
    case _ =>
  }

  lemma {:induction false} PrintableItemsAreKept(items: seq<Json>)
    requires PrintableItems(items)
    ensures TruncatedItems(items) == items
    decreases items, 0
  {
    if |items| > 0 {
      PrintableIsKept(items[0]);
      PrintableItemsAreKept(items[1..]);
    }
  }

  lemma {:induction false} PrintableMembersAreKept(members: seq<Member>)
    requires PrintableMembers(members)
    ensures TruncatedMembers(members) == members
    decreases members, 0
  {
    if |members| > 0 {
      PrintableIsKept(members[0].value);
      PrintableMembersAreKept(members[1..]);
    }
  }

  ghost function Kept(v: Option<Json>): Option<Json> {
    match v
    case None => None
    case Some(t) => Some(Truncated(t))
  }

  ghost function KeptItems(v: Option<seq<Json>>): Option<seq<Json>> {
    match v
    case None => None
    case Some(items) => Some(TruncatedItems(items))
  }

  ghost function KeptMember(v: Option<Member>): Option<Member> {
    match v
    case None => None
    case Some(m) => Some(TruncatedMember(m))
  }

  ghost function KeptMembers(v: Option<seq<Member>>): Option<seq<Member>> {
    match v
    case None => None
    case Some(members) => Some(TruncatedMembers(members))
  }

  /** Every number fits the scratch buffer of parse_number. */
  ghost predicate ShortNumbers(t: Text) {
    match t
    case NumberText(n) => IsShort(n)
    case ArrayText(_, es) => ShortElements(es)
    case ObjectText(_, fs) => ShortFields(fs)
    case _ => true
  }

  ghost predicate ShortElements(es: seq<Element>) {
    |es| > 0 ==> ShortNumbers(es[0].value) && ShortElements(es[1..])
  }

  ghost predicate ShortFields(fs: seq<Field>) {
    |fs| > 0 ==> ShortNumbers(fs[0].element.value) && ShortFields(fs[1..])
  }

  /** The text is a number, and too long. */
  ghost predicate IsLong(t: Text) {
    t.NumberText? && !IsShort(t.numeral)
  }

  // ---------- reading ----------

  /** r is the value v, read up to `next`, or a failure if there is no value or it does not fit. */
  ghost predicate Reads<T>(r: Parsed<T>, v: Option<T>, fits: bool, next: nat) {
    if v.Some? && fits then r == Ok(v.value, next) else r.Fail?
  }

  /** What a text starts with tells parse_value which kind of value it is. */
  predicate Begins(t: Text, b: byte) {
    match t
    case NullText => b == 110
    case FalseText => b == 102
    case TrueText => b == 116
    case NumberText(_) => b == 45 || IsDigit(b)
    case StringText(_) => b == QUOTE
    case ArrayText(_, _) => b == LBRACKET
    case ObjectText(_, _) => b == LBRACE
  }

  lemma TextBegins(t: Text)
    requires Readable(t)
    ensures |Write(t)| > 0 && Begins(t, Write(t)[0])
  {
    if t.NumberText? {
      NumeralChars(t.numeral);
    }
  }

  lemma BeginsVisibly(t: Text, b: byte)
    requires Begins(t, b)
    ensures b > 32
  {
  }

  lemma WordBegins(s: seq<byte>, o: nat, w: seq<byte>)
    requires Word(s, o, w) && |w| > 0
    ensures s[o] == w[0]
  {
    assert s[o..o + |w|][0] == s[o];
  }

  /** A value is taken for a name only if it is that name. */
  lemma NamesAreNames(s: seq<byte>, o: nat, t: Text)
    requires o < |s| && Begins(t, s[o])
    ensures Word(s, o, TEXT_NULL) ==> t.NullText?
    ensures Word(s, o, TEXT_FALSE) ==> t.FalseText?
    ensures Word(s, o, TEXT_TRUE) ==> t.TrueText?
  {
    if Word(s, o, TEXT_NULL) { WordBegins(s, o, TEXT_NULL); }
    if Word(s, o, TEXT_FALSE) { WordBegins(s, o, TEXT_FALSE); }
    if Word(s, o, TEXT_TRUE) { WordBegins(s, o, TEXT_TRUE); }
  }

  lemma {:induction false} SkipsTo(s: seq<byte>, o: nat, q: nat)
    requires o <= q < |s| && s[q] > 32 && forall k :: o <= k < q ==> s[k] <= 32
    ensures ScanSpace(s, o) == q && SkipSpace(s, o) == q
    decreases q - o
  {
    if o < q {
      SkipsTo(s, o + 1, q);
    }
  }

  /** White space in front of a visible byte is skipped, and nothing behind it. */
  lemma SkipsWhite(s: seq<byte>, o: nat, w: seq<byte>)
    requires At(s, o, w) && IsBlank(w) && o + |w| < |s| && s[o + |w|] > 32
    ensures SkipSpace(s, o) == o + |w|
  {
    forall k | o <= k < o + |w|
      ensures s[k] <= 32
    {
      AtByte(s, o, w, k - o);
    }
    SkipsTo(s, o, o + |w|);
  }

  /** What may follow an element. */
  predicate IsEnd(b: byte) {
    b == COMMA || b == RBRACKET || b == RBRACE
  }

  /** What stands behind a value starts with no character of a number. */
  lemma AfterValue(s: seq<byte>, end: nat, after: seq<byte>, rest: seq<byte>)
    requires At(s, end, after + rest) && IsBlank(after) && |rest| > 0 && IsEnd(rest[0])
    ensures end < |s| && !IsNumberChar(s[end]) && SkipSpace(s, end) == end + |after| && At(s, end + |after|, rest)
    ensures end + |after| < |s| && s[end + |after|] == rest[0]
  {
    AtSplit(s, end, after, rest);
    AtHead(s, end + |after|, rest);
    AtHead(s, end, after + rest);
    SkipsWhite(s, end, after);
  }

  /** Where the parts of an element stand. */
  lemma ElementParts(s: seq<byte>, o: nat, e: Element, rest: seq<byte>)
    requires ReadableElement(e) && At(s, o, WriteElement(e, rest)) && |rest| > 0 && IsEnd(rest[0])
    ensures var p := o + |e.before|;
            var end := p + |Write(e.value)|;
            && p < |s| && SkipSpace(s, o) == p && Begins(e.value, s[p]) && At(s, p, Write(e.value))
            && end < |s| && !IsNumberChar(s[end]) && SkipSpace(s, end) == end + |e.after|
            && end + |e.after| < |s| && s[end + |e.after|] == rest[0] && At(s, end + |e.after|, rest)
  {
    hide Write, At, SkipSpace, Begins, Readable, IsBlank, IsEnd, IsNumberChar;
    var p := o + |e.before|;
    AtSplit(s, o, e.before, Write(e.value) + (e.after + rest));
    AtSplit(s, p, Write(e.value), e.after + rest);
    TextBegins(e.value);
    AtHead(s, p, Write(e.value));
    BeginsVisibly(e.value, s[p]);
    AfterValue(s, p + |Write(e.value)|, e.after, rest);
    SkipsWhite(s, o, e.before);
  }

  /**
   * parse_string on a quoted literal: it fails exactly where a surrogate stands alone, and otherwise yields
   * what the literal denotes, up to its first NUL, and goes on behind the closing quote.
   */
  lemma LiteralParsed(s: seq<byte>, o: nat, ps: seq<Piece>)
    requires Terminated(s) && ValidPieces(ps) && o + |LiteralText(ps)| + 2 < |s|
    requires At(s, o, Literal(ps))
    ensures match Meaning(ps) {
              case None => ParseString(s, o).Fail?
              case Some(bytes) => ParseString(s, o) == Ok(CStr(bytes), o + |LiteralText(ps)| + 2)
            }
  {
    hide Meaning, Decode, Scan, LiteralText, ValidPieces;
    AtSplit(s, o, [QUOTE] + LiteralText(ps), [QUOTE]);
    AtSplit(s, o, [QUOTE], LiteralText(ps));
    AtHead(s, o, [QUOTE]);
    AtHead(s, o + 1 + |LiteralText(ps)|, [QUOTE]);
    ScanFindsEnd(s, o + 1, ps);
    DecodeIsMeaning(s, o + 1, ps);
  }

  /** parse_value has read what is left of a number that is too long, and stands in the middle of it. */
  ghost predicate ReadsCut(s: seq<byte>, r: Parsed<Json>, n: Numeral, o: nat)
    requires LenientNumeral(n) && !IsShort(n)
  {
    && r == Ok(Number(NumeralValue(Cut(n))), o + CutLength(n))
    && r.next < |s| && IsNumberChar(s[r.next])
  }

  /** What parse_value makes of a text: all of it, or what is left of a number. */
  ghost predicate ReadsText(s: seq<byte>, r: Parsed<Json>, t: Text, depth: nat, o: nat)
    requires Readable(t)
  {
    if IsLong(t) then ReadsCut(s, r, t.numeral, o)
    else Reads(r, Kept(Value(t)), depth + Height(t) <= NESTING_LIMIT && ShortNumbers(t), o + |Write(t)|)
  }

  /**
   * parse_value on any text: it succeeds if and only if the text denotes a value, is not nested too deeply and has
   * no number that is too long, and then it yields the value and stops right behind the text. Of a number that is
   * too long by itself it reads a part.
   */
  lemma {:induction false} TextRead(s: seq<byte>, o: nat, t: Text, depth: nat)
    requires Terminated(s) && Readable(t) && depth <= NESTING_LIMIT
    requires At(s, o, Write(t)) && o + |Write(t)| < |s| && !IsNumberChar(s[o + |Write(t)|])
    ensures ReadsText(s, ParseValue(s, o, depth), t, depth, o)
    decreases t, 2
  {
    hide At, ParseNumber, ParseString, ParseArray, ParseObject, ParseValue, Values, Members, Meaning, WriteElements,
         WriteFields, NumeralText, NumeralValue, HeightOfElements, HeightOfFields, ReadableElements, ReadableFields,
         ShortElements, ShortFields, ReadsCut, TruncatedItems, TruncatedMembers, CStr;
    Dispatches(s, o, t, depth);
    match t
    case NullText =>
    case FalseText =>
    case TrueText =>
    case NumberText(n) =>
      if IsShort(n) {
        NumberRead(s, o, n);
      } else {
        LongNumberRead(s, o, n);
      }
    case StringText(ps) => LiteralParsed(s, o, ps);
    case ArrayText(space, es) => ArrayRead(s, o, space, es, depth);
    case ObjectText(space, fs) => ObjectRead(s, o, space, fs, depth);
  }

  /** parse_value calls the routine for the kind of value that stands in the text. */
  lemma Dispatches(s: seq<byte>, o: nat, t: Text, depth: nat)
    requires Terminated(s) && Readable(t) && At(s, o, Write(t))
    ensures o < |s| && Begins(t, s[o])
    ensures match t {
              case NullText => ParseValue(s, o, depth) == Ok(Null, o + 4)
              case FalseText => ParseValue(s, o, depth) == Ok(False, o + 5)
              case TrueText => ParseValue(s, o, depth) == Ok(True, o + 4)
              case NumberText(_) => ParseValue(s, o, depth) == ParseNumber(s, o)
              case StringText(_) =>
                ParseValue(s, o, depth)
                == (match ParseString(s, o) case Fail(at) => Fail(at) case Ok(x, next) => Ok(String(x), next))
              case ArrayText(_, _) => ParseValue(s, o, depth) == ParseArray(s, o, depth)
              case ObjectText(_, _) => ParseValue(s, o, depth) == ParseObject(s, o, depth)
            }
  {
    hide ParseNumber, ParseString, ParseArray, ParseObject, WriteElements, WriteFields, Literal, NumeralText;
    TextBegins(t);
    AtHead(s, o, Write(t));
    NamesAreNames(s, o, t);
  }

  lemma NumberRead(s: seq<byte>, o: nat, n: Numeral)
    requires Terminated(s) && LenientNumeral(n) && IsShort(n)
    requires At(s, o, NumeralText(n)) && o + |NumeralText(n)| < |s| && !IsNumberChar(s[o + |NumeralText(n)|])
    ensures ParseNumber(s, o) == Ok(Number(NumeralValue(n)), o + |NumeralText(n)|)
  {
    hide Strtod, NumeralText, NumeralValue;
    NumeralChars(n);
    RunIsText(s, o, NumeralText(n), 0);
    StrtodReads(n);
  }

  /** Only the first 63 characters of a number reach strtod. */
  lemma LongNumberRead(s: seq<byte>, o: nat, n: Numeral)
    requires Terminated(s) && LenientNumeral(n) && !IsShort(n) && At(s, o, NumeralText(n))
    ensures o < |s| && ReadsCut(s, ParseNumber(s, o), n, o)
  {
    hide Strtod, NumeralText, NumeralValue, Cut, At, IsNumberChar;
    var w := NumeralText(n);
    NumeralChars(n);
    AtHead(s, o, w);
    AtPrefix(s, o, w, |w|);
    RunIsCut(s, o, w, 0);
    CutRead(n);
    AtByte(s, o, w, CutLength(n));
    AtPrefix(s, o, w, MAX_NUMBER);
  }

  lemma {:induction false} RunIsCut(s: seq<byte>, o: nat, w: seq<byte>, i: nat)
    requires i <= MAX_NUMBER < |w| && At(s, o, w) && o + i < |s| && s[|s| - 1] == 0
    requires forall k :: 0 <= k < |w| ==> IsNumberChar(w[k])
    ensures RunLength(s, o, i) == MAX_NUMBER
    decreases MAX_NUMBER - i
  {
    if i < MAX_NUMBER {
      AtByte(s, o, w, i);
      AtByte(s, o, w, i + 1);
      RunIsCut(s, o, w, i + 1);
    }
  }

  lemma AtPrefix(s: seq<byte>, o: nat, w: seq<byte>, k: nat)
    requires At(s, o, w) && k <= |w|
    ensures o + k <= |s| && s[o..o + k] == w[..k]
  {
    assert s[o..o + |w|][..k] == s[o..o + k];
  }

  lemma {:induction false} ArrayRead(s: seq<byte>, o: nat, space: seq<byte>, es: seq<Element>, depth: nat)
    requires Terminated(s) && IsBlank(space) && ReadableElements(es) && depth <= NESTING_LIMIT
    requires At(s, o, Write(ArrayText(space, es))) && s[o] == LBRACKET
    ensures Reads(ParseArray(s, o, depth), Kept(Value(ArrayText(space, es))),
                  depth + 1 + HeightOfElements(es) <= NESTING_LIMIT && ShortElements(es),
                  o + |Write(ArrayText(space, es))|)
    decreases es, 1
  {
    hide At, SkipSpace, ParseItems, WriteElements, ReadableElements, HeightOfElements, Values, ShortElements;
    if depth < NESTING_LIMIT {
      if |es| == 0 {
        assert Values(es) == Some([]) && ShortElements(es) by { NoElements(es); }
        AtSplit(s, o, [LBRACKET], space + [RBRACKET]);
        AtSplit(s, o + 1, space, [RBRACKET]);
        AtHead(s, o + 1 + |space|, [RBRACKET]);
        SkipsWhite(s, o + 1, space);
        EmptyIsFlat();
      } else {
        AtSplit(s, o, [LBRACKET], WriteElements(es));
        ElementsBegin(s, o + 1, es);
        ElementsRead(s, o + 1, es, depth + 1);
      }
    }
  }

  lemma NoElements(es: seq<Element>)
    requires |es| == 0
    ensures Values(es) == Some([]) && ShortElements(es)
  {
  }

  lemma EmptyIsFlat()
    ensures HeightOfElements([]) == 0 && HeightOfFields([]) == 0
  {
  }

  lemma ElementsBegin(s: seq<byte>, o: nat, es: seq<Element>)
    requires |es| > 0 && ReadableElements(es) && At(s, o, WriteElements(es))
    ensures o < |s| && s[SkipSpace(s, o)] != RBRACKET
  {
    hide At, SkipSpace, Write, Begins, IsNumberChar;
    MoreEnds(es);
    ElementParts(s, o, es[0], MoreElements(es));
    BeginsNoEnd(es[0].value, s[o + |es[0].before|]);
  }

  lemma BeginsNoEnd(t: Text, b: byte)
    requires Begins(t, b)
    ensures b != RBRACKET
  {
  }

  /** What an array of one element denotes. */
  lemma OneElement(es: seq<Element>)
    requires |es| == 1
    ensures HeightOfElements(es) == Height(es[0].value) && (ShortElements(es) <==> ShortNumbers(es[0].value))
    ensures Values(es) == match Value(es[0].value) case None => None case Some(v) => Some([v])
  {
    assert es[1..] == [];
    match Value(es[0].value)
    case None =>
    case Some(v) => assert [v] + [] == [v];
  }

  lemma OneItem(v: Json)
    ensures TruncatedItems([v]) == [Truncated(v)]
  {
    assert [v][1..] == [];
  }

  lemma MoreItems(v: Json, rest: seq<Json>)
    ensures TruncatedItems([v] + rest) == [Truncated(v)] + TruncatedItems(rest)
  {
    assert ([v] + rest)[1..] == rest;
  }

  lemma MoreEnds(es: seq<Element>)
    requires |es| > 0
    ensures |MoreElements(es)| > 0 && IsEnd(MoreElements(es)[0])
  {
  }

  lemma {:induction false} ElementsRead(s: seq<byte>, o: nat, es: seq<Element>, depth: nat)
    requires Terminated(s) && |es| > 0 && ReadableElements(es) && depth <= NESTING_LIMIT && At(s, o, WriteElements(es))
    ensures o < |s|
    ensures Reads(ParseItems(s, o, depth), KeptItems(Values(es)),
                  depth + HeightOfElements(es) <= NESTING_LIMIT && ShortElements(es), o + |WriteElements(es)|)
    decreases es, 0
  {
    hide At, SkipSpace, ParseValue, ParseItems, Write, Value, Height, ShortNumbers, Truncated, TruncatedItems, IsLong,
         ReadableElement, IsNumberChar, WriteElement;
    var e, rest := es[0], MoreElements(es);
    var end := o + |e.before| + |Write(e.value)| + |e.after|;
    MoreEnds(es);
    ElementLength(e, rest);
    ElementRead(s, o, e, rest, depth);
    ItemsStep(s, o, SkipSpace(s, o), depth);
    if IsLong(e.value) {
      LongIsNotShort(e.value);
      StuckItems(s, o, SkipSpace(s, o), depth);
    } else if |es| > 1 {
      AtSplit(s, end, [COMMA], WriteElements(es[1..]));
      ElementsRead(s, end + 1, es[1..], depth);
      if Value(e.value).Some? && Values(es[1..]).Some? {
        MoreItems(Value(e.value).value, Values(es[1..]).value);
      }
    } else {
      OneElement(es);
      if Value(e.value).Some? {
        OneItem(Value(e.value).value);
      }
    }
  }

  lemma ElementLength(e: Element, rest: seq<byte>)
    ensures |WriteElement(e, rest)| == |e.before| + |Write(e.value)| + |e.after| + |rest|
  {
    hide Write;
  }

  /** One round of the loop of parse_array. */
  lemma ItemsStep(s: seq<byte>, o: nat, p: nat, depth: nat)
    requires Terminated(s) && o < |s| && SkipSpace(s, o) == p
    ensures var r := ParseValue(s, p, depth);
            && (r.Fail? ==> ParseItems(s, o, depth).Fail?)
            && (r.Ok? ==>
                  var next := SkipSpace(s, r.next);
                  && (s[next] == RBRACKET ==> ParseItems(s, o, depth) == Ok([r.value], next + 1))
                  && (s[next] == COMMA ==>
                        match ParseItems(s, next + 1, depth) {
                          case Fail(_) => ParseItems(s, o, depth).Fail?
                          case Ok(more, last) => ParseItems(s, o, depth) == Ok([r.value] + more, last)
                        }))
  {
    hide ParseValue, SkipSpace;
    var r := ParseValue(s, p, depth);
    if r.Ok? && s[SkipSpace(s, r.next)] == COMMA {
      CommaIsInside(s, SkipSpace(s, r.next));
    }
  }

  lemma CommaIsInside(s: seq<byte>, at: nat)
    requires Terminated(s) && at < |s| && s[at] == COMMA
    ensures at + 1 < |s|
  {
  }

  lemma ShortIsNotLong(t: Text)
    requires ShortNumbers(t)
    ensures !IsLong(t)
  {
  }

  lemma LongIsNotShort(t: Text)
    requires IsLong(t)
    ensures !ShortNumbers(t) && t.NumberText?
  {
  }

  /** In the middle of a number, parse_array finds neither a comma nor a bracket. */
  lemma StuckItems(s: seq<byte>, o: nat, p: nat, depth: nat)
    requires Terminated(s) && o < |s| && SkipSpace(s, o) == p
    requires var r := ParseValue(s, p, depth); r.Ok? && IsNumberChar(s[r.next])
    ensures ParseItems(s, o, depth).Fail?
  {
    hide ParseValue;
    var end := ParseValue(s, p, depth).next;
    SkipsTo(s, end, end);
  }

  lemma {:induction false} ObjectRead(s: seq<byte>, o: nat, space: seq<byte>, fs: seq<Field>, depth: nat)
    requires Terminated(s) && IsBlank(space) && ReadableFields(fs) && depth <= NESTING_LIMIT
    requires At(s, o, Write(ObjectText(space, fs))) && s[o] == LBRACE
    ensures Reads(ParseObject(s, o, depth), Kept(Value(ObjectText(space, fs))),
                  depth + 1 + HeightOfFields(fs) <= NESTING_LIMIT && ShortFields(fs),
                  o + |Write(ObjectText(space, fs))|)
    decreases fs, 1
  {
    hide At, SkipSpace, ParseMembers, WriteFields, ReadableFields, HeightOfFields, Members, ShortFields;
    if depth < NESTING_LIMIT {
      if |fs| == 0 {
        assert Members(fs) == Some([]) && ShortFields(fs) by { NoFields(fs); }
        AtSplit(s, o, [LBRACE], space + [RBRACE]);
        AtSplit(s, o + 1, space, [RBRACE]);
        AtHead(s, o + 1 + |space|, [RBRACE]);
        SkipsWhite(s, o + 1, space);
        EmptyIsFlat();
      } else {
        AtSplit(s, o, [LBRACE], WriteFields(fs));
        FieldsBegin(s, o + 1, fs);
        FieldsRead(s, o + 1, fs, depth + 1);
      }
    }
  }

  lemma NoFields(fs: seq<Field>)
    requires |fs| == 0
    ensures Members(fs) == Some([]) && ShortFields(fs)
  {
  }

  lemma FieldsBegin(s: seq<byte>, o: nat, fs: seq<Field>)
    requires |fs| > 0 && ReadableFields(fs) && At(s, o, WriteFields(fs))
    ensures o < |s| && s[SkipSpace(s, o)] != RBRACE
  {
    hide At, SkipSpace, WriteField;
    FieldParts(s, o, fs[0], MoreFields(fs));
  }

  ghost function ColonAt(o: nat, f: Field): nat {
    o + |f.before| + |Literal(f.name)| + |f.gap|
  }

  /** Where the parts of a field stand, up to its value. */
  lemma FieldParts(s: seq<byte>, o: nat, f: Field, rest: seq<byte>)
    requires IsBlank(f.before) && ValidPieces(f.name) && IsBlank(f.gap) && At(s, o, WriteField(f, rest))
    ensures var q, colon := o + |f.before|, ColonAt(o, f);
            && q < |s| && SkipSpace(s, o) == q && s[q] == QUOTE && At(s, q, Literal(f.name))
            && q + |Literal(f.name)| < |s| && SkipSpace(s, q + |Literal(f.name)|) == colon
            && colon < |s| && s[colon] == COLON && At(s, colon + 1, WriteElement(f.element, rest))
  {
    hide At, SkipSpace, WriteElement, LiteralText;
    var q, colon := o + |f.before|, ColonAt(o, f);
    var value := [COLON] + WriteElement(f.element, rest);
    AtSplit(s, o, f.before, Literal(f.name) + (f.gap + value));
    AtSplit(s, q, Literal(f.name), f.gap + value);
    AtSplit(s, q + |Literal(f.name)|, f.gap, value);
    AtSplit(s, colon, [COLON], WriteElement(f.element, rest));
    AtHead(s, q, Literal(f.name));
    AtHead(s, colon, [COLON]);
    SkipsWhite(s, o, f.before);
    SkipsWhite(s, q + |Literal(f.name)|, f.gap);
  }

  /** Where the field ends. */
  ghost function FieldEnd(o: nat, f: Field): nat {
    ColonAt(o, f) + 1 + |f.element.before| + |Write(f.element.value)| + |f.element.after|
  }

  /** The name and the colon of a field: parse_object arrives at the value, or fails at a lone surrogate. */
  lemma KeyRead(s: seq<byte>, o: nat, f: Field, rest: seq<byte>)
    requires Terminated(s) && IsBlank(f.before) && ValidPieces(f.name) && IsBlank(f.gap)
    requires At(s, o, WriteField(f, rest))
    ensures o < |s| && ColonAt(o, f) < |s| && s[ColonAt(o, f)] == COLON
    ensures At(s, ColonAt(o, f) + 1, WriteElement(f.element, rest))
    ensures var key := ParseString(s, SkipSpace(s, o));
            match Meaning(f.name) {
              case None => key.Fail?
              case Some(bytes) => key.Ok? && key.value == CStr(bytes) && SkipSpace(s, key.next) == ColonAt(o, f)
            }
  {
    hide At, SkipSpace, ParseString, Meaning, ValidPieces, WriteField, WriteElement, CStr;
    FieldParts(s, o, f, rest);
    LiteralParsed(s, o + |f.before|, f.name);
  }

  /** An element: parse_value stands behind its value, or in the middle of a number. */
  lemma {:induction false} ElementRead(s: seq<byte>, o: nat, e: Element, rest: seq<byte>, depth: nat)
    requires Terminated(s) && ReadableElement(e) && depth <= NESTING_LIMIT
    requires At(s, o, WriteElement(e, rest)) && |rest| > 0 && IsEnd(rest[0])
    ensures var end := o + |e.before| + |Write(e.value)| + |e.after|;
            && o < |s| && end < |s| && s[end] == rest[0] && At(s, end, rest)
            && var r := ParseValue(s, SkipSpace(s, o), depth);
               if IsLong(e.value) then r.Ok? && IsNumberChar(s[r.next]) && SkipSpace(s, r.next) == r.next
               else if Value(e.value).Some? && depth + Height(e.value) <= NESTING_LIMIT && ShortNumbers(e.value) then
                 r.Ok? && r.value == Truncated(Value(e.value).value) && SkipSpace(s, r.next) == end
               else r.Fail?
    decreases e, 3
  {
    hide At, SkipSpace, ParseValue, Write, Value, Height, Readable, Begins, ShortNumbers, Truncated, WriteElement,
         IsLong, IsNumberChar;
    var p := o + |e.before|;
    ElementParts(s, o, e, rest);
    TextRead(s, p, e.value, depth);
    if IsLong(e.value) {
      LongIsNotShort(e.value);
      StuckThere(s, ParseValue(s, p, depth).next);
    }
  }

  lemma {:induction false} FieldRead(s: seq<byte>, o: nat, f: Field, rest: seq<byte>, depth: nat)
    requires Terminated(s) && IsBlank(f.before) && ValidPieces(f.name) && IsBlank(f.gap) && ReadableElement(f.element)
    requires depth <= NESTING_LIMIT && At(s, o, WriteField(f, rest)) && |rest| > 0 && IsEnd(rest[0])
    ensures o < |s| && FieldEnd(o, f) < |s| && s[FieldEnd(o, f)] == rest[0] && At(s, FieldEnd(o, f), rest)
    ensures var r := ParseMember(s, o, depth);
            if IsLong(f.element.value) then r.Fail? || IsNumberChar(s[r.next])
            else Reads(r, KeptMember(MemberOf(f)),
                       depth + Height(f.element.value) <= NESTING_LIMIT && ShortNumbers(f.element.value),
                       FieldEnd(o, f))
    decreases f, 4
  {
    hide At, SkipSpace, ParseValue, ParseString, ParseMember, Write, Value, Height, Meaning, ValidPieces, WriteField,
         WriteElement, ShortNumbers, Truncated, IsLong, CStr, IsNumberChar, IsBlank, ReadableElement, ColonAt;
    KeyRead(s, o, f, rest);
    ElementRead(s, ColonAt(o, f) + 1, f.element, rest, depth);
    MemberStep(s, o, depth);
  }

  lemma StuckThere(s: seq<byte>, next: nat)
    requires next < |s| && IsNumberChar(s[next])
    ensures SkipSpace(s, next) == next
  {
    SkipsTo(s, next, next);
  }

  /** What parse_object does for one name and value. */
  lemma MemberStep(s: seq<byte>, o: nat, depth: nat)
    requires Terminated(s) && o < |s|
    ensures var key, r := ParseString(s, SkipSpace(s, o)), ParseMember(s, o, depth);
            && (key.Fail? ==> r.Fail?)
            && (key.Ok? && s[SkipSpace(s, key.next)] == COLON ==>
                  var colon := SkipSpace(s, key.next);
                  && colon + 1 < |s|
                  && match ParseValue(s, SkipSpace(s, colon + 1), depth) {
                       case Fail(_) => r.Fail?
                       case Ok(value, last) => r == Ok(Member(key.value, value), SkipSpace(s, last))
                     })
  {
    hide ParseValue, ParseString;
  }

  /** One round of the loop of parse_object. */
  lemma MembersStep(s: seq<byte>, o: nat, depth: nat)
    requires Terminated(s) && o < |s|
    ensures var r := ParseMember(s, o, depth);
            && (r.Fail? ==> ParseMembers(s, o, depth).Fail?)
            && (r.Ok? && s[r.next] == RBRACE ==> ParseMembers(s, o, depth) == Ok([r.value], r.next + 1))
            && (r.Ok? && s[r.next] == COMMA ==>
                  && r.next + 1 < |s|
                  && match ParseMembers(s, r.next + 1, depth) {
                       case Fail(_) => ParseMembers(s, o, depth).Fail?
                       case Ok(more, last) => ParseMembers(s, o, depth) == Ok([r.value] + more, last)
                     })
            && (r.Ok? && s[r.next] != RBRACE && s[r.next] != COMMA ==> ParseMembers(s, o, depth).Fail?)
  {
    hide ParseMember;
    var r := ParseMember(s, o, depth);
    if r.Ok? && s[r.next] == COMMA {
      CommaIsInside(s, r.next);
    }
  }

  lemma {:induction false} FieldsRead(s: seq<byte>, o: nat, fs: seq<Field>, depth: nat)
    requires Terminated(s) && |fs| > 0 && ReadableFields(fs) && depth <= NESTING_LIMIT && At(s, o, WriteFields(fs))
    ensures o < |s|
    ensures Reads(ParseMembers(s, o, depth), KeptMembers(Members(fs)),
                  depth + HeightOfFields(fs) <= NESTING_LIMIT && ShortFields(fs), o + |WriteFields(fs)|)
    decreases fs, 0
  {
    hide At, SkipSpace, ParseMember, ParseMembers, Write, MemberOf, Height, Readable, Literal, ShortNumbers,
         TruncatedMembers, TruncatedMember, IsLong;
    var f, rest := fs[0], MoreFields(fs);
    FieldRead(s, o, f, rest, depth);
    MembersStep(s, o, depth);
    var end := FieldEnd(o, f);
    if IsLong(f.element.value) {
      LongIsNotShort(f.element.value);
      var r := ParseMember(s, o, depth);
      if r.Ok? {
        NumberIsNoMark(s[r.next]);
      }
    } else if |fs| > 1 {
      AtSplit(s, end, [COMMA], WriteFields(fs[1..]));
      FieldsRead(s, end + 1, fs[1..], depth);
      if MemberOf(f).Some? && Members(fs[1..]).Some? {
        MoreMembers(MemberOf(f).value, Members(fs[1..]).value);
      }
    } else {
      OneField(fs);
      if MemberOf(f).Some? {
        OneMember(MemberOf(f).value);
      }
    }
  }

  lemma NumberIsNoMark(b: byte)
    requires IsNumberChar(b)
    ensures b != COMMA && b != RBRACE && b != RBRACKET && b > 32
  {
  }

  lemma OneField(fs: seq<Field>)
    requires |fs| == 1
    ensures HeightOfFields(fs) == Height(fs[0].element.value)
    ensures ShortFields(fs) <==> ShortNumbers(fs[0].element.value)
    ensures Members(fs) == match MemberOf(fs[0]) case None => None case Some(m) => Some([m])
  {
    assert fs[1..] == [];
    match MemberOf(fs[0])
    case None =>
    case Some(m) => assert [m] + [] == [m];
  }

  lemma OneMember(m: Member)
    ensures TruncatedMembers([m]) == [TruncatedMember(m)]
  {
    assert [m][1..] == [];
  }

  lemma MoreMembers(m: Member, rest: seq<Member>)
    ensures TruncatedMembers([m] + rest) == [TruncatedMember(m)] + TruncatedMembers(rest)
  {
    assert ([m] + rest)[1..] == rest;
  }

  // ---------- whole texts ----------

  /** A JSON text: a byte order mark or none, and a value with white space around it. */
  datatype Document = Document(bom: bool, element: Element)

  ghost function DocumentText(d: Document): seq<byte> {
    (if d.bom then BOM else []) + WriteElement(d.element, [])
  }

  /** Where the parts of a document stand in the C string that is parsed. */
  lemma DocumentParts(d: Document)
    requires ReadableElement(d.element)
    ensures var s: seq<byte> := DocumentText(d) + [0];
            var o := if d.bom then 3 else 0;
            var e := d.element;
            var p := o + |e.before|;
            && At(s, o, e.before) && At(s, p, Write(e.value)) && At(s, p + |Write(e.value)|, e.after + [0])
            && p + |Write(e.value)| + |e.after| + 1 == |s|
  {
    hide Write, At;
    var s: seq<byte> := DocumentText(d) + [0];
    var bom: seq<byte> := if d.bom then BOM else [];
    var e := d.element;
    assert s == bom + (e.before + (Write(e.value) + (e.after + [0])));
    WholeAt(s);
    AtSplit(s, 0, bom, e.before + (Write(e.value) + (e.after + [0])));
    AtSplit(s, |bom|, e.before, Write(e.value) + (e.after + [0]));
    AtSplit(s, |bom| + |e.before|, Write(e.value), e.after + [0]);
  }

  /** The byte order mark is skipped, and nothing that looks like one is. */
  lemma BomSkipped(d: Document)
    requires ReadableElement(d.element)
    ensures SkipBom(DocumentText(d) + [0]) == if d.bom then 3 else 0
  {
    hide At;
    var s: seq<byte> := DocumentText(d) + [0];
    var e := d.element;
    DocumentParts(d);
    TextBegins(e.value);
    if d.bom {
      assert s[0..3] == BOM;
    } else {
      AtHead(s, |e.before|, Write(e.value));
      if |e.before| > 0 {
        AtHead(s, 0, e.before);
      }
      assert s[0] != 0xEF;
      assert |s| > 4 ==> s[0..3][0] == s[0];
    }
  }

  /** Nothing but white space in front of the NUL. */
  lemma {:induction false} SkipsToNul(s: seq<byte>, o: nat)
    requires o < |s| && forall k :: o <= k < |s| ==> s[k] <= 32
    ensures ScanSpace(s, o) == |s| && SkipSpace(s, o) == |s| - 1
    decreases |s| - o
  {
    if o + 1 < |s| {
      SkipsToNul(s, o + 1);
    }
  }

  lemma EndSkipped(s: seq<byte>, end: nat, after: seq<byte>)
    requires IsBlank(after) && At(s, end, after + [0]) && end + |after| + 1 == |s|
    ensures Terminated(s) && !IsNumberChar(s[end]) && SkipSpace(s, end) == |s| - 1
  {
    forall k | end <= k < |s|
      ensures s[k] <= 32
    {
      AtByte(s, end, after + [0], k - end);
    }
    SkipsToNul(s, end);
    AtByte(s, end, after + [0], |after|);
  }

  /** The document denotes a value, is not nested too deeply and has no number that is too long. */
  ghost predicate Acceptable(d: Document) {
    var t := d.element.value;
    Value(t).Some? && Height(t) <= NESTING_LIMIT && ShortNumbers(t)
  }

  /**
   * cJSON_ParseWithOpts on every text of RFC 8259, with or without a byte order mark, and also with control bytes
   * for white space and in strings, and with numbers as strtod knows them. It succeeds if and only if
   * no surrogate stands alone in a string, the nesting is within the limit and every number has at most 63
   * characters; then it yields the value the text denotes, with strings cut at their first NUL, and ends behind the
   * value, or at the NUL if that is asked for. Only if nothing is asked and the whole text is one number that is
   * too long does it succeed too, with the number that is left of it.
   */
  lemma DocumentParsed(d: Document, requireTerminated: bool)
    requires ReadableElement(d.element)
    ensures Readable(d.element.value) && |DocumentText(d)| >= |d.element.after|
    ensures var text, t := DocumentText(d), d.element.value;
            var r := ParseText(text, requireTerminated);
            if IsLong(t) && !requireTerminated then
              r == Ok(Number(NumeralValue(Cut(t.numeral))),
                      |text| - |d.element.after| - |Write(t)| + CutLength(t.numeral))
            else if Acceptable(d) then
              r == Ok(Truncated(Value(t).value), if requireTerminated then |text| else |text| - |d.element.after|)
            else r.Fail?
  {
    hide At, SkipSpace, ParseValue, ParseText, Write, Value, Height, Readable, SkipBom, DocumentText, Truncated,
         ShortNumbers, IsLong, Cut, NumeralValue, IsNumberChar, Begins;
    var s: seq<byte> := DocumentText(d) + [0];
    var e := d.element;
    var o := if d.bom then 3 else 0;
    var p := o + |e.before|;
    DocumentParts(d);
    BomSkipped(d);
    EndSkipped(s, p + |Write(e.value)|, e.after);
    TextBegins(e.value);
    AtHead(s, p, Write(e.value));
    BeginsVisibly(e.value, s[p]);
    SkipsWhite(s, o, e.before);
    TextRead(s, p, e.value, 0);
    ParseSteps(DocumentText(d), requireTerminated);
    if IsLong(e.value) {
      LongIsNotShort(e.value);
      StuckThere(s, ParseValue(s, p, 0).next);
      NumberGoesOn(s[ParseValue(s, p, 0).next]);
    }
  }

  lemma NumberGoesOn(b: byte)
    requires IsNumberChar(b)
    ensures b != 0
  {
  }

  /** What cJSON_ParseWithOpts does around the value. */
  lemma ParseSteps(text: seq<byte>, requireTerminated: bool)
    ensures var s: seq<byte> := text + [0];
            var r, whole := ParseValue(s, SkipSpace(s, SkipBom(s)), 0), ParseText(text, requireTerminated);
            && (r.Fail? ==> whole.Fail?)
            && (r.Ok? && !requireTerminated ==> whole == Ok(r.value, r.next))
            && (r.Ok? && requireTerminated ==>
                  var end := SkipSpace(s, r.next);
                  if s[end] == 0 then whole == Ok(r.value, end) else whole.Fail?)
  {
    hide ParseValue, SkipSpace, SkipBom;
  }
}
