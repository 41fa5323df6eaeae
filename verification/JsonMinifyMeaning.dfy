/** Which JSON texts keep their meaning when they are minified. */
module JsonMinifyMeaning {
  import opened Bytes
  import opened JsonTree
  import opened JsonRender
  import opened JsonString
  import opened JsonNumber
  import opened JsonGrammar
  import opened JsonText
  import opened JsonMinify

  ghost function Spaces(w: seq<byte>): seq<Lexeme> {
    if |w| == 0 then [] else [Space(w[0])] + Spaces(w[1..])
  }

  ghost function Marks(w: seq<byte>): seq<Lexeme> {
    if |w| == 0 then [] else [Mark(w[0])] + Marks(w[1..])
  }

  /** The lexemes of a JSON text. */
  ghost function Lexemes(t: Text): seq<Lexeme> {
    match t
    case NullText => Marks(TEXT_NULL)
    case FalseText => Marks(TEXT_FALSE)
    case TrueText => Marks(TEXT_TRUE)
    case NumberText(n) => Marks(NumeralText(n))
    case StringText(ps) => [Literal(ps)]
    case ArrayText(space, es) =>
      [Mark(LBRACKET)] + (if |es| == 0 then Spaces(space) + [Mark(RBRACKET)] else ElementsLexemes(es))
    case ObjectText(space, fs) =>
      [Mark(LBRACE)] + (if |fs| == 0 then Spaces(space) + [Mark(RBRACE)] else FieldsLexemes(fs))
  }

  ghost function ElementLexemes(e: Element, rest: seq<Lexeme>): seq<Lexeme> {
    Spaces(e.before) + (Lexemes(e.value) + (Spaces(e.after) + rest))
  }

  ghost function ElementsLexemes(es: seq<Element>): seq<Lexeme>
    requires |es| > 0
  {
    ElementLexemes(es[0], MoreElementsLexemes(es))
  }

  ghost function MoreElementsLexemes(es: seq<Element>): seq<Lexeme>
    requires |es| > 0
    decreases es, 0
  {
    if |es| == 1 then [Mark(RBRACKET)] else [Mark(COMMA)] + ElementsLexemes(es[1..])
  }

  ghost function FieldLexemes(f: Field, rest: seq<Lexeme>): seq<Lexeme> {
    Spaces(f.before) + ([Literal(f.name)] + (Spaces(f.gap) + ([Mark(COLON)] + ElementLexemes(f.element, rest))))
  }

  ghost function FieldsLexemes(fs: seq<Field>): seq<Lexeme>
    requires |fs| > 0
  {
    FieldLexemes(fs[0], MoreFieldsLexemes(fs))
  }

  ghost function MoreFieldsLexemes(fs: seq<Field>): seq<Lexeme>
    requires |fs| > 0
    decreases fs, 0
  {
    if |fs| == 1 then [Mark(RBRACE)] else [Mark(COMMA)] + FieldsLexemes(fs[1..])
  }

  /** The text without white space outside its strings. */
  ghost function Strip(t: Text): Text {
    match t
    case ArrayText(_, es) => ArrayText([], StripElements(es))
    case ObjectText(_, fs) => ObjectText([], StripFields(fs))
    case _ => t
  }

  ghost function StripElement(e: Element): Element {
    Element([], Strip(e.value), [])
  }

  ghost function StripElements(es: seq<Element>): (r: seq<Element>)
    ensures |r| == |es|
  {
    if |es| == 0 then [] else [StripElement(es[0])] + StripElements(es[1..])
  }

  ghost function StripField(f: Field): Field {
    Field([], f.name, [], StripElement(f.element))
  }

  ghost function StripFields(fs: seq<Field>): (r: seq<Field>)
    ensures |r| == |fs|
  {
    if |fs| == 0 then []
    else [StripField(fs[0])] + StripFields(fs[1..])
  }

  /** No name and no string is written with an escaped backslash at its end. */
  ghost predicate Straight(t: Text) {
    match t
    case StringText(ps) => !EndsInBackslash(ps)
    case ArrayText(_, es) => StraightElements(es)
    case ObjectText(_, fs) => StraightFields(fs)
    case _ => true
  }

  ghost predicate StraightElements(es: seq<Element>) {
    |es| > 0 ==> Straight(es[0].value) && StraightElements(es[1..])
  }

  ghost predicate StraightFields(fs: seq<Field>) {
    |fs| > 0 ==> !EndsInBackslash(fs[0].name) && Straight(fs[0].element.value) && StraightFields(fs[1..])
  }

  // ---------- lexemes of concatenations ----------

  /** xs are lexemes of `text`, and of `stripped` without white space. */
  ghost predicate LexesTo(xs: seq<Lexeme>, text: seq<byte>, stripped: seq<byte>) {
    ValidLexemes(xs) && TextOf(xs) == text && TextOf(Tokens(xs)) == stripped
  }

  lemma LexesConcat(u: seq<Lexeme>, a: seq<byte>, x: seq<byte>, v: seq<Lexeme>, b: seq<byte>, y: seq<byte>)
    requires LexesTo(u, a, x) && LexesTo(v, b, y)
    ensures LexesTo(u + v, a + b, x + y)
  {
    hide TextOf, Tokens;
    TextOfConcat(u, v);
    TokensConcat(u, v);
    TextOfConcat(Tokens(u), Tokens(v));
  }

  lemma {:induction false} SpacesLex(w: seq<byte>)
    requires IsWhite(w)
    ensures LexesTo(Spaces(w), w, [])
  {
    if |w| > 0 {
      SpacesLex(w[1..]);
      assert [w[0]] + w[1..] == w;
    }
  }

  lemma {:induction false} MarksLex(w: seq<byte>)
    requires forall i :: 0 <= i < |w| ==> ValidLexeme(Mark(w[i]))
    ensures LexesTo(Marks(w), w, w)
  {
    if |w| > 0 {
      MarksLex(w[1..]);
      assert [w[0]] + w[1..] == w;
    }
  }

  lemma MarkLexes(c: byte)
    requires ValidLexeme(Mark(c))
    ensures LexesTo([Mark(c)], [c], [c])
  {
    MarksLex([c]);
    assert Marks([c]) == [Mark(c)] + Marks([]);
  }

  lemma LiteralLexes(ps: seq<Piece>)
    requires ValidPieces(ps)
    ensures LexesTo([Literal(ps)], JsonText.Literal(ps), JsonText.Literal(ps))
  {
    var x := Literal(ps);
    assert [x][1..] == [];
    assert LexemeText(x) + [] == LexemeText(x);
    assert Tokens([x]) == [x] + [];
  }

  /** The lexemes of a text are what it is written with, and without the white space they write its stripped form. */
  lemma {:induction false} TextLexes(t: Text)
    requires Valid(t)
    ensures LexesTo(Lexemes(t), Write(t), Write(Strip(t)))
    decreases t, 2
  {
    hide LexesTo, Marks, Spaces, ElementsLexemes, FieldsLexemes, WriteElements, WriteFields, StripElements, StripFields,
         NumeralText, JsonText.Literal;
    match t
    case NullText => MarksLex(TEXT_NULL);
    case FalseText => MarksLex(TEXT_FALSE);
    case TrueText => MarksLex(TEXT_TRUE);
    case NumberText(n) =>
      NumeralChars(n);
      MarksLex(NumeralText(n));
    case StringText(ps) => LiteralLexes(ps);
    case ArrayText(space, es) =>
      MarkLexes(LBRACKET);
      if |es| == 0 {
        EmptyLexes(space, RBRACKET);
        LexesConcat([Mark(LBRACKET)], [LBRACKET], [LBRACKET], Spaces(space) + [Mark(RBRACKET)], space + [RBRACKET],
                    [] + [RBRACKET]);
      } else {
        ElementsLex(es);
        LexesConcat([Mark(LBRACKET)], [LBRACKET], [LBRACKET], ElementsLexemes(es), WriteElements(es),
                    WriteElements(StripElements(es)));
      }
    case ObjectText(space, fs) =>
      MarkLexes(LBRACE);
      if |fs| == 0 {
        EmptyLexes(space, RBRACE);
        LexesConcat([Mark(LBRACE)], [LBRACE], [LBRACE], Spaces(space) + [Mark(RBRACE)], space + [RBRACE],
                    [] + [RBRACE]);
      } else {
        FieldsLex(fs);
        LexesConcat([Mark(LBRACE)], [LBRACE], [LBRACE], FieldsLexemes(fs), WriteFields(fs),
                    WriteFields(StripFields(fs)));
      }
  }

  lemma EmptyLexes(space: seq<byte>, c: byte)
    requires IsWhite(space) && ValidLexeme(Mark(c))
    ensures LexesTo(Spaces(space) + [Mark(c)], space + [c], [] + [c])
  {
    SpacesLex(space);
    MarkLexes(c);
    LexesConcat(Spaces(space), space, [], [Mark(c)], [c], [c]);
  }

  lemma {:induction false} ElementLexes(e: Element, xs: seq<Lexeme>, a: seq<byte>, x: seq<byte>)
    requires ValidElement(e) && LexesTo(xs, a, x)
    ensures LexesTo(ElementLexemes(e, xs), WriteElement(e, a), WriteElement(StripElement(e), x))
    decreases e, 3
  {
    hide LexesTo, Lexemes, Write, Spaces, Strip;
    SpacesLex(e.before);
    SpacesLex(e.after);
    TextLexes(e.value);
    LexesConcat(Spaces(e.after), e.after, [], xs, a, x);
    LexesConcat(Lexemes(e.value), Write(e.value), Write(Strip(e.value)), Spaces(e.after) + xs, e.after + a, [] + x);
    LexesConcat(Spaces(e.before), e.before, [], Lexemes(e.value) + (Spaces(e.after) + xs),
                Write(e.value) + (e.after + a), Write(Strip(e.value)) + ([] + x));
  }

  lemma {:induction false} ElementsLex(es: seq<Element>)
    requires |es| > 0 && ValidElements(es)
    ensures LexesTo(ElementsLexemes(es), WriteElements(es), WriteElements(StripElements(es)))
    decreases es, 1
  {
    hide LexesTo, ElementLexemes, WriteElement, StripElement;
    assert StripElements(es)[1..] == StripElements(es[1..]);
    if |es| == 1 {
      MarkLexes(RBRACKET);
    } else {
      MarkLexes(COMMA);
      ElementsLex(es[1..]);
      LexesConcat([Mark(COMMA)], [COMMA], [COMMA], ElementsLexemes(es[1..]), WriteElements(es[1..]),
                  WriteElements(StripElements(es[1..])));
    }
    ElementLexes(es[0], MoreElementsLexemes(es), MoreElements(es), MoreElements(StripElements(es)));
  }

  lemma {:induction false} FieldLexes(f: Field, xs: seq<Lexeme>, a: seq<byte>, x: seq<byte>)
    requires IsWhite(f.before) && ValidPieces(f.name) && IsWhite(f.gap) && ValidElement(f.element)
    requires LexesTo(xs, a, x)
    ensures LexesTo(FieldLexemes(f, xs), WriteField(f, a), WriteField(StripField(f), x))
    decreases f, 4
  {
    hide LexesTo, ElementLexemes, WriteElement, StripElement, Spaces, JsonText.Literal;
    var e := f.element;
    SpacesLex(f.before);
    LiteralLexes(f.name);
    SpacesLex(f.gap);
    MarkLexes(COLON);
    ElementLexes(e, xs, a, x);
    var value, text, stripped := ElementLexemes(e, xs), WriteElement(e, a), WriteElement(StripElement(e), x);
    LexesConcat([Mark(COLON)], [COLON], [COLON], value, text, stripped);
    LexesConcat(Spaces(f.gap), f.gap, [], [Mark(COLON)] + value, [COLON] + text, [COLON] + stripped);
    LexesConcat([Literal(f.name)], JsonText.Literal(f.name), JsonText.Literal(f.name),
                Spaces(f.gap) + ([Mark(COLON)] + value), f.gap + ([COLON] + text), [] + ([COLON] + stripped));
    LexesConcat(Spaces(f.before), f.before, [], [Literal(f.name)] + (Spaces(f.gap) + ([Mark(COLON)] + value)),
                JsonText.Literal(f.name) + (f.gap + ([COLON] + text)),
                JsonText.Literal(f.name) + ([] + ([COLON] + stripped)));
  }

  lemma {:induction false} FieldsLex(fs: seq<Field>)
    requires |fs| > 0 && ValidFields(fs)
    ensures LexesTo(FieldsLexemes(fs), WriteFields(fs), WriteFields(StripFields(fs)))
    decreases fs, 1
  {
    hide LexesTo, FieldLexemes, WriteField, StripField;
    assert StripFields(fs)[1..] == StripFields(fs[1..]);
    if |fs| == 1 {
      MarkLexes(RBRACE);
    } else {
      MarkLexes(COMMA);
      FieldsLex(fs[1..]);
      LexesConcat([Mark(COMMA)], [COMMA], [COMMA], FieldsLexemes(fs[1..]), WriteFields(fs[1..]),
                  WriteFields(StripFields(fs[1..])));
    }
    FieldLexes(fs[0], MoreFieldsLexemes(fs), MoreFields(fs), MoreFields(StripFields(fs)));
  }

  // ---------- the stripped text means the same ----------

  lemma {:induction false} StripKeeps(t: Text)
    requires Valid(t)
    ensures Valid(Strip(t)) && Value(Strip(t)) == Value(t) && Height(Strip(t)) == Height(t)
    ensures ShortNumbers(Strip(t)) <==> ShortNumbers(t)
    decreases t, 1
  {
    match t
    case ArrayText(_, es) => StripKeepsElements(es);
    case ObjectText(_, fs) => StripKeepsFields(fs);
    case _ =>
  }

  lemma {:induction false} StripKeepsElements(es: seq<Element>)
    requires ValidElements(es)
    ensures var r := StripElements(es);
            && ValidElements(r) && Values(r) == Values(es) && HeightOfElements(r) == HeightOfElements(es)
            && (ShortElements(r) <==> ShortElements(es))
    decreases es, 0
  {
    hide Valid, Value, Height, Strip, ShortNumbers;
    if |es| > 0 {
      StripKeeps(es[0].value);
      StripKeepsElements(es[1..]);
      assert StripElements(es)[1..] == StripElements(es[1..]);
    }
  }

  lemma {:induction false} StripKeepsFields(fs: seq<Field>)
    requires ValidFields(fs)
    ensures var r := StripFields(fs);
            && ValidFields(r) && Members(r) == Members(fs) && HeightOfFields(r) == HeightOfFields(fs)
            && (ShortFields(r) <==> ShortFields(fs))
    decreases fs, 0
  {
    hide Valid, Value, Height, Strip, ShortNumbers, Meaning;
    if |fs| > 0 {
      StripKeeps(fs[0].element.value);
      StripKeepsFields(fs[1..]);
      assert StripFields(fs)[0] == StripField(fs[0]);
      assert StripFields(fs)[1..] == StripFields(fs[1..]);
    }
  }

  ghost function StripDocument(d: Document): Document {
    Document(d.bom, StripElement(d.element))
  }

  /** The lexemes of a whole text; the bytes of a byte order mark are copied like any token. */
  ghost function DocumentLexemes(d: Document): seq<Lexeme> {
    Marks(if d.bom then BOM else []) + ElementLexemes(d.element, [])
  }

  /**
   * When minifying a JSON text takes away its white space and nothing else: if and only if the code is outside of a
   * string at all white space between tokens, and copies all literals whole.
   */
  lemma MinifyStrips(d: Document)
    requires ValidElement(d.element)
    ensures Minified(DocumentText(d)) == DocumentText(StripDocument(d)) <==> Clean(DocumentLexemes(d), false)
  {
    hide DocumentText, StripDocument, DocumentLexemes, TextOf, Tokens, Minified, Clean;
    DocumentLexes(d);
    ValidIsLexed(DocumentLexemes(d));
    RemovesSpaceExactly(DocumentLexemes(d));
  }

  lemma DocumentLexes(d: Document)
    requires ValidElement(d.element)
    ensures LexesTo(DocumentLexemes(d), DocumentText(d), DocumentText(StripDocument(d)))
  {
    hide LexesTo, ElementLexemes, WriteElement, StripElement;
    var bom: seq<byte> := if d.bom then BOM else [];
    var e := d.element;
    BomLexes(bom);
    NothingLexes();
    ElementLexes(e, [], [], []);
    LexesConcat(Marks(bom), bom, bom, ElementLexemes(e, []), WriteElement(e, []), WriteElement(StripElement(e), []));
  }

  lemma BomLexes(bom: seq<byte>)
    requires bom == BOM || bom == []
    ensures LexesTo(Marks(bom), bom, bom)
  {
    MarksLex(bom);
  }

  lemma NothingLexes()
    ensures LexesTo([], [], [])
  {
  }

  lemma NumbersAreKept(t: Text)
    ensures IsLong(Strip(t)) <==> IsLong(t)
    ensures IsLong(t) ==> Strip(t) == t
  {
  }

  /** Parsing accepts the text after minifying exactly if it does before, with the same tree. */
  ghost predicate KeepsMeaning(text: seq<byte>, requireTerminated: bool) {
    var before, after := ParseText(text, requireTerminated), ParseText(Minified(text), requireTerminated);
    (before.Ok? <==> after.Ok?) && (before.Ok? ==> after.value == before.value)
  }

  /** Minifying keeps the meaning of every JSON text that it does no more to than take the white space away. */
  lemma MinifyKeepsMeaning(d: Document, requireTerminated: bool)
    requires ValidElement(d.element) && Clean(DocumentLexemes(d), false)
    ensures KeepsMeaning(DocumentText(d), requireTerminated)
  {
    hide ParseText, DocumentText, Value, Valid, Height, Minified, ShortNumbers, Truncated, IsLong, Clean;
    MinifyStrips(d);
    StripKeeps(d.element.value);
    NumbersAreKept(d.element.value);
    ElementIsReadable(d.element);
    ElementIsReadable(StripDocument(d).element);
    DocumentParsed(d, requireTerminated);
    DocumentParsed(StripDocument(d), requireTerminated);
  }

  // ---------- texts without a misread literal ----------

  lemma NoneMisreadConcat(xs: seq<Lexeme>, ys: seq<Lexeme>)
    ensures NoneMisread(xs + ys) <==> NoneMisread(xs) && NoneMisread(ys)
  {
    if NoneMisread(xs + ys) {
      assert forall i :: 0 <= i < |xs| ==> xs[i] == (xs + ys)[i];
      assert forall i :: 0 <= i < |ys| ==> ys[i] == (xs + ys)[|xs| + i];
    }
  }

  lemma {:induction false} SpacesAndMarks(w: seq<byte>)
    ensures NoneMisread(Spaces(w)) && NoneMisread(Marks(w))
  {
    if |w| > 0 {
      SpacesAndMarks(w[1..]);
    }
  }

  lemma {:induction false} StraightText(t: Text)
    requires Straight(t)
    ensures NoneMisread(Lexemes(t))
    decreases t, 2
  {
    hide NoneMisread, ElementsLexemes, FieldsLexemes;
    match t
    case NullText => SpacesAndMarks(TEXT_NULL);
    case FalseText => SpacesAndMarks(TEXT_FALSE);
    case TrueText => SpacesAndMarks(TEXT_TRUE);
    case NumberText(n) => SpacesAndMarks(NumeralText(n));
    case StringText(ps) => StraightLiteral(ps);
    case ArrayText(space, es) =>
      if |es| > 0 {
        StraightElementsText(es);
      } else {
        SpacesThenMark(space, RBRACKET);
      }
      MarkThen(LBRACKET, if |es| == 0 then Spaces(space) + [Mark(RBRACKET)] else ElementsLexemes(es));
    case ObjectText(space, fs) =>
      if |fs| > 0 {
        StraightFieldsText(fs);
      } else {
        SpacesThenMark(space, RBRACE);
      }
      MarkThen(LBRACE, if |fs| == 0 then Spaces(space) + [Mark(RBRACE)] else FieldsLexemes(fs));
  }

  lemma StraightLiteral(ps: seq<Piece>)
    requires !EndsInBackslash(ps)
    ensures NoneMisread([Literal(ps)])
  {
  }

  lemma MarkThen(c: byte, xs: seq<Lexeme>)
    requires NoneMisread(xs)
    ensures NoneMisread([Mark(c)] + xs)
  {
  }

  lemma SpacesThenMark(space: seq<byte>, c: byte)
    ensures NoneMisread(Spaces(space) + [Mark(c)])
  {
    SpacesAndMarks(space);
    NoneMisreadConcat(Spaces(space), [Mark(c)]);
  }

  lemma {:induction false} StraightElementText(e: Element, xs: seq<Lexeme>)
    requires Straight(e.value) && NoneMisread(xs)
    ensures NoneMisread(ElementLexemes(e, xs))
    decreases e, 3
  {
    hide NoneMisread, Straight, Lexemes;
    StraightText(e.value);
    SpacesAndMarks(e.before);
    SpacesAndMarks(e.after);
    NoneMisreadConcat(Spaces(e.after), xs);
    NoneMisreadConcat(Lexemes(e.value), Spaces(e.after) + xs);
    NoneMisreadConcat(Spaces(e.before), Lexemes(e.value) + (Spaces(e.after) + xs));
  }

  lemma {:induction false} StraightElementsText(es: seq<Element>)
    requires |es| > 0 && StraightElements(es)
    ensures NoneMisread(ElementsLexemes(es))
    decreases es, 1
  {
    if |es| > 1 {
      StraightElementsText(es[1..]);
      MarkThen(COMMA, ElementsLexemes(es[1..]));
    }
    hide Straight, ElementLexemes;
    StraightElementText(es[0], MoreElementsLexemes(es));
  }

  lemma {:induction false} StraightFieldsText(fs: seq<Field>)
    requires |fs| > 0 && StraightFields(fs)
    ensures NoneMisread(FieldsLexemes(fs))
    decreases fs, 1
  {
    if |fs| > 1 {
      StraightFieldsText(fs[1..]);
      MarkThen(COMMA, FieldsLexemes(fs[1..]));
    }
    var f, rest := fs[0], MoreFieldsLexemes(fs);
    assert NoneMisread(rest);
    hide NoneMisread, Straight, ElementLexemes, EndsInBackslash;
    StraightElementText(f.element, rest);
    StraightLiteral(f.name);
    SpacesAndMarks(f.before);
    SpacesAndMarks(f.gap);
    var value := ElementLexemes(f.element, rest);
    MarkThen(COLON, value);
    NoneMisreadConcat(Spaces(f.gap), [Mark(COLON)] + value);
    NoneMisreadConcat([Literal(f.name)], Spaces(f.gap) + ([Mark(COLON)] + value));
    NoneMisreadConcat(Spaces(f.before), [Literal(f.name)] + (Spaces(f.gap) + ([Mark(COLON)] + value)));
  }

  /** No string and no name ends in an escaped backslash: then the code is always in step with the text. */
  lemma StraightIsClean(d: Document)
    requires ValidElement(d.element) && Straight(d.element.value)
    ensures Clean(DocumentLexemes(d), false)
  {
    hide Straight, Clean, ElementLexemes, NoneMisread, Marks, DocumentText, StripDocument, TextOf, Tokens;
    var bom: seq<byte> := if d.bom then BOM else [];
    var xs := DocumentLexemes(d);
    DocumentLexes(d);
    NothingMisread();
    StraightElementText(d.element, []);
    SpacesAndMarks(bom);
    NoneMisreadConcat(Marks(bom), ElementLexemes(d.element, []));
    CleanUpTo(xs, []);
    assert xs + [] == xs;
  }

  lemma NothingMisread()
    ensures NoneMisread([]) && Clean([], false)
  {
  }

  // ---------- literals that end in an escaped backslash ----------

  /** An array of two strings, without white space between them. */
  ghost function Pair(ps: seq<Piece>, qs: seq<Piece>): Document {
    Document(false, Element([], ArrayText([], [
      Element([], StringText(ps), []), Element([], StringText(qs), [])]), []))
  }

  lemma BareElement(e: Element, rest: seq<byte>)
    requires e.before == [] && e.after == []
    ensures WriteElement(e, rest) == Write(e.value) + rest
  {
    assert [] + rest == rest;
    assert [] + (Write(e.value) + rest) == Write(e.value) + rest;
  }

  lemma PairText(ps: seq<Piece>, qs: seq<Piece>)
    ensures DocumentText(Pair(ps, qs))
         == [LBRACKET] + (JsonText.Literal(ps) + ([COMMA] + (JsonText.Literal(qs) + [RBRACKET])))
  {
    hide JsonText.Literal, WriteElement;
    var e0, e1 := Element([], StringText(ps), []), Element([], StringText(qs), []);
    assert [e0, e1][1..] == [e1];
    BareElement(e0, MoreElements([e0, e1]));
    BareElement(e1, MoreElements([e1]));
    BareElement(Pair(ps, qs).element, []);
    assert WriteElements([e1]) == JsonText.Literal(qs) + [RBRACKET];
    var text := [LBRACKET] + WriteElements([e0, e1]);
    assert text + [] == text && [] + text == text;
  }

  lemma PairValue(ps: seq<Piece>, qs: seq<Piece>)
    requires ValidPieces(ps) && ValidPieces(qs) && Meaning(ps).Some? && Meaning(qs).Some?
    ensures ValidElement(Pair(ps, qs).element) && Acceptable(Pair(ps, qs)) && !IsLong(Pair(ps, qs).element.value)
    ensures Value(Pair(ps, qs).element.value) == Some(Array([String(Meaning(ps).value), String(Meaning(qs).value)]))
    ensures !EndsInBackslash(ps) && !EndsInBackslash(qs) ==> Straight(Pair(ps, qs).element.value)
  {
    hide Meaning, ValidPieces, EndsInBackslash;
    var e0, e1 := Element([], StringText(ps), []), Element([], StringText(qs), []);
    assert [e0, e1][1..] == [e1] && [e1][1..] == [];
    OneElement([e1]);
    assert ValidElements([]) && StraightElements([]);
    assert Valid(e0.value) && Valid(e1.value);
    assert ValidElement(e0) && ValidElement(e1);
    assert ValidElements([e1]);
    assert ValidElements([e0, e1]);
    assert [String(Meaning(ps).value)] + [String(Meaning(qs).value)]
        == [String(Meaning(ps).value), String(Meaning(qs).value)];
    assert Values([e0, e1]) == Some([String(Meaning(ps).value)] + [String(Meaning(qs).value)]);
    assert HeightOfElements([e0, e1]) == 0 && ShortElements([e0, e1]);
    if !EndsInBackslash(ps) && !EndsInBackslash(qs) {
      assert StraightElements([e1]) && StraightElements([e0, e1]);
    }
  }

  lemma TailMinified()
    ensures Minified([SPACE, QUOTE, RBRACKET]) == [QUOTE, RBRACKET]
  {
    var s: seq<byte> := [QUOTE, RBRACKET];
    assert s[1..] == [RBRACKET] && s[1..][1..] == [] && s[..2] == s && s[2..] == [];
    assert StringLength(s[1..]) == 1 + StringLength([]);
    assert Minified([]) == [] && s + [] == s;
    assert [SPACE, QUOTE, RBRACKET][1..] == s;
  }

  /** minify_string copies such a literal, the comma behind it and the next quote, as one string. */
  lemma MisreadMinified(ps: seq<Piece>, tail: seq<byte>)
    requires ValidPieces(ps) && EndsInBackslash(ps)
    ensures Minified(JsonText.Literal(ps) + ([COMMA, QUOTE] + tail))
         == JsonText.Literal(ps) + ([COMMA, QUOTE] + Minified(tail))
  {
    hide Minified, LiteralText;
    var t := [COMMA, QUOTE] + tail;
    var s := JsonText.Literal(ps) + t;
    var n := |LiteralText(ps)| + 4;
    LiteralOverrun(ps, t);
    assert s[1..] == LiteralText(ps) + ([QUOTE] + t);
    assert t[1..] == [QUOTE] + tail;
    assert StringLength(t[1..]) == 1 && StringLength(t) == 2;
    assert s[..n] == JsonText.Literal(ps) + [COMMA, QUOTE] && s[n..] == tail;
    QuoteMinified(s, n);
    Assoc(JsonText.Literal(ps), [COMMA, QUOTE], Minified(tail));
  }

  lemma BracketMinified(s: seq<byte>)
    ensures Minified([LBRACKET] + s) == [LBRACKET] + Minified(s)
  {
    assert ([LBRACKET] + s)[1..] == s;
  }

  lemma OneSpace()
    ensures var ps := [Raw(SPACE)];
            && ValidPieces(ps) && Meaning(ps) == Some([SPACE]) && !EndsInBackslash(ps)
            && JsonText.Literal(ps) == [QUOTE, SPACE, QUOTE]
    ensures ValidPieces([]) && Meaning([]) == Some([]) && JsonText.Literal([]) == [QUOTE, QUOTE]
  {
    var ps := [Raw(SPACE)];
    assert ps[1..] == [];
    assert [SPACE] + [] == [SPACE];
    assert Meaning(ps) == Before([SPACE], Some([]));
    assert LiteralText(ps) == [SPACE] + [];
  }

  /** The space inside the second string is taken for white space between strings. */
  lemma PairMinified(ps: seq<Piece>)
    requires ValidPieces(ps) && EndsInBackslash(ps)
    ensures Minified(DocumentText(Pair(ps, [Raw(SPACE)]))) == DocumentText(Pair(ps, []))
  {
    hide JsonText.Literal, Minified, DocumentText;
    var tail: seq<byte> := [SPACE, QUOTE, RBRACKET];
    OneSpace();
    PairText(ps, [Raw(SPACE)]);
    PairText(ps, []);
    assert [COMMA] + ([QUOTE, SPACE, QUOTE] + [RBRACKET]) == [COMMA, QUOTE] + tail;
    assert [COMMA] + ([QUOTE, QUOTE] + [RBRACKET]) == [COMMA, QUOTE] + [QUOTE, RBRACKET];
    BracketMinified(JsonText.Literal(ps) + ([COMMA, QUOTE] + tail));
    MisreadMinified(ps, tail);
    TailMinified();
  }

  /** Behind every literal that ends in an escaped backslash a string may change. */
  lemma MeaningLost(ps: seq<Piece>, requireTerminated: bool)
    requires ValidPieces(ps) && EndsInBackslash(ps) && Meaning(ps).Some?
    ensures var text := DocumentText(Pair(ps, [Raw(SPACE)]));
            var before, after := ParseText(text, requireTerminated), ParseText(Minified(text), requireTerminated);
            before.Ok? && after.Ok? && before.value != after.value
  {
    hide ParseText, DocumentText, Value, Minified, Meaning, ValidPieces, IsLong;
    OneSpace();
    PairValue(ps, [Raw(SPACE)]);
    PairValue(ps, []);
    PairMinified(ps);
    ElementIsReadable(Pair(ps, [Raw(SPACE)]).element);
    ElementIsReadable(Pair(ps, []).element);
    DocumentParsed(Pair(ps, [Raw(SPACE)]), requireTerminated);
    DocumentParsed(Pair(ps, []), requireTerminated);
    SecondIsKept(Meaning(ps).value, [SPACE]);
    SecondIsKept(Meaning(ps).value, []);
  }

  lemma SecondIsKept(a: seq<byte>, b: seq<byte>)
    requires NulFree(b)
    ensures Truncated(Array([String(a), String(b)])) == Array([String(CStr(a)), String(b)])
  {
    MoreItems(String(a), [String(b)]);
    OneItem(String(b));
    assert [String(a)] + [String(b)] == [String(a), String(b)];
  }

  /**
   * Which spellings of a string are safe: minifying keeps the meaning of the array of a string and any other string
   * whose own spelling is safe, if and only if the first is not written with an escaped backslash at its end.
   */
  lemma SafeSpellings(ps: seq<Piece>, requireTerminated: bool)
    requires ValidPieces(ps) && Meaning(ps).Some?
    ensures !EndsInBackslash(ps)
       <==> (forall qs ::
               ValidPieces(qs) && !EndsInBackslash(qs) && Meaning(qs).Some?
               ==> KeepsMeaning(DocumentText(Pair(ps, qs)), requireTerminated))
  {
    hide ValidPieces, Meaning, EndsInBackslash, KeepsMeaning, DocumentText, Pair, Straight, ValidElement;
    if EndsInBackslash(ps) {
      OneSpace();
      MeaningLost(ps, requireTerminated);
      NotKept(DocumentText(Pair(ps, [Raw(SPACE)])), requireTerminated);
    } else {
      forall qs | ValidPieces(qs) && !EndsInBackslash(qs) && Meaning(qs).Some?
        ensures KeepsMeaning(DocumentText(Pair(ps, qs)), requireTerminated)
      {
        PairValue(ps, qs);
        StraightIsClean(Pair(ps, qs));
        MinifyKeepsMeaning(Pair(ps, qs), requireTerminated);
      }
    }
  }

  lemma NotKept(text: seq<byte>, requireTerminated: bool)
    requires var before, after := ParseText(text, requireTerminated), ParseText(Minified(text), requireTerminated);
             before.Ok? && after.Ok? && before.value != after.value
    ensures !KeepsMeaning(text, requireTerminated)
  {
  }
}
