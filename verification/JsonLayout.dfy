/**
 * How printed text is laid out, told from its tokens alone: unformatted text has nothing between them, and formatted
 * text has names and closing braces on lines of their own, behind as many tabs as they are deep.
 */
module JsonLayout {
  import opened Bytes
  import opened JsonTree
  import opened JsonRender
  import opened JsonString
  import opened JsonNumber
  import opened JsonText
  import opened JsonMinify
  import opened JsonMinifyMeaning
  import opened JsonRoundTrip

  /** What stands in front of a token. */
  datatype Previous = Comma | Colon | Other

  function Kind(x: Lexeme): Previous {
    if x == Mark(COMMA) then Comma else if x == Mark(COLON) then Colon else Other
  }

  /** How deep the tokens behind x are. */
  function DepthBehind(x: Lexeme, depth: nat): nat {
    if x == Mark(LBRACE) || x == Mark(LBRACKET) then depth + 1
    else if (x == Mark(RBRACE) || x == Mark(RBRACKET)) && depth > 0 then depth - 1
    else depth
  }

  /** A string in front of a colon is a name. */
  predicate StartsName(ts: seq<Lexeme>) {
    |ts| > 1 && ts[0].Literal? && ts[1] == Mark(COLON)
  }

  /** A new line that begins with tabs. */
  function NewLine(tabs: nat): seq<Lexeme> {
    [Space(NEWLINE)] + seq(tabs, i => Space(TAB))
  }

  /** A value follows a colon behind a tab, and a comma behind a space. */
  function ValueGap(previous: Previous): seq<Lexeme> {
    match previous
    case Colon => [Space(TAB)]
    case Comma => [Space(SPACE)]
    case Other => []
  }

  /** The white space in front of the first of the tokens. */
  function GapBefore(previous: Previous, ts: seq<Lexeme>, depth: nat): seq<Lexeme>
    requires |ts| > 0
  {
    if ts[0] == Mark(RBRACE) then NewLine(DepthBehind(ts[0], depth))
    else if StartsName(ts) then NewLine(depth)
    else ValueGap(previous)
  }

  /** The tokens with the white space of formatted text between them. */
  function Spread(previous: Previous, ts: seq<Lexeme>, depth: nat): seq<Lexeme>
    decreases |ts|
  {
    if |ts| == 0 then []
    else GapBefore(previous, ts, depth) + ([ts[0]] + Spread(Kind(ts[0]), ts[1..], DepthBehind(ts[0], depth)))
  }

  /** What may stand behind a value. */
  predicate NoColon(us: seq<Lexeme>) {
    |us| > 0 ==> us[0] != Mark(COLON)
  }

  lemma JoinGap(a: seq<Lexeme>, b: seq<Lexeme>, c: seq<Lexeme>)
    ensures a + b + c == a + (b + c)
  {
  }

  /** The first token, in front of others. */
  lemma SpreadFirst(previous: Previous, x: Lexeme, us: seq<Lexeme>, depth: nat)
    ensures Spread(previous, [x] + us, depth)
         == GapBefore(previous, [x] + us, depth) + ([x] + Spread(Kind(x), us, DepthBehind(x, depth)))
  {
    assert ([x] + us)[1..] == us;
  }

  // ---------- values ----------

  predicate PlainByte(c: byte) {
    c != COMMA && c != COLON && c != LBRACE && c != RBRACE && c != LBRACKET && c != RBRACKET
  }

  lemma {:induction false} MarksSpread(w: seq<byte>, previous: Previous, us: seq<Lexeme>, depth: nat)
    requires |w| > 0 && forall i :: 0 <= i < |w| ==> PlainByte(w[i])
    ensures Spread(previous, Marks(w) + us, depth)
         == ValueGap(previous) + (Marks(w) + Spread(Other, us, depth))
  {
    hide Spread;
    JoinGap([Mark(w[0])], Marks(w[1..]), us);
    JoinGap([Mark(w[0])], Marks(w[1..]), Spread(Other, us, depth));
    SpreadFirst(previous, Mark(w[0]), Marks(w[1..]) + us, depth);
    if |w| > 1 {
      MarksSpread(w[1..], Other, us, depth);
      assert [] + (Marks(w[1..]) + Spread(Other, us, depth)) == Marks(w[1..]) + Spread(Other, us, depth);
    } else {
      assert Marks(w[1..]) == [] && [] + us == us && [] + Spread(Other, us, depth) == Spread(Other, us, depth);
    }
  }

  lemma StringSpread(ps: seq<Piece>, previous: Previous, us: seq<Lexeme>, depth: nat)
    requires NoColon(us)
    ensures Spread(previous, [Literal(ps)] + us, depth)
         == ValueGap(previous) + ([Literal(ps)] + Spread(Other, us, depth))
  {
    SpreadFirst(previous, Literal(ps), us, depth);
  }

  lemma IntTextIsPlain(n: int)
    ensures forall i :: 0 <= i < |IntText(n)| ==> PlainByte(IntText(n)[i])
  {
  }

  /** A value that is laid out is its tokens, spread. */
  lemma {:induction false} ValueSpread(t: Json, d: nat, previous: Previous, us: seq<Lexeme>)
    requires Printable(t) && NoColon(us)
    ensures Spread(previous, Lexemes(Layout(t, false, d)) + us, d)
         == ValueGap(previous) + (Lexemes(Layout(t, true, d)) + Spread(Other, us, d))
    decreases t, 1
  {
    hide Spread, ElementsLexemes, FieldsLexemes, LayoutItems, LayoutMembers, Marks, NoColon, ValueGap;
    match t
    case String(x) => StringSpread(EscapePieces(x), previous, us, d);
    case Array(items) => ArraySpread(items, d, previous, us);
    case Object(members) => ObjectSpread(members, d, previous, us);
    case _ =>
      var w := AtomMarks(t, d);
      MarksSpread(w, previous, us, d);
  }

  /** The names and the numbers. */
  lemma AtomMarks(t: Json, d: nat) returns (w: seq<byte>)
    requires Printable(t) && !t.String? && !t.Array? && !t.Object?
    ensures |w| > 0 && forall i :: 0 <= i < |w| ==> PlainByte(w[i])
    ensures Lexemes(Layout(t, false, d)) == Marks(w) == Lexemes(Layout(t, true, d))
  {
    hide Marks;
    w := Render(t, false, d);
    if t.Number? {
      IntIsNumeral(t.num.mantissa);
      IntTextIsPlain(t.num.mantissa);
    }
  }

  lemma {:induction false} ArraySpread(items: seq<Json>, d: nat, previous: Previous, us: seq<Lexeme>)
    requires PrintableItems(items) && NoColon(us)
    ensures Spread(previous, Lexemes(Layout(Array(items), false, d)) + us, d)
         == ValueGap(previous) + (Lexemes(Layout(Array(items), true, d)) + Spread(Other, us, d))
    decreases items, 1
  {
    hide Spread, ElementsLexemes, LayoutItems;
    var after := Spread(Other, us, d);
    if |items| == 0 {
      var close := [Mark(RBRACKET)];
      assert Spaces([]) + close == close;
      SpreadFirst(Other, Mark(RBRACKET), us, d + 1);
      SpreadFirst(previous, Mark(LBRACKET), close + us, d);
      JoinGap([Mark(LBRACKET)], close, us);
      JoinGap([Mark(LBRACKET)], close, after);
      assert [] + (close + after) == close + after;
      NoItems(d);
    } else {
      var plain, laid := ElementsLexemes(LayoutItems(items, [], false, d + 1)),
                         ElementsLexemes(LayoutItems(items, [], true, d + 1));
      ItemsSpread(items, d + 1, Other, us);
      SpreadFirst(previous, Mark(LBRACKET), plain + us, d);
      JoinGap([Mark(LBRACKET)], plain, us);
      JoinGap([Mark(LBRACKET)], laid, after);
    }
  }

  lemma NoItems(d: nat)
    ensures LayoutItems([], [], false, d + 1) == [] == LayoutItems([], [], true, d + 1)
    ensures LayoutMembers([], false, d + 1) == [] == LayoutMembers([], true, d + 1)
  {
  }

  /** The white space in front of an element: behind the bracket, or behind a comma. */
  function ItemGap(previous: Previous, format: bool): seq<byte> {
    if previous == Comma then JsonRoundTrip.Gap(format) else []
  }

  lemma {:induction false} ItemsSpread(items: seq<Json>, d: nat, previous: Previous, us: seq<Lexeme>)
    requires PrintableItems(items) && |items| > 0 && d > 0 && !previous.Colon?
    ensures Spread(previous, ElementsLexemes(LayoutItems(items, ItemGap(previous, false), false, d)) + us, d)
         == ElementsLexemes(LayoutItems(items, ItemGap(previous, true), true, d)) + Spread(Other, us, d - 1)
    decreases items, 0
  {
    hide Spread, Layout, Lexemes, Printable, LayoutItems, MoreElementsLexemes;
    var plain, laid := LayoutItems(items, ItemGap(previous, false), false, d),
                       LayoutItems(items, ItemGap(previous, true), true, d);
    var more, moreLaid := MoreElementsLexemes(plain), MoreElementsLexemes(laid);
    ItemsUnfold(items, ItemGap(previous, false), false, d);
    ItemsUnfold(items, ItemGap(previous, true), true, d);
    MoreSpread(items, d, us, more, moreLaid);
    ValueSpread(items[0], d, previous, more + us);
    var v, w := Lexemes(Layout(items[0], false, d)), Lexemes(Layout(items[0], true, d));
    GapIsSpace(previous);
    JoinItem(v, more, us);
    JoinThree(ValueGap(previous), w, moreLaid, Spread(Other, us, d - 1));
  }

  lemma GapIsSpace(previous: Previous)
    requires !previous.Colon?
    ensures Spaces(ItemGap(previous, false)) == [] && Spaces(ItemGap(previous, true)) == ValueGap(previous)
    ensures Spaces([]) == []
  {
  }

  lemma JoinItem(a: seq<Lexeme>, b: seq<Lexeme>, c: seq<Lexeme>)
    ensures [] + (a + ([] + b)) + c == a + (b + c)
  {
  }

  lemma JoinThree(a: seq<Lexeme>, b: seq<Lexeme>, c: seq<Lexeme>, e: seq<Lexeme>)
    ensures a + (b + ([] + c)) + e == a + (b + (c + e))
  {
  }

  lemma ItemsUnfold(items: seq<Json>, before: seq<byte>, format: bool, d: nat)
    requires |items| > 0
    ensures var es := LayoutItems(items, before, format, d);
            && |es| == |items| && es[0] == Element(before, Layout(items[0], format, d), [])
            && MoreElementsLexemes(es) == (if |items| == 1 then [Mark(RBRACKET)]
               else [Mark(COMMA)] + ElementsLexemes(LayoutItems(items[1..], JsonRoundTrip.Gap(format), format, d)))
  {
    hide Layout, ElementsLexemes;
    var es := LayoutItems(items, before, format, d);
    assert es[1..] == LayoutItems(items[1..], JsonRoundTrip.Gap(format), format, d);
  }

  /** The bracket, or the comma and the other elements. */
  lemma {:induction false} MoreSpread(items: seq<Json>, d: nat, us: seq<Lexeme>, more: seq<Lexeme>, laid: seq<Lexeme>)
    requires PrintableItems(items) && |items| > 0 && d > 0
    requires more == if |items| == 1 then [Mark(RBRACKET)]
                     else [Mark(COMMA)] + ElementsLexemes(LayoutItems(items[1..], ItemGap(Comma, false), false, d))
    requires laid == if |items| == 1 then [Mark(RBRACKET)]
                     else [Mark(COMMA)] + ElementsLexemes(LayoutItems(items[1..], ItemGap(Comma, true), true, d))
    ensures NoColon(more + us) && Spread(Other, more + us, d) == laid + Spread(Other, us, d - 1)
    decreases items, 0, 0
  {
    hide Spread, ElementsLexemes, LayoutItems, Printable;
    if |items| == 1 {
      SpreadFirst(Other, Mark(RBRACKET), us, d);
    } else {
      var plain := ElementsLexemes(LayoutItems(items[1..], ItemGap(Comma, false), false, d));
      var rest := ElementsLexemes(LayoutItems(items[1..], ItemGap(Comma, true), true, d));
      ItemsSpread(items[1..], d, Comma, us);
      JoinGap([Mark(COMMA)], plain, us);
      SpreadFirst(Other, Mark(COMMA), plain + us, d);
      JoinGap([Mark(COMMA)], rest, Spread(Other, us, d - 1));
    }
  }

  // ---------- objects ----------

  /** The white space at the start of a line. */
  lemma NewLineIs(d: nat)
    ensures Spaces(Break(true) + Indent(true, d)) == NewLine(d) && Spaces(Break(false) + Indent(false, d)) == []
  {
    TabsAreSpaces(d);
    assert ([NEWLINE] + Tabs(d))[1..] == Tabs(d);
  }

  lemma {:induction false} TabsAreSpaces(d: nat)
    ensures Spaces(Tabs(d)) == seq(d, i => Space(TAB))
  {
    if d > 0 {
      TabsAreSpaces(d - 1);
      assert Tabs(d)[1..] == Tabs(d - 1);
    }
  }

  lemma TabIsSpace()
    ensures Spaces(Tab(false)) == [] && Spaces(Tab(true)) == ValueGap(Colon)
  {
  }

  lemma {:induction false} ObjectSpread(members: seq<Member>, d: nat, previous: Previous, us: seq<Lexeme>)
    requires PrintableMembers(members) && NoColon(us)
    ensures Spread(previous, Lexemes(Layout(Object(members), false, d)) + us, d)
         == ValueGap(previous) + (Lexemes(Layout(Object(members), true, d)) + Spread(Other, us, d))
    decreases members, 1
  {
    hide Spread, FieldsLexemes, LayoutMembers, Spaces, NewLine;
    var after := Spread(Other, us, d);
    if |members| == 0 {
      var close := [Mark(RBRACE)];
      NewLineIs(d);
      SpreadFirst(Other, Mark(RBRACE), us, d + 1);
      SpreadFirst(previous, Mark(LBRACE), close + us, d);
      assert [] + close == close;
      JoinGap([Mark(LBRACE)], close, us);
      JoinGap([Mark(LBRACE)], NewLine(d) + close, after);
      JoinGap(NewLine(d), close, after);
      NoItems(d);
    } else {
      var plain, laid := FieldsLexemes(LayoutMembers(members, false, d + 1)),
                         FieldsLexemes(LayoutMembers(members, true, d + 1));
      MembersSpread(members, d + 1, Other, us);
      SpreadFirst(previous, Mark(LBRACE), plain + us, d);
      JoinGap([Mark(LBRACE)], plain, us);
      JoinGap([Mark(LBRACE)], laid, after);
    }
  }

  lemma {:induction false} MembersSpread(members: seq<Member>, d: nat, previous: Previous, us: seq<Lexeme>)
    requires PrintableMembers(members) && |members| > 0 && d > 0
    ensures Spread(previous, FieldsLexemes(LayoutMembers(members, false, d)) + us, d)
         == FieldsLexemes(LayoutMembers(members, true, d)) + Spread(Other, us, d - 1)
    decreases members, 0
  {
    hide Spread, Layout, Lexemes, Printable, LayoutMembers, FieldsLexemes, Spaces, NewLine, GapBefore, Indent, Break;
    var m := members[0];
    var key := EscapePieces(m.key);
    var v, w := Lexemes(Layout(m.value, false, d)), Lexemes(Layout(m.value, true, d));
    var more := MembersUnfold(members, false, d);
    var laid := MembersUnfold(members, true, d);
    MoreMembersSpread(members, d, us, more, laid);
    ValueSpread(m.value, d, Colon, more + us);
    FieldSpread(key, v + (more + us), previous, d);
    NewLineIs(d);
    TabIsSpace();
    JoinPlain([Literal(key)], [Mark(COLON)], v, more, us);
    JoinField(NewLine(d), [Literal(key)], [Mark(COLON)], ValueGap(Colon), w, laid, Spread(Other, us, d - 1));
  }

  lemma JoinPlain(a: seq<Lexeme>, b: seq<Lexeme>, c: seq<Lexeme>, e: seq<Lexeme>, f: seq<Lexeme>)
    ensures [] + (a + ([] + (b + ([] + (c + e))))) + f == a + (b + (c + (e + f)))
  {
  }

  lemma JoinField(a: seq<Lexeme>, b: seq<Lexeme>, c: seq<Lexeme>, e: seq<Lexeme>, f: seq<Lexeme>, g: seq<Lexeme>,
                  h: seq<Lexeme>)
    ensures a + (b + ([] + (c + (e + (f + g))))) + h == a + (b + (c + (e + (f + (g + h)))))
  {
  }

  /** A name, its colon, and the value behind them. */
  lemma FieldSpread(key: seq<Piece>, vs: seq<Lexeme>, previous: Previous, d: nat)
    ensures Spread(previous, [Literal(key)] + ([Mark(COLON)] + vs), d)
         == NewLine(d) + ([Literal(key)] + ([Mark(COLON)] + Spread(Colon, vs, d)))
  {
    hide Spread, NewLine;
    SpreadFirst(previous, Literal(key), [Mark(COLON)] + vs, d);
    SpreadFirst(Other, Mark(COLON), vs, d);
    assert [] + ([Mark(COLON)] + Spread(Colon, vs, d)) == [Mark(COLON)] + Spread(Colon, vs, d);
  }

  /** The first member's lexemes, and in `more` what stands behind its value. */
  lemma MembersUnfold(members: seq<Member>, format: bool, d: nat) returns (more: seq<Lexeme>)
    requires |members| > 0 && d > 0
    ensures more == if |members| == 1 then Spaces(Break(format) + Indent(format, d - 1)) + [Mark(RBRACE)]
                    else [Mark(COMMA)] + FieldsLexemes(LayoutMembers(members[1..], format, d))
    ensures FieldsLexemes(LayoutMembers(members, format, d))
         == Spaces(Break(format) + Indent(format, d))
            + ([Literal(EscapePieces(members[0].key))]
               + ([] + ([Mark(COLON)] + (Spaces(Tab(format)) + (Lexemes(Layout(members[0].value, format, d)) + more)))))
  {
    hide Layout, Lexemes, Indent, Break, Spaces;
    var fs := LayoutMembers(members, format, d);
    assert fs[1..] == LayoutMembers(members[1..], format, d);
    more := if |members| == 1 then Spaces(Break(format) + Indent(format, d - 1)) + [Mark(RBRACE)]
            else [Mark(COMMA)] + FieldsLexemes(fs[1..]);
    NoSpaces();
    assert [] + MoreFieldsLexemes(fs) == MoreFieldsLexemes(fs);
    assert fs[0] == LayoutMember(members[0], |members| > 1, format, d);
    assert FieldsLexemes(fs) == FieldLexemes(fs[0], MoreFieldsLexemes(fs));
  }

  lemma NoSpaces()
    ensures Spaces([]) == []
  {
  }

  /** The brace, or the comma and the other members. */
  lemma {:induction false} MoreMembersSpread(
    members: seq<Member>, d: nat, us: seq<Lexeme>, more: seq<Lexeme>, laid: seq<Lexeme>)
    requires PrintableMembers(members) && |members| > 0 && d > 0
    requires more == if |members| == 1 then Spaces(Break(false) + Indent(false, d - 1)) + [Mark(RBRACE)]
                     else [Mark(COMMA)] + FieldsLexemes(LayoutMembers(members[1..], false, d))
    requires laid == if |members| == 1 then Spaces(Break(true) + Indent(true, d - 1)) + [Mark(RBRACE)]
                     else [Mark(COMMA)] + FieldsLexemes(LayoutMembers(members[1..], true, d))
    ensures NoColon(more + us) && Spread(Other, more + us, d) == laid + Spread(Other, us, d - 1)
    decreases members, 0, 0
  {
    hide Spread, FieldsLexemes, LayoutMembers, Printable, Spaces, NewLine, Indent, Break;
    if |members| == 1 {
      NewLineIs(d - 1);
      assert [] + [Mark(RBRACE)] == [Mark(RBRACE)];
      SpreadFirst(Other, Mark(RBRACE), us, d);
      JoinGap(NewLine(d - 1), [Mark(RBRACE)], Spread(Other, us, d - 1));
    } else {
      var plain := FieldsLexemes(LayoutMembers(members[1..], false, d));
      var rest := FieldsLexemes(LayoutMembers(members[1..], true, d));
      MembersSpread(members[1..], d, Comma, us);
      JoinGap([Mark(COMMA)], plain, us);
      SpreadFirst(Other, Mark(COMMA), plain + us, d);
      JoinGap([Mark(COMMA)], rest, Spread(Other, us, d - 1));
    }
  }

  // ---------- unformatted text ----------

  /** Without its layout, formatted text is unformatted text, which has none. */
  lemma {:induction false} StripLayout(t: Json, format: bool, d: nat, e: nat)
    ensures Strip(Layout(t, format, d)) == Layout(t, false, e)
    decreases t, 1
  {
    hide LayoutItems, LayoutMembers;
    match t
    case Array(items) => StripItems(items, [], format, d + 1, e + 1);
    case Object(members) => StripMembers(members, format, d + 1, e + 1);
    case _ =>
  }

  lemma {:induction false} StripItems(items: seq<Json>, before: seq<byte>, format: bool, d: nat, e: nat)
    ensures StripElements(LayoutItems(items, before, format, d)) == LayoutItems(items, [], false, e)
    decreases items, 0
  {
    hide Strip, Layout;
    if |items| > 0 {
      StripLayout(items[0], format, d, e);
      StripItems(items[1..], JsonRoundTrip.Gap(format), format, d, e);
      assert LayoutItems(items, before, format, d)[1..]
          == LayoutItems(items[1..], JsonRoundTrip.Gap(format), format, d);
    }
  }

  lemma {:induction false} StripMembers(members: seq<Member>, format: bool, d: nat, e: nat)
    requires d > 0 && e > 0
    ensures StripFields(LayoutMembers(members, format, d)) == LayoutMembers(members, false, e)
    decreases members, 0
  {
    hide Strip, Layout;
    if |members| > 0 {
      StripLayout(members[0].value, format, d, e);
      StripMembers(members[1..], format, d, e);
      StripMember(members[0], |members| > 1, format, d, e);
      hide LayoutMember, StripField;
      assert LayoutMembers(members, format, d)[1..] == LayoutMembers(members[1..], format, d);
    }
  }

  lemma StripMember(m: Member, more: bool, format: bool, d: nat, e: nat)
    requires d > 0 && e > 0 && Strip(Layout(m.value, format, d)) == Layout(m.value, false, e)
    ensures StripField(LayoutMember(m, more, format, d)) == LayoutMember(m, more, false, e)
  {
    hide Layout, Strip;
    assert Break(false) + Indent(false, e) == [] == Break(false) + Indent(false, e - 1);
  }

  lemma {:induction false} NoGaps(xs: seq<Lexeme>)
    ensures |TextOf(Tokens(xs))| <= |TextOf(xs)|
    ensures |TextOf(Tokens(xs))| == |TextOf(xs)| ==> forall i :: 0 <= i < |xs| ==> !IsGap(xs[i])
  {
    if |xs| > 0 {
      TokensStep(xs);
      NoGaps(xs[1..]);
      hide TextOf, Tokens;
      assert |LexemeText(xs[0])| > 0;
      assert forall i :: 1 <= i < |xs| ==> xs[i] == xs[1..][i - 1];
    }
  }

  /**
   * What is printed for a tree. Unformatted, it is a sequence of tokens with nothing between them. Formatted, it is
   * the same tokens: names and closing braces at the start of lines, behind as many tabs as they are deep, a tab
   * behind every colon, a space behind the commas of arrays, and nothing else.
   */
  lemma PrintedLayout(t: Json) returns (ts: seq<Lexeme>)
    requires Printable(t)
    ensures ValidLexemes(ts) && forall i :: 0 <= i < |ts| ==> !IsGap(ts[i])
    ensures TextOf(ts) == Render(t, false, 0) && TextOf(Spread(Other, ts, 0)) == Render(t, true, 0)
  {
    hide Layout, Lexemes, Render, Strip, Spread, TextOf, Tokens, Write;
    ts := Lexemes(Layout(t, false, 0));
    LayoutMeans(t, false, 0);
    LayoutIsPrinted(t, false, 0);
    TextLexes(Layout(t, false, 0));
    StripLayout(t, false, 0, 0);
    NoGaps(ts);
    LayoutMeans(t, true, 0);
    LayoutIsPrinted(t, true, 0);
    TextLexes(Layout(t, true, 0));
    ValueSpread(t, 0, Other, []);
    NothingSpread();
    var laid := Lexemes(Layout(t, true, 0));
    assert ts + [] == ts && [] + (laid + []) == laid;
  }

  /** Minifying formatted text gives the unformatted text, if and only if the code is in step with it. */
  lemma MinifiedPrint(t: Json)
    requires Printable(t)
    ensures Minified(Render(t, true, 0)) == Render(t, false, 0) <==> Clean(Lexemes(Layout(t, true, 0)), false)
  {
    hide Layout, Lexemes, Render, Strip, TextOf, Tokens, Write, Minified, Clean;
    LayoutMeans(t, true, 0);
    LayoutIsPrinted(t, true, 0);
    LayoutIsPrinted(t, false, 0);
    TextLexes(Layout(t, true, 0));
    StripLayout(t, true, 0, 0);
    ValidIsLexed(Lexemes(Layout(t, true, 0)));
    RemovesSpaceExactly(Lexemes(Layout(t, true, 0)));
  }

  lemma NothingSpread()
    ensures Spread(Other, [], 0) == [] && NoColon([])
  {
  }
}
