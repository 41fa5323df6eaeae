/** Printing writes a JSON text for the tree, so parsing what was printed gives the tree back. */
module JsonRoundTrip {
  import opened Bytes
  import opened JsonTree
  import opened JsonRender
  import opened JsonString
  import opened JsonNumber
  import opened JsonGrammar
  import opened JsonText

  /** The line break that formatted output puts behind a brace or a comma of an object. */
  function Break(format: bool): seq<byte> {
    if format then [NEWLINE] else []
  }

  /** The space behind a comma of an array. */
  function Gap(format: bool): seq<byte> {
    if format then [SPACE] else []
  }

  /** The tab behind a colon. */
  function Tab(format: bool): seq<byte> {
    if format then [TAB] else []
  }

  /** The text that printing chooses: how it lays the tree out, and which escapes it uses. */
  ghost function Layout(t: Json, format: bool, d: nat): Text {
    match t
    case Null => NullText
    case False => FalseText
    case True => TrueText
    case Number(n) => NumberText(IntNumeral(n.mantissa))
    case String(x) => StringText(EscapePieces(x))
    case Array(items) => ArrayText([], LayoutItems(items, [], format, d + 1))
    case Object(members) => ObjectText(Break(format) + Indent(format, d), LayoutMembers(members, format, d + 1))
  }

  ghost function LayoutItems(items: seq<Json>, before: seq<byte>, format: bool, d: nat): (es: seq<Element>)
    ensures |es| == |items|
  {
    if |items| == 0 then []
    else [Element(before, Layout(items[0], format, d), [])] + LayoutItems(items[1..], Gap(format), format, d)
  }

  ghost function LayoutMembers(members: seq<Member>, format: bool, d: nat): (fs: seq<Field>)
    requires d > 0
    ensures |fs| == |members|
  {
    if |members| == 0 then []
    else [LayoutMember(members[0], |members| > 1, format, d)] + LayoutMembers(members[1..], format, d)
  }

  ghost function LayoutMember(m: Member, more: bool, format: bool, d: nat): Field
    requires d > 0
    decreases m, 0
  {
    var after := if more then [] else Break(format) + Indent(format, d - 1);
    Field(Break(format) + Indent(format, d), EscapePieces(m.key), [],
          Element(Tab(format), Layout(m.value, format, d), after))
  }

  // ---------- the layout is a text for the tree ----------

  lemma {:induction false} LayoutMeans(t: Json, format: bool, d: nat)
    requires Printable(t)
    ensures Valid(Layout(t, format, d)) && Value(Layout(t, format, d)) == Some(t)
    ensures Height(Layout(t, format, d)) == Nesting(t) && ShortNumbers(Layout(t, format, d))
    decreases t, 1
  {
    match t
    case Number(n) => IntIsNumeral(n.mantissa);
    case String(x) => EscapeMeansItself(x);
    case Array(items) => LayoutItemsMean(items, [], format, d + 1);
    case Object(members) => LayoutMembersMean(members, format, d + 1);
    case _ =>
  }

  lemma {:induction false} LayoutItemsMean(items: seq<Json>, before: seq<byte>, format: bool, d: nat)
    requires PrintableItems(items) && IsWhite(before)
    ensures var es := LayoutItems(items, before, format, d);
            && ValidElements(es) && ShortElements(es)
            && Values(es) == Some(items) && HeightOfElements(es) == NestingOfItems(items)
    decreases items, 0
  {
    hide Layout, Valid, Value, Height, Nesting, Printable, ShortNumbers;
    if |items| > 0 {
      LayoutMeans(items[0], format, d);
      LayoutItemsMean(items[1..], Gap(format), format, d);
      assert LayoutItems(items, before, format, d)[1..] == LayoutItems(items[1..], Gap(format), format, d);
      assert [items[0]] + items[1..] == items;
    }
  }

  lemma {:induction false} LayoutMembersMean(members: seq<Member>, format: bool, d: nat)
    requires PrintableMembers(members) && d > 0
    ensures var fs := LayoutMembers(members, format, d);
            && ValidFields(fs) && ShortFields(fs)
            && Members(fs) == Some(members) && HeightOfFields(fs) == NestingOfMembers(members)
    decreases members, 0
  {
    hide Layout, Valid, Value, Height, Nesting, Printable, ShortNumbers, EscapePieces, Meaning;
    if |members| > 0 {
      EscapeMeansItself(members[0].key);
      LayoutMeans(members[0].value, format, d);
      LayoutMembersMean(members[1..], format, d);
      assert LayoutMembers(members, format, d)[1..] == LayoutMembers(members[1..], format, d);
      assert [members[0]] + members[1..] == members;
    }
  }

  // ---------- it is the text that is printed ----------

  lemma {:induction false} LayoutIsPrinted(t: Json, format: bool, d: nat)
    requires Printable(t)
    ensures Write(Layout(t, format, d)) == Render(t, format, d)
    decreases t, 1
  {
    match t
    case Number(n) => IntIsNumeral(n.mantissa);
    case String(x) => EscapeMeansItself(x);
    case Array(items) => LayoutArray(items, format, d);
    case Object(members) => LayoutObject(members, format, d);
    case _ =>
  }

  lemma {:induction false} LayoutArray(items: seq<Json>, format: bool, d: nat)
    requires PrintableItems(items)
    ensures Write(Layout(Array(items), format, d)) == Render(Array(items), format, d)
    decreases items, 1
  {
    hide LayoutItems, RenderItems, WriteElements;
    var body := RenderItems(items, format, d + 1);
    Assoc([LBRACKET], body, [RBRACKET]);
    if |items| > 0 {
      LayoutItemsPrinted(items, [], format, d + 1);
      assert [] + (body + [RBRACKET]) == body + [RBRACKET];
    } else {
      NothingRendered(format, d + 1);
      assert [] + [RBRACKET] == [RBRACKET];
    }
  }

  lemma NothingRendered(format: bool, d: nat)
    ensures RenderItems([], format, d) == [] && RenderMembers([], format, d) == []
  {
  }

  lemma {:induction false} LayoutItemsPrinted(items: seq<Json>, before: seq<byte>, format: bool, d: nat)
    requires PrintableItems(items) && |items| > 0
    ensures WriteElements(LayoutItems(items, before, format, d))
         == before + (RenderItems(items, format, d) + [RBRACKET])
    decreases items, 0
  {
    hide Layout, Render, Write, Printable;
    var es := LayoutItems(items, before, format, d);
    var first := Render(items[0], format, d);
    LayoutIsPrinted(items[0], format, d);
    if |items| > 1 {
      LayoutItemsPrinted(items[1..], Gap(format), format, d);
      assert es[1..] == LayoutItems(items[1..], Gap(format), format, d);
      assert [COMMA] + Gap(format) == Separator(format);
      JoinItems(before, first, Gap(format), RenderItems(items[1..], format, d), [RBRACKET]);
    } else {
      assert first + ([] + [RBRACKET]) == first + [RBRACKET];
    }
  }

  lemma JoinItems(a: seq<byte>, b: seq<byte>, gap: seq<byte>, c: seq<byte>, e: seq<byte>)
    ensures a + (b + ([] + ([COMMA] + (gap + (c + e))))) == a + (b + ([COMMA] + gap) + c + e)
  {
  }

  lemma {:induction false} LayoutObject(members: seq<Member>, format: bool, d: nat)
    requires PrintableMembers(members)
    ensures Write(Layout(Object(members), format, d)) == Render(Object(members), format, d)
    decreases members, 1
  {
    hide LayoutMembers, RenderMembers, WriteFields;
    var body := RenderMembers(members, format, d + 1);
    assert ObjectOpen(format) == [LBRACE] + Break(format);
    if |members| > 0 {
      LayoutMembersPrinted(members, format, d + 1);
    } else {
      NothingRendered(format, d + 1);
    }
    CutObject([LBRACE], Break(format), body, Indent(format, d), [RBRACE]);
  }

  lemma CutObject(a: seq<byte>, b: seq<byte>, body: seq<byte>, c: seq<byte>, e: seq<byte>)
    ensures a + (b + (body + (c + e))) == a + b + body + c + e
    ensures body == [] ==> a + (b + c + e) == a + b + body + c + e
  {
  }

  lemma {:induction false} LayoutMembersPrinted(members: seq<Member>, format: bool, d: nat)
    requires PrintableMembers(members) && |members| > 0 && d > 0
    ensures WriteFields(LayoutMembers(members, format, d))
         == Break(format) + (RenderMembers(members, format, d) + (Indent(format, d - 1) + [RBRACE]))
    decreases members, 0
  {
    hide Layout, Render, Write, Printable, LayoutMembers, LayoutMember, Indent, RenderMembers, WriteField, WriteElement;
    var m, more := members[0], |members| > 1;
    var fs := LayoutMembers(members, format, d);
    MembersUnfold(members, format, d);
    MemberPrinted(m, more, format, d, MoreFields(fs));
    assert KeyEnd(format) == [COLON] + Tab(format);
    if more {
      LayoutMembersPrinted(members[1..], format, d);
      JoinMembers(Break(format), Indent(format, d), Quote(m.key), Tab(format), Render(m.value, format, d),
                  RenderMembers(members[1..], format, d), Indent(format, d - 1) + [RBRACE]);
    } else {
      assert members[1..] == [];
      NothingRendered(format, d);
      LastOfMembers(Break(format), Indent(format, d), Quote(m.key), Tab(format), Render(m.value, format, d),
                    Indent(format, d - 1), [RBRACE]);
    }
  }

  lemma {:induction false} MemberPrinted(m: Member, more: bool, format: bool, d: nat, rest: seq<byte>)
    requires NulFree(m.key) && Printable(m.value) && d > 0
    ensures var after := if more then [] else Break(format) + Indent(format, d - 1);
            WriteField(LayoutMember(m, more, format, d), rest)
            == Break(format) + Indent(format, d)
               + (Quote(m.key) + ([] + ([COLON] + (Tab(format) + (Render(m.value, format, d) + (after + rest))))))
    ensures MemberEnd(format, more) == if more then [COMMA] + Break(format) else Break(format)
    decreases m, 2
  {
    hide Layout, Render, Write, Printable, Indent;
    LayoutIsPrinted(m.value, format, d);
    EscapeMeansItself(m.key);
    assert [] + Break(format) == Break(format);
  }

  lemma MembersUnfold(members: seq<Member>, format: bool, d: nat)
    requires |members| > 0 && d > 0
    ensures LayoutMembers(members, format, d)[0] == LayoutMember(members[0], |members| > 1, format, d)
    ensures LayoutMembers(members, format, d)[1..] == LayoutMembers(members[1..], format, d)
    ensures RenderMembers(members, format, d)
         == RenderMember(members[0], |members| > 1, format, d) + RenderMembers(members[1..], format, d)
  {
  }

  lemma JoinMembers(br: seq<byte>, indent: seq<byte>, key: seq<byte>, tab: seq<byte>, value: seq<byte>,
                    rest: seq<byte>, close: seq<byte>)
    ensures br + indent + (key + ([] + ([COLON] + (tab + (value + ([] + ([COMMA] + (br + (rest + close)))))))))
         == br + (indent + key + ([COLON] + tab) + value + ([COMMA] + br) + rest + close)
  {
  }

  lemma LastOfMembers(br: seq<byte>, indent: seq<byte>, key: seq<byte>, tab: seq<byte>, value: seq<byte>,
                      outer: seq<byte>, close: seq<byte>)
    ensures br + indent + (key + ([] + ([COLON] + (tab + (value + ((br + outer) + close))))))
         == br + (indent + key + ([COLON] + tab) + value + br + [] + (outer + close))
  {
  }

  // ---------- the round trip ----------

  /**
   * The round trip: parsing the text printed for a tree gives the same tree, and ends at the NUL,
   * if and only if the tree is nested no deeper than CJSON_NESTING_LIMIT.
   */
  lemma RoundTrip(t: Json, format: bool, requireTerminated: bool)
    requires Printable(t)
    ensures ParseText(Render(t, format, 0), requireTerminated) == Ok(t, |Render(t, format, 0)|)
       <==> Nesting(t) <= NESTING_LIMIT
  {
    hide Layout, Render, ParseText, Value, Valid, Height, Write, Nesting, Printable, ShortNumbers, Truncated, Cut;
    PrintableIsKept(t);
    var d := Document(false, Element([], Layout(t, format, 0), []));
    LayoutMeans(t, format, 0);
    LayoutIsPrinted(t, format, 0);
    var text := Render(t, format, 0);
    assert [] + ([] + (text + ([] + []))) == text;
    ElementIsReadable(d.element);
    DocumentParsed(d, requireTerminated);
    ShortIsNotLong(d.element.value);
  }
}
