/** The text cJSON prints for a tree, as a function of the tree. */
module JsonRender {
  import opened Bytes
  import opened JsonTree

  const QUOTE: byte := 34
  const BACKSLASH: byte := 92
  const COMMA: byte := 44
  const COLON: byte := 58
  const TAB: byte := 9
  const NEWLINE: byte := 10
  const SPACE: byte := 32
  const LBRACKET: byte := 91
  const RBRACKET: byte := 93
  const LBRACE: byte := 123
  const RBRACE: byte := 125

  const TEXT_NULL: seq<byte> := [110, 117, 108, 108]
  const TEXT_TRUE: seq<byte> := [116, 114, 117, 101]
  const TEXT_FALSE: seq<byte> := [102, 97, 108, 115, 101]

  /** Plain decimal digits, most significant first. */
  function Digits(n: nat): (r: seq<byte>)
    ensures |r| > 0
    ensures forall i :: 0 <= i < |r| ==> 48 <= r[i] <= 57
  {
    if n < 10 then [48 + n] else Digits(n / 10) + [48 + n % 10]
  }

  /** What "%1.15g" writes for an integer below 10^15. */
  function IntText(n: int): (r: seq<byte>)
    ensures |r| > 0 && NulFree(r)
  {
    if n < 0 then [45] + Digits(-n) else Digits(n)
  }

  lemma {:induction false} DigitsLength(n: nat, k: nat, bound: nat)
    requires n < bound && bound == Ten(k) && k > 0
    ensures |Digits(n)| <= k
  {
    if n >= 10 {
      DigitsLength(n / 10, k - 1, Ten(k - 1));
    }
  }

  function Ten(k: nat): nat {
    if k == 0 then 1 else 10 * Ten(k - 1)
  }

  /** print_number's 26-byte scratch buffer is always large enough. */
  lemma IntTextFits(n: int)
    requires -EXACT_LIMIT < n < EXACT_LIMIT
    ensures |IntText(n)| <= 16
  {
    assert Ten(5) == 100_000;
    assert Ten(10) == 100_000 * Ten(5);
    assert Ten(15) == 100_000 * Ten(10);
    DigitsLength(if n < 0 then -n else n, 15, EXACT_LIMIT);
  }

  /** The digit that "%04x" writes for a value below 16. */
  function HexDigit(v: nat): byte
    requires v < 16
  {
    if v < 10 then 48 + v else 87 + v
  }

  /** The letter after the backslash, for the bytes that have a short escape; 0 for the others. */
  function ShortEscape(b: byte): byte {
    if b == 34 then 34
    else if b == 92 then 92
    else if b == 8 then 98
    else if b == 12 then 102
    else if b == 10 then 110
    else if b == 13 then 114
    else if b == 9 then 116
    else 0
  }

  function EscapeByte(b: byte): (r: seq<byte>)
    ensures 1 <= |r| <= 6 && (b != 0 ==> NulFree(r))
  {
    if ShortEscape(b) != 0 then [BACKSLASH, ShortEscape(b)]
    else if b < 32 then [BACKSLASH, 117, 48, 48, HexDigit(b / 16), HexDigit(b % 16)]
    else [b]
  }

  function Escape(s: seq<byte>): seq<byte> {
    if |s| == 0 then [] else EscapeByte(s[0]) + Escape(s[1..])
  }

  function Quote(s: seq<byte>): seq<byte> {
    [QUOTE] + Escape(s) + [QUOTE]
  }

  lemma {:induction false} EscapeNulFree(s: seq<byte>)
    requires NulFree(s)
    ensures NulFree(Escape(s)) && |s| <= |Escape(s)|
  {
    if |s| > 0 {
      EscapeNulFree(s[1..]);
    }
  }

  lemma {:induction false} EscapeConcat(u: seq<byte>, v: seq<byte>)
    ensures Escape(u + v) == Escape(u) + Escape(v)
  {
    if |u| == 0 {
      assert u + v == v;
    } else {
      assert (u + v)[1..] == u[1..] + v;
      EscapeConcat(u[1..], v);
    }
  }

  /** Escaping one more byte. */
  lemma EscapeNext(s: seq<byte>, i: nat)
    requires i < |s|
    ensures Escape(s[..i + 1]) == Escape(s[..i]) + EscapeByte(s[i])
    ensures |Escape(s[..i + 1])| <= |Escape(s)|
  {
    hide EscapeByte;
    assert s[..i + 1] == s[..i] + [s[i]];
    EscapeConcat(s[..i], [s[i]]);
    assert EscapeByte(s[i]) + Escape([]) == EscapeByte(s[i]);
    assert Escape([s[i]]) == EscapeByte(s[i]) + Escape([s[i]][1..]);
    assert s == s[..i + 1] + s[i + 1..];
    EscapeConcat(s[..i + 1], s[i + 1..]);
  }

  /** If escaping adds no bytes, it changes nothing. */
  lemma {:induction false} EscapeIdentity(s: seq<byte>)
    requires NulFree(s)
    ensures |Escape(s)| >= |s|
    ensures |Escape(s)| == |s| ==> Escape(s) == s
  {
    if |s| > 0 {
      EscapeIdentity(s[1..]);
    }
  }

  function Tabs(n: nat): (r: seq<byte>)
    ensures |r| == n && forall i :: 0 <= i < n ==> r[i] == TAB
  {
    seq(n, i => TAB)
  }

  function Separator(format: bool): seq<byte> {
    if format then [COMMA, SPACE] else [COMMA]
  }

  function ObjectOpen(format: bool): seq<byte> {
    if format then [LBRACE, NEWLINE] else [LBRACE]
  }

  function Indent(format: bool, depth: nat): seq<byte> {
    if format then Tabs(depth) else []
  }

  function KeyEnd(format: bool): seq<byte> {
    if format then [COLON, TAB] else [COLON]
  }

  function MemberEnd(format: bool, more: bool): seq<byte> {
    (if more then [COMMA] else []) + (if format then [NEWLINE] else [])
  }

  function RenderName(key: seq<byte>, format: bool, depth: nat): seq<byte> {
    Indent(format, depth) + Quote(key) + KeyEnd(format)
  }

  function Render(t: Json, format: bool, depth: nat): seq<byte> {
    match t
    case Null => TEXT_NULL
    case False => TEXT_FALSE
    case True => TEXT_TRUE
    case Number(n) => IntText(n.mantissa)
    case String(s) => Quote(s)
    case Array(items) => [LBRACKET] + RenderItems(items, format, depth + 1) + [RBRACKET]
    case Object(members) =>
      ObjectOpen(format) + RenderMembers(members, format, depth + 1) + Indent(format, depth) + [RBRACE]
  }

  function RenderItems(items: seq<Json>, format: bool, depth: nat): seq<byte> {
    if |items| == 0 then []
    else if |items| == 1 then Render(items[0], format, depth)
    else Render(items[0], format, depth) + Separator(format) + RenderItems(items[1..], format, depth)
  }

  function RenderMembers(members: seq<Member>, format: bool, depth: nat): seq<byte> {
    if |members| == 0 then []
    else RenderMember(members[0], |members| > 1, format, depth) + RenderMembers(members[1..], format, depth)
  }

  function RenderMember(m: Member, more: bool, format: bool, depth: nat): seq<byte> {
    RenderName(m.key, format, depth) + Render(m.value, format, depth) + MemberEnd(format, more)
  }

  lemma ThreeNulFree(u: seq<byte>, v: seq<byte>, w: seq<byte>)
    requires NulFree(u) && NulFree(v) && NulFree(w)
    ensures NulFree(u + v + w)
  {
    hide NulFree;
    NulFreeConcat(u, v);
    NulFreeConcat(u + v, w);
  }

  /** What the layout adds. */
  lemma LayoutNulFree(format: bool, depth: nat, more: bool)
    ensures NulFree([LBRACKET]) && NulFree([RBRACKET]) && NulFree([LBRACE]) && NulFree([RBRACE]) && NulFree([QUOTE])
    ensures NulFree(Separator(format)) && NulFree(ObjectOpen(format)) && NulFree(Indent(format, depth))
    ensures NulFree(KeyEnd(format)) && NulFree(MemberEnd(format, more))
  {
  }

  lemma QuoteNulFree(s: seq<byte>)
    requires NulFree(s)
    ensures NulFree(Quote(s))
  {
    EscapeNulFree(s);
    LayoutNulFree(false, 0, false);
    ThreeNulFree([QUOTE], Escape(s), [QUOTE]);
  }

  /** Printed text holds no NUL, so C code can measure it with strlen. */
  lemma {:induction false} RenderNulFree(t: Json, format: bool, depth: nat)
    requires Printable(t)
    ensures NulFree(Render(t, format, depth))
    decreases t, 1
  {
    match t
    case String(s) => QuoteNulFree(s);
    case Array(items) =>
      hide NulFree;
      RenderItemsNulFree(items, format, depth + 1);
      LayoutNulFree(format, depth, false);
      ThreeNulFree([LBRACKET], RenderItems(items, format, depth + 1), [RBRACKET]);
    case Object(members) =>
      hide NulFree;
      RenderMembersNulFree(members, format, depth + 1);
      LayoutNulFree(format, depth, false);
      ThreeNulFree(ObjectOpen(format), RenderMembers(members, format, depth + 1), Indent(format, depth));
      NulFreeConcat(ObjectOpen(format) + RenderMembers(members, format, depth + 1) + Indent(format, depth), [RBRACE]);
    case _ =>
  }

  lemma {:induction false} RenderItemsNulFree(items: seq<Json>, format: bool, depth: nat)
    requires PrintableItems(items)
    ensures NulFree(RenderItems(items, format, depth))
    decreases items, 0
  {
    if |items| > 0 {
      RenderNulFree(items[0], format, depth);
      RenderItemsNulFree(items[1..], format, depth);
      hide NulFree, Render;
      LayoutNulFree(format, depth, false);
      ThreeNulFree(Render(items[0], format, depth), Separator(format), RenderItems(items[1..], format, depth));
    }
  }

  lemma {:induction false} RenderMembersNulFree(members: seq<Member>, format: bool, depth: nat)
    requires PrintableMembers(members)
    ensures NulFree(RenderMembers(members, format, depth))
    decreases members, 0
  {
    if |members| > 0 {
      var m, more := members[0], |members| > 1;
      RenderNulFree(m.value, format, depth);
      RenderMembersNulFree(members[1..], format, depth);
      hide Render, RenderMember;
      MemberNulFree(m, more, format, depth);
      NulFreeConcat(RenderMember(m, more, format, depth), RenderMembers(members[1..], format, depth));
    }
  }

  lemma MemberNulFree(m: Member, more: bool, format: bool, depth: nat)
    requires NulFree(m.key) && NulFree(Render(m.value, format, depth))
    ensures NulFree(RenderMember(m, more, format, depth))
  {
    hide Render, NulFree, Quote, Indent, KeyEnd, MemberEnd;
    LayoutNulFree(format, depth, more);
    QuoteNulFree(m.key);
    ThreeNulFree(Indent(format, depth), Quote(m.key), KeyEnd(format));
    ThreeNulFree(RenderName(m.key, format, depth), Render(m.value, format, depth), MemberEnd(format, more));
  }
}
