/** What the recursive-descent parser of cJSON.c accepts, as functions of the text. */
module JsonGrammar {
  import opened Bytes
  import opened JsonTree
  import opened JsonRender
  import opened JsonString
  import opened JsonNumber

  /** A text as cJSON_ParseWithOpts hands it on: it ends in a NUL. */
  ghost predicate Terminated(s: seq<byte>) {
    |s| > 0 && s[|s| - 1] == 0
  }

  /** The first byte from o on that is not white space or a control character. */
  function ScanSpace(s: seq<byte>, o: nat): (r: nat)
    requires o <= |s|
    ensures o <= r <= |s|
    ensures r < |s| ==> s[r] > 32
    ensures forall k :: o <= k < r ==> s[k] <= 32
    decreases |s| - o
  {
    if o < |s| && s[o] <= 32 then ScanSpace(s, o + 1) else o
  }

  /** buffer_skip_whitespace: like ScanSpace, but it never runs off the text. */
  function SkipSpace(s: seq<byte>, o: nat): (r: nat)
    requires o < |s|
    ensures o <= r < |s|
  {
    var e := ScanSpace(s, o);
    if e == |s| then e - 1 else e
  }

  /** The result of parsing: a value and the offset behind it, or the offset parsing stopped at. */
  datatype Parsed<+T> = Ok(value: T, next: nat) | Fail(at: nat)

  function ParseString(s: seq<byte>, o: nat): (r: Parsed<seq<byte>>)
    requires o < |s| && Terminated(s)
    ensures r.Ok? ==> o < r.next < |s|
    ensures r.Fail? ==> o <= r.at <= |s|
  {
    if s[o] != QUOTE then Fail(o + 1)
    else match Scan(s, o + 1)
      case None => Fail(o + 1)
      case Some(end) =>
        match Decode(s, o + 1, end)
        case Bad(at) => Fail(at)
        case Text(bytes) => Ok(CStr(bytes), end + 1)
  }

  function ParseNumber(s: seq<byte>, o: nat): (r: Parsed<Json>)
    requires o < |s| && Terminated(s)
    ensures r.Ok? ==> o < r.next < |s|
    ensures r.Fail? ==> r.at == o
  {
    var n := Strtod(s[o..o + RunLength(s, o, 0)]);
    if n.length == 0 then Fail(o) else Ok(Number(n.value), o + n.length)
  }

  /** A word of letters cannot reach the NUL at the end. */
  lemma WordEnds(s: seq<byte>, o: nat, w: seq<byte>)
    requires Terminated(s) && Word(s, o, w) && |w| > 0 && w[|w| - 1] != 0
    ensures o + |w| < |s|
  {
    assert s[o..o + |w|][|w| - 1] == s[o + |w| - 1];
  }

  predicate Word(s: seq<byte>, o: nat, w: seq<byte>) {
    o + |w| <= |s| && s[o..o + |w|] == w
  }

  /** parse_value at offset o inside `depth` arrays and objects. */
  function ParseValue(s: seq<byte>, o: nat, depth: nat): (r: Parsed<Json>)
    requires o < |s| && Terminated(s)
    ensures r.Ok? ==> o < r.next < |s|
    ensures r.Fail? ==> r.at <= |s|
    decreases |s| - o, 3
  {
    if Word(s, o, TEXT_NULL) then WordEnds(s, o, TEXT_NULL); Ok(Null, o + 4)
    else if Word(s, o, TEXT_FALSE) then WordEnds(s, o, TEXT_FALSE); Ok(False, o + 5)
    else if Word(s, o, TEXT_TRUE) then WordEnds(s, o, TEXT_TRUE); Ok(True, o + 4)
    else if s[o] == QUOTE then
      match ParseString(s, o)
      case Fail(at) => Fail(at)
      case Ok(str, next) => Ok(String(str), next)
    else if s[o] == 45 || 48 <= s[o] <= 57 then ParseNumber(s, o)
    else if s[o] == LBRACKET then ParseArray(s, o, depth)
    else if s[o] == LBRACE then ParseObject(s, o, depth)
    else Fail(o)
  }

  function ParseArray(s: seq<byte>, o: nat, depth: nat): (r: Parsed<Json>)
    requires o < |s| && Terminated(s) && s[o] == LBRACKET
    ensures r.Ok? ==> o < r.next < |s|
    ensures r.Fail? ==> r.at <= |s|
    decreases |s| - o, 2
  {
    if depth >= NESTING_LIMIT then Fail(o)
    else if s[SkipSpace(s, o + 1)] == RBRACKET then Ok(Array([]), SkipSpace(s, o + 1) + 1)
    else match ParseItems(s, o + 1, depth + 1)
      case Fail(at) => Fail(at)
      case Ok(items, next) => Ok(Array(items), next)
  }

  /** The elements from o on, up to and including the closing bracket. */
  function ParseItems(s: seq<byte>, o: nat, depth: nat): (r: Parsed<seq<Json>>)
    requires o < |s| && Terminated(s)
    ensures r.Ok? ==> o < r.next < |s| && |r.value| > 0
    ensures r.Fail? ==> r.at <= |s|
    decreases |s| - o, 4
  {
    match ParseValue(s, SkipSpace(s, o), depth)
    case Fail(at) => Fail(at)
    case Ok(item, end) =>
      var next := SkipSpace(s, end);
      if s[next] == COMMA then
        match ParseItems(s, next + 1, depth)
        case Fail(at) => Fail(at)
        case Ok(rest, last) => Ok([item] + rest, last)
      else if s[next] == RBRACKET then Ok([item], next + 1)
      else Fail(next)
  }

  function ParseObject(s: seq<byte>, o: nat, depth: nat): (r: Parsed<Json>)
    requires o < |s| && Terminated(s) && s[o] == LBRACE
    ensures r.Ok? ==> o < r.next < |s|
    ensures r.Fail? ==> r.at <= |s|
    decreases |s| - o, 2
  {
    if depth >= NESTING_LIMIT then Fail(o)
    else if s[SkipSpace(s, o + 1)] == RBRACE then Ok(Object([]), SkipSpace(s, o + 1) + 1)
    else match ParseMembers(s, o + 1, depth + 1)
      case Fail(at) => Fail(at)
      case Ok(members, next) => Ok(Object(members), next)
  }

  /** The members from o on, up to and including the closing brace. */
  function ParseMembers(s: seq<byte>, o: nat, depth: nat): (r: Parsed<seq<Member>>)
    requires o < |s| && Terminated(s)
    ensures r.Ok? ==> o < r.next < |s| && |r.value| > 0
    ensures r.Fail? ==> r.at <= |s|
    decreases |s| - o, 5
  {
    match ParseMember(s, o, depth)
    case Fail(at) => Fail(at)
    case Ok(member, next) =>
      if s[next] == COMMA then
        match ParseMembers(s, next + 1, depth)
        case Fail(at) => Fail(at)
        case Ok(rest, last) => Ok([member] + rest, last)
      else if s[next] == RBRACE then Ok([member], next + 1)
      else Fail(next)
  }

  /** A key, a colon, a value, and the white space behind it. */
  function ParseMember(s: seq<byte>, o: nat, depth: nat): (r: Parsed<Member>)
    requires o < |s| && Terminated(s)
    ensures r.Ok? ==> o < r.next < |s|
    ensures r.Fail? ==> r.at <= |s|
    decreases |s| - o, 4
  {
    match ParseString(s, SkipSpace(s, o))
    case Fail(at) => Fail(at)
    case Ok(key, end) =>
      var colon := SkipSpace(s, end);
      if s[colon] != COLON then Fail(colon)
      else
        match ParseValue(s, SkipSpace(s, colon + 1), depth)
        case Fail(at) => Fail(at)
        case Ok(value, last) => Ok(Member(key, value), SkipSpace(s, last))
  }

  const BOM: seq<byte> := [0xEF, 0xBB, 0xBF]

  /** skip_utf8_bom at the start of a text. */
  function SkipBom(s: seq<byte>): (o: nat)
    requires |s| > 0
    ensures o < |s|
  {
    if 4 < |s| && s[0..3] == BOM then 3 else 0
  }

  /**
   * cJSON_ParseWithOpts on the C string `value`: the tree and the parse end, or the error
   * position.
   */
  function ParseText(value: seq<byte>, requireTerminated: bool): (r: Parsed<Json>)
    ensures r.Fail? ==> r.at <= |value|
    ensures r.Ok? ==> 0 < r.next <= |value|
  {
    var s: seq<byte> := value + [0];
    match ParseValue(s, SkipSpace(s, SkipBom(s)), 0)
    case Fail(at) => Fail(if at < |s| then at else |s| - 1)
    case Ok(t, next) =>
      if !requireTerminated then Ok(t, next)
      else
        var end := SkipSpace(s, next);
        if s[end] != 0 then Fail(end) else Ok(t, end)
  }
}
