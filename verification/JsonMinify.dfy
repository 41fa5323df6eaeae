/** cJSON_Minify: removing white space and comments from a text, in place. */
module JsonMinify {
  import opened Bytes
  import opened JsonRender
  import opened JsonString

  const SLASH: byte := 47
  const STAR: byte := 42

  /** The four insignificant bytes of RFC 8259 section 2. */
  predicate IsSpace(b: byte) { b == 32 || b == 9 || b == 13 || b == 10 }

  /** What follows a one-line comment. */
  function AfterLine(s: seq<byte>): (r: seq<byte>)
    ensures |r| <= |s|
  {
    if |s| == 0 then [] else if s[0] == NEWLINE then s[1..] else AfterLine(s[1..])
  }

  /** What follows a block comment. */
  function AfterBlock(s: seq<byte>): (r: seq<byte>)
    ensures |r| <= |s|
  {
    if |s| == 0 then []
    else if s[0] == STAR && |s| > 1 && s[1] == SLASH then s[2..]
    else AfterBlock(s[1..])
  }

  /**
   * How many bytes behind an opening quote minify_string copies, the closing quote included. It
   * looks for a backslash right before a quote, and for no other escape.
   */
  function StringLength(s: seq<byte>): (n: nat)
    ensures n <= |s|
  {
    if |s| == 0 then 0
    else if s[0] == QUOTE then 1
    else if s[0] == BACKSLASH && |s| > 1 && s[1] == QUOTE then 2 + StringLength(s[2..])
    else 1 + StringLength(s[1..])
  }

  /** The minified text. */
  function Minified(s: seq<byte>): (r: seq<byte>)
    ensures |r| <= |s|
    decreases |s|
  {
    if |s| == 0 then []
    else if IsSpace(s[0]) then Minified(s[1..])
    else if s[0] == SLASH then
      if |s| > 1 && s[1] == SLASH then Minified(AfterLine(s[2..]))
      else if |s| > 1 && s[1] == STAR then Minified(AfterBlock(s[2..]))
      else Minified(s[1..])
    else if s[0] == QUOTE then
      var n := 1 + StringLength(s[1..]);
      s[..n] + Minified(s[n..])
    else [s[0]] + Minified(s[1..])
  }

  // ---------- the in-place editor ----------

  /**
   * The editor at work on a text `s`, followed by a NUL and `tail`: everything before `into` is
   * finished, the write pointer has not overtaken the read pointer `i`, and no byte from the write
   * pointer on has changed.
   */
  ghost predicate Editing(json: array<byte>, s: seq<byte>, tail: seq<byte>, i: nat, into: nat, done: seq<byte>)
    reads json
  {
    && into <= i <= |s|
    && json[..] == done + (s + [0] + tail)[into..]
    && |done| == into
    && NulFree(s)
  }

  lemma Reading(json: array<byte>, s: seq<byte>, tail: seq<byte>, i: nat, into: nat, done: seq<byte>)
    requires Editing(json, s, tail, i, into, done)
    ensures |s| < json.Length && json[i] == (if i < |s| then s[i] else 0)
    ensures i < |s| ==> json[i] != 0 && json[i + 1] == (if i + 1 < |s| then s[i + 1] else 0)
    ensures i < |s| ==> s[i..][0] == s[i] && s[i..][1..] == s[i + 1..]
    ensures i + 1 < |s| ==> s[i..][1] == s[i + 1] && s[i..][2..] == s[i + 2..]
  {
    var whole := s + [0] + tail;
    assert json[..][i] == whole[into..][i - into];
    if i < |s| {
      assert json[..][i + 1] == whole[into..][i + 1 - into];
    }
  }

  /** Reading on without writing. */
  lemma ReadingOn(json: array<byte>, s: seq<byte>, tail: seq<byte>, i: nat, into: nat, done: seq<byte>)
    requires Editing(json, s, tail, i, into, done) && i < |s|
    ensures Editing(json, s, tail, i + 1, into, done)
    ensures i + 1 < |s| ==> Editing(json, s, tail, i + 2, into, done)
  {
  }

  /** Writing at the write pointer, and moving it. */
  method WriteByte(json: array<byte>, b: byte, ghost s: seq<byte>, ghost tail: seq<byte>, ghost i: nat, into: nat,
                   ghost done: seq<byte>)
    requires Editing(json, s, tail, i, into, done) && i < |s|
    modifies json
    ensures Editing(json, s, tail, i + 1, into + 1, done + [b])
  {
    var whole := s + [0] + tail;
    ghost var was := json[..];
    assert was[into + 1..] == whole[into..][1..] == whole[into + 1..];
    json[into] := b;
    assert json[..] == was[..into] + [b] + was[into + 1..];
  }

  /** skip_oneline_comment, behind the two slashes */
  method SkipOnelineComment(
    json: array<byte>, start: nat, ghost s: seq<byte>, ghost tail: seq<byte>, ghost into: nat, ghost done: seq<byte>)
    returns (i: nat)
    requires Editing(json, s, tail, start, into, done)
    ensures start <= i && Editing(json, s, tail, i, into, done) && AfterLine(s[start..]) == s[i..]
  {
    i := start;
    Reading(json, s, tail, i, into, done);
    while json[i] != 0
      invariant start <= i && Editing(json, s, tail, i, into, done)
      invariant AfterLine(s[i..]) == AfterLine(s[start..])
      invariant i < json.Length && (json[i] != 0 ==> i < |s|) && (json[i] == 0 ==> i == |s|)
      decreases |s| - i
    {
      Reading(json, s, tail, i, into, done);
      if json[i] == NEWLINE {
        i := i + 1;
        return;
      }
      i := i + 1;
      Reading(json, s, tail, i, into, done);
    }
  }

  /** skip_multiline_comment, behind the slash and the star */
  method SkipMultilineComment(
    json: array<byte>, start: nat, ghost s: seq<byte>, ghost tail: seq<byte>, ghost into: nat, ghost done: seq<byte>)
    returns (i: nat)
    requires Editing(json, s, tail, start, into, done)
    ensures start <= i && Editing(json, s, tail, i, into, done) && AfterBlock(s[start..]) == s[i..]
  {
    i := start;
    Reading(json, s, tail, i, into, done);
    while json[i] != 0
      invariant start <= i && Editing(json, s, tail, i, into, done)
      invariant AfterBlock(s[i..]) == AfterBlock(s[start..])
      invariant i < json.Length && (json[i] != 0 ==> i < |s|) && (json[i] == 0 ==> i == |s|)
      decreases |s| - i
    {
      Reading(json, s, tail, i, into, done);
      if json[i] == STAR && json[i + 1] == SLASH {
        i := i + 2;
        return;
      }
      i := i + 1;
      Reading(json, s, tail, i, into, done);
    }
  }

  /** One round of the loop of minify_string; `last` after the closing quote. */
  method CopyStringByte(
    json: array<byte>, start: nat, to: nat, ghost s: seq<byte>, ghost tail: seq<byte>, ghost done: seq<byte>)
    returns (last: bool, i: nat, into: nat)
    requires Editing(json, s, tail, start, to, done) && start < |s|
    modifies json
    ensures start < i <= |s| && Editing(json, s, tail, i, into, done + s[start..i])
    ensures StringLength(s[start..]) == i - start + if last then 0 else StringLength(s[i..])
  {
    Reading(json, s, tail, start, to, done);
    var b, next := json[start], json[start + 1];
    WriteByte(json, b, s, tail, start, to, done);
    i, into, last := start + 1, to + 1, b == QUOTE;
    assert s[start..i] == [b];
    if b == BACKSLASH && next == QUOTE {
      WriteByte(json, next, s, tail, i, into, done + [b]);
      i, into := i + 1, into + 1;
      assert done + s[start..i] == done + [b] + [next];
    }
  }

  /** minify_string: copy a string literal, from its opening quote to behind the closing one. */
  method MinifyString(
    json: array<byte>, start: nat, to: nat, ghost s: seq<byte>, ghost tail: seq<byte>, ghost done: seq<byte>)
    returns (i: nat, into: nat)
    requires Editing(json, s, tail, start, to, done) && start < |s|
    modifies json
    ensures i == start + 1 + StringLength(s[start + 1..]) <= |s|
    ensures Editing(json, s, tail, i, into, done + s[start..i])
  {
    hide StringLength;
    Reading(json, s, tail, start, to, done);
    WriteByte(json, json[start], s, tail, start, to, done);
    i, into := start + 1, to + 1;
    assert s[start..i] == [s[start]];
    Reading(json, s, tail, i, into, done + s[start..i]);
    while json[i] != 0
      invariant start < i <= |s| && Editing(json, s, tail, i, into, done + s[start..i])
      invariant i + StringLength(s[i..]) == start + 1 + StringLength(s[start + 1..])
      invariant i < json.Length && (json[i] != 0 <==> i < |s|)
      decreases |s| - i
    {
      ghost var from := i;
      var last;
      last, i, into := CopyStringByte(json, i, into, s, tail, done + s[start..i]);
      JoinSlices(done, s, start, from, i);
      if last {
        return;
      }
      Reading(json, s, tail, i, into, done + s[start..i]);
    }
    NothingLeft(s, i);
  }

  lemma JoinSlices(done: seq<byte>, s: seq<byte>, a: nat, b: nat, c: nat)
    requires a <= b <= c <= |s|
    ensures done + s[a..b] + s[b..c] == done + s[a..c]
  {
    assert s[a..b] + s[b..c] == s[a..c];
  }

  lemma NothingLeft(s: seq<byte>, i: nat)
    requires i == |s|
    ensures StringLength(s[i..]) == 0
  {
  }

  /**
   * cJSON_Minify on a buffer that holds `s`, a NUL and more: it leaves the minified text, a NUL,
   * and every byte behind that as it was.
   */
  method Minify(json: array<byte>, ghost s: seq<byte>, ghost tail: seq<byte>)
    requires json[..] == s + [0] + tail && NulFree(s)
    modifies json
    ensures json[..] == Minified(s) + [0] + (s + [0] + tail)[|Minified(s)| + 1..]
  {
    hide Minified;
    var i: nat, into: nat := 0, 0;
    ghost var done := [];
    MinifiedNothing();
    assert [] + Minified(s[0..]) == Minified(s) by { assert s[0..] == s; }
    Reading(json, s, tail, i, into, done);
    hide Editing;
    while json[i] != 0
      invariant Editing(json, s, tail, i, into, done)
      invariant done + Minified(s[i..]) == Minified(s)
      invariant i < json.Length && (json[i] != 0 ==> i < |s|) && (json[i] == 0 ==> i == |s|)
      decreases |s| - i
    {
      Reading(json, s, tail, i, into, done);
      i, into, done := MinifyStep(json, i, into, s, tail, done);
      Reading(json, s, tail, i, into, done);
    }
    assert s[i..] == [] && done + [] == done;
    Terminate(json, i, into, s, tail, done);
  }

  lemma MinifiedNothing()
    ensures Minified([]) == []
  {
  }

  /** The final NUL. */
  method Terminate(
    json: array<byte>, ghost i: nat, into: nat, ghost s: seq<byte>, ghost tail: seq<byte>, ghost done: seq<byte>)
    requires Editing(json, s, tail, i, into, done)
    modifies json
    ensures json[..] == done + [0] + (s + [0] + tail)[|done| + 1..]
  {
    ghost var whole := s + [0] + tail;
    ghost var was := json[..];
    assert was[into + 1..] == whole[into..][1..] == whole[into + 1..];
    json[into] := 0;
    assert json[..] == was[..into] + [0] + was[into + 1..];
  }

  /** The switch's case of a slash: a comment of either kind, or a slash alone. */
  method SkipComment(
    json: array<byte>, start: nat, ghost s: seq<byte>, ghost tail: seq<byte>, ghost into: nat, ghost done: seq<byte>)
    returns (i: nat)
    requires Editing(json, s, tail, start, into, done) && start < |s| && s[start] == SLASH
    ensures start < i && Editing(json, s, tail, i, into, done)
    ensures Minified(s[i..]) == Minified(s[start..])
  {
    Reading(json, s, tail, start, into, done);
    ReadingOn(json, s, tail, start, into, done);
    hide Editing;
    if json[start + 1] == SLASH {
      i := SkipOnelineComment(json, start + 2, s, tail, into, done);
    } else if json[start + 1] == STAR {
      i := SkipMultilineComment(json, start + 2, s, tail, into, done);
    } else {
      i := start + 1;
    }
  }

  /** One round of the main loop: the switch over the byte that is read. */
  method MinifyStep(
    json: array<byte>, start: nat, to: nat, ghost s: seq<byte>, ghost tail: seq<byte>, ghost done: seq<byte>)
    returns (i: nat, into: nat, ghost written: seq<byte>)
    requires Editing(json, s, tail, start, to, done) && start < |s|
    modifies json
    ensures start < i && Editing(json, s, tail, i, into, written)
    ensures written + Minified(s[i..]) == done + Minified(s[start..])
  {
    Reading(json, s, tail, start, to, done);
    ReadingOn(json, s, tail, start, to, done);
    hide Editing;
    i, into, written := start, to, done;
    var b := json[i];
    if b == 32 || b == 9 || b == 13 || b == 10 {
      i := i + 1;
    } else if b == SLASH {
      i := SkipComment(json, i, s, tail, into, done);
    } else if b == QUOTE {
      i, into := MinifyString(json, i, into, s, tail, done);
      written := done + s[start..i];
      StringStep(s, start, i, done);
    } else {
      WriteByte(json, b, s, tail, i, into, done);
      i, into, written := i + 1, into + 1, done + [b];
      Assoc(done, [b], Minified(s[i..]));
    }
  }

  lemma StringStep(s: seq<byte>, start: nat, i: nat, done: seq<byte>)
    requires start < |s| && s[start] == QUOTE && i == start + 1 + StringLength(s[start + 1..]) <= |s|
    ensures done + s[start..i] + Minified(s[i..]) == done + Minified(s[start..])
  {
    assert s[start..][1..] == s[start + 1..];
    assert s[start..][..i - start] == s[start..i];
    assert s[start..][i - start..] == s[i..];
    Assoc(done, s[start..i], Minified(s[i..]));
  }

  // ---------- minifying twice ----------

  /** A copied string literal is found again at the front of any text that follows it. */
  lemma {:induction false} StringLengthLocal(s: seq<byte>, rest: seq<byte>)
    requires StringLength(s) == |s| ==> rest == []
    ensures StringLength(s[..StringLength(s)] + rest) == StringLength(s)
  {
    if |s| > 0 {
      hide StringLength;
      var n := StringLength(s);
      if s[0] == QUOTE {
        QuoteStops(s);
        QuoteStops(s[..1] + rest);
      } else if s[0] == BACKSLASH && |s| > 1 && s[1] == QUOTE {
        TailOfCopy(s, n, rest, 2);
        PairCopied(s);
        StringLengthLocal(s[2..], rest);
        PairCopied(s[..n] + rest);
      } else {
        FirstByteCopied(s);
        TailOfCopy(s, n, rest, 1);
        StringLengthLocal(s[1..], rest);
        EmptyStops(s[1..]);
        FirstByteCopied(s[..n] + rest);
      }
    }
  }

  lemma TailOfCopy(s: seq<byte>, n: nat, rest: seq<byte>, k: nat)
    requires n <= |s|
    ensures k <= n ==> (s[..n] + rest)[k..] == s[k..][..n - k] + rest
    ensures forall i :: 0 <= i < n ==> (s[..n] + rest)[i] == s[i]
  {
  }

  lemma PairCopied(s: seq<byte>)
    requires |s| > 1 && s[0] == BACKSLASH && s[1] == QUOTE
    ensures StringLength(s) == 2 + StringLength(s[2..])
  {
  }

  lemma QuoteStops(s: seq<byte>)
    requires |s| > 0 && s[0] == QUOTE
    ensures StringLength(s) == 1
  {
  }

  /** Only where there is nothing left is nothing copied. */
  lemma EmptyStops(s: seq<byte>)
    ensures StringLength(s) == 0 ==> |s| == 0
  {
  }

  /** A string in front of anything. */
  lemma QuoteMinified(s: seq<byte>, n: nat)
    requires |s| > 0 && s[0] == QUOTE && n == 1 + StringLength(s[1..])
    ensures n <= |s| && Minified(s) == s[..n] + Minified(s[n..])
  {
    assert !IsSpace(s[0]);
    hide StringLength, AfterLine, AfterBlock, IsSpace;
  }

  /** A string that has been copied is copied again. */
  lemma StringTwice(s: seq<byte>, n: nat, rest: seq<byte>)
    requires |s| > 0 && s[0] == QUOTE && n == 1 + StringLength(s[1..]) && Minified(rest) == rest
    requires n == |s| ==> rest == []
    ensures n <= |s| && Minified(s[..n] + rest) == s[..n] + rest
  {
    hide Minified, StringLength;
    StringLengthLocal(s[1..], rest);
    var t := s[..n] + rest;
    assert t[1..] == s[1..][..n - 1] + rest;
    assert t[..n] == s[..n] && t[n..] == rest;
    QuoteMinified(t, n);
  }

  /** Minifying is idempotent, on every text. */
  lemma {:induction false} MinifiedTwice(s: seq<byte>)
    ensures Minified(Minified(s)) == Minified(s)
    decreases |s|
  {
    if |s| == 0 {
    } else if IsSpace(s[0]) {
      MinifiedTwice(s[1..]);
    } else if s[0] == SLASH {
      if |s| > 1 && s[1] == SLASH {
        MinifiedTwice(AfterLine(s[2..]));
      } else if |s| > 1 && s[1] == STAR {
        MinifiedTwice(AfterBlock(s[2..]));
      } else {
        MinifiedTwice(s[1..]);
      }
    } else if s[0] == QUOTE {
      var n := 1 + StringLength(s[1..]);
      MinifiedTwice(s[n..]);
      QuoteMinified(s, n);
      StringTwice(s, n, Minified(s[n..]));
    } else {
      MinifiedTwice(s[1..]);
      assert ([s[0]] + Minified(s[1..]))[1..] == Minified(s[1..]);
    }
  }

  // ---------- insignificant white space ----------

  /**
   * The lexemes of a JSON text with comments: a string literal, any other byte of a token (a bracket, a brace, a
   * colon, a comma, or a character of a number or a name), and what stands between tokens: a byte of white space, a
   * comment up to the end of the line, a comment up to its end mark, one of either kind that the text ends in, and a
   * slash that begins no comment.
   */
  datatype Lexeme =
    | Literal(pieces: seq<Piece>)
    | Mark(c: byte)
    | Space(b: byte)
    | LineComment(words: seq<byte>)
    | BlockComment(words: seq<byte>)
    | OpenLine(words: seq<byte>)
    | OpenBlock(words: seq<byte>)
    | Slash

  predicate IsGap(x: Lexeme) {
    !x.Literal? && !x.Mark?
  }

  /** The words of a comment and what stands behind them have an end mark at no earlier place. */
  predicate HasNoEndMark(words: seq<byte>) {
    forall i :: 0 <= i < |words| - 1 ==> words[i] != STAR || words[i + 1] != SLASH
  }

  ghost predicate ValidLexeme(x: Lexeme) {
    match x
    case Literal(pieces) => ValidPieces(pieces)
    case Mark(c) => !IsSpace(c) && c != QUOTE && c != BACKSLASH && c != SLASH && c != 0
    case Space(b) => IsSpace(b)
    case LineComment(words) => NEWLINE !in words
    case BlockComment(words) => HasNoEndMark(words + [STAR])
    case _ => false
  }

  /** Lexemes in an order in which they can stand: a comment without its end is the last one. */
  ghost predicate Lexed(xs: seq<Lexeme>) {
    |xs| > 0 ==>
      match xs[0]
      case Slash => Lexed(xs[1..]) && !GoesOnAsComment(TextOf(xs[1..]))
      case OpenLine(words) => |xs| == 1 && NEWLINE !in words
      case OpenBlock(words) => |xs| == 1 && HasNoEndMark(words)
      case _ => ValidLexeme(xs[0]) && Lexed(xs[1..])
  }

  /** A slash in front of it begins a comment. */
  predicate GoesOnAsComment(w: seq<byte>) {
    |w| > 0 && (w[0] == SLASH || w[0] == STAR)
  }

  ghost predicate ValidLexemes(xs: seq<Lexeme>) {
    forall i :: 0 <= i < |xs| ==> ValidLexeme(xs[i])
  }

  ghost function LexemeText(x: Lexeme): seq<byte> {
    match x
    case Literal(pieces) => [QUOTE] + LiteralText(pieces) + [QUOTE]
    case Mark(c) => [c]
    case Space(b) => [b]
    case LineComment(words) => [SLASH, SLASH] + (words + [NEWLINE])
    case BlockComment(words) => [SLASH, STAR] + (words + [STAR, SLASH])
    case OpenLine(words) => [SLASH, SLASH] + words
    case OpenBlock(words) => [SLASH, STAR] + words
    case Slash => [SLASH]
  }

  ghost function TextOf(xs: seq<Lexeme>): seq<byte> {
    if |xs| == 0 then [] else LexemeText(xs[0]) + TextOf(xs[1..])
  }

  /** The lexemes without the white space and the comments between them. */
  ghost function Tokens(xs: seq<Lexeme>): seq<Lexeme> {
    if |xs| == 0 then [] else (if IsGap(xs[0]) then [] else [xs[0]]) + Tokens(xs[1..])
  }

  /** The last piece of a literal is an escaped backslash. */
  ghost predicate EndsInBackslash(ps: seq<Piece>) {
    |ps| > 0 && ps[|ps| - 1] == Short(BACKSLASH)
  }

  ghost predicate Misread(x: Lexeme) {
    x.Literal? && EndsInBackslash(x.pieces)
  }

  ghost predicate NoneMisread(xs: seq<Lexeme>) {
    forall i :: 0 <= i < |xs| ==> !Misread(xs[i])
  }

  /** No piece starts with a quote. */
  lemma PieceStarts(p: Piece)
    requires ValidPiece(p)
    ensures |PieceText(p)| > 0 && PieceText(p)[0] != QUOTE
    ensures p == Short(QUOTE) || p == Short(BACKSLASH)
      || (forall k :: 1 <= k < |PieceText(p)| ==> PieceText(p)[k] != QUOTE && PieceText(p)[k] != BACKSLASH)
  {
  }

  /** Bytes that are neither quotes nor backslashes are copied one by one. */
  lemma {:induction false} PlainBytesCopied(u: seq<byte>, t: seq<byte>)
    requires forall k :: 0 <= k < |u| ==> u[k] != QUOTE && u[k] != BACKSLASH
    ensures StringLength(u + t) == |u| + StringLength(t)
  {
    if |u| == 0 {
      assert u + t == t;
    } else {
      assert (u + t)[1..] == u[1..] + t;
      PlainBytesCopied(u[1..], t);
    }
  }

  /** A piece in front of anything that does not start with a quote is copied whole. */
  lemma PieceCopied(p: Piece, t: seq<byte>)
    requires ValidPiece(p) && (p == Short(BACKSLASH) ==> |t| == 0 || t[0] != QUOTE)
    ensures StringLength(PieceText(p) + t) == |PieceText(p)| + StringLength(t)
  {
    if p == Short(QUOTE) {
      EscapedQuote(t);
    } else if p == Short(BACKSLASH) {
      EscapedBackslash(t);
    } else {
      OtherCopied(p, t);
    }
  }

  lemma OtherCopied(p: Piece, t: seq<byte>)
    requires ValidPiece(p) && p != Short(QUOTE) && p != Short(BACKSLASH)
    ensures StringLength(PieceText(p) + t) == |PieceText(p)| + StringLength(t)
  {
    PieceStarts(p);
    hide PieceText, StringLength, ValidPiece;
    var w := PieceText(p) + t;
    assert w[1..] == PieceText(p)[1..] + t;
    PlainBytesCopied(PieceText(p)[1..], t);
    FirstByteCopied(w);
  }

  lemma EscapedQuote(t: seq<byte>)
    ensures StringLength([BACKSLASH, QUOTE] + t) == 2 + StringLength(t)
  {
    assert ([BACKSLASH, QUOTE] + t)[2..] == t;
  }

  lemma EscapedBackslash(t: seq<byte>)
    requires |t| == 0 || t[0] != QUOTE
    ensures StringLength([BACKSLASH, BACKSLASH] + t) == 2 + StringLength(t)
  {
    var w, v := [BACKSLASH, BACKSLASH] + t, [BACKSLASH] + t;
    assert w[1..] == v && v[1..] == t;
    FirstByteCopied(w);
    FirstByteCopied(v);
  }

  lemma FirstByteCopied(w: seq<byte>)
    requires |w| > 0 && w[0] != QUOTE && (w[0] == BACKSLASH && |w| > 1 ==> w[1] != QUOTE)
    ensures StringLength(w) == 1 + StringLength(w[1..])
  {
  }

  /** minify_string finds the right closing quote, unless it misreads the literal. */
  lemma {:induction false} LiteralCopied(ps: seq<Piece>, t: seq<byte>)
    requires ValidPieces(ps) && !EndsInBackslash(ps)
    ensures StringLength(LiteralText(ps) + ([QUOTE] + t)) == |LiteralText(ps)| + 1
  {
    if |ps| == 0 {
      assert LiteralText(ps) + ([QUOTE] + t) == [QUOTE] + t;
    } else {
      var rest := LiteralText(ps[1..]) + ([QUOTE] + t);
      if |ps| > 1 {
        assert ValidPiece(ps[1]) && ps[1..][0] == ps[1];
        PieceStarts(ps[1]);
        assert rest[0] == PieceText(ps[1])[0];
      }
      LiteralCopied(ps[1..], t);
      PieceCopied(ps[0], rest);
      Assoc(PieceText(ps[0]), LiteralText(ps[1..]), [QUOTE] + t);
    }
  }

  /** minify_string runs past the closing quote of a literal that ends in an escaped backslash. */
  lemma {:induction false} LiteralOverrun(ps: seq<Piece>, t: seq<byte>)
    requires ValidPieces(ps) && EndsInBackslash(ps)
    ensures StringLength(LiteralText(ps) + ([QUOTE] + t)) == |LiteralText(ps)| + 1 + StringLength(t)
  {
    var rest := LiteralText(ps[1..]) + ([QUOTE] + t);
    Assoc(PieceText(ps[0]), LiteralText(ps[1..]), [QUOTE] + t);
    if |ps| == 1 {
      var w := LiteralText(ps) + ([QUOTE] + t);
      assert LiteralText(ps) == [BACKSLASH, BACKSLASH];
      assert w[1..] == [BACKSLASH, QUOTE] + t;
      assert ([BACKSLASH, QUOTE] + t)[2..] == t;
    } else {
      assert ValidPiece(ps[1]) && ps[1..][0] == ps[1];
      PieceStarts(ps[1]);
      assert rest[0] == PieceText(ps[1])[0];
      LiteralOverrun(ps[1..], t);
      PieceCopied(ps[0], rest);
    }
  }

  lemma LiteralSplit(ps: seq<Piece>, t: seq<byte>)
    ensures var w := LexemeText(Literal(ps)) + t;
            w[0] == QUOTE && w[1..] == LiteralText(ps) + ([QUOTE] + t)
  {
  }

  /** A lexeme that is not misread is dropped or kept as a whole. */
  lemma LexemeMinified(x: Lexeme, t: seq<byte>)
    requires ValidLexeme(x) && !Misread(x)
    ensures Minified(LexemeText(x) + t) == (if IsGap(x) then [] else LexemeText(x)) + Minified(t)
  {
    var w := LexemeText(x) + t;
    if x.Literal? {
      LiteralSplit(x.pieces, t);
      LiteralCopied(x.pieces, t);
      var n := |LiteralText(x.pieces)| + 2;
      assert w[..n] == LexemeText(x) && w[n..] == t;
    } else if x.Mark? {
      assert w[1..] == t;
    } else {
      GapMinified(x, t);
    }
  }

  // ---------- white space and comments ----------

  lemma {:induction false} AfterLineIs(words: seq<byte>, t: seq<byte>)
    requires NEWLINE !in words
    ensures AfterLine(words + ([NEWLINE] + t)) == t && AfterLine(words) == []
  {
    var w := words + ([NEWLINE] + t);
    if |words| == 0 {
      assert w[1..] == t;
    } else {
      assert w[1..] == words[1..] + ([NEWLINE] + t);
      AfterLineIs(words[1..], t);
    }
  }

  lemma {:induction false} AfterBlockIs(words: seq<byte>, t: seq<byte>)
    requires HasNoEndMark(words + [STAR])
    ensures AfterBlock(words + ([STAR, SLASH] + t)) == t
  {
    var w := words + ([STAR, SLASH] + t);
    if |words| == 0 {
      assert w[2..] == t;
    } else {
      assert w[1..] == words[1..] + ([STAR, SLASH] + t);
      assert (words + [STAR])[0] != STAR || (words + [STAR])[1] != SLASH;
      assert w[1] == (words + [STAR])[1];
      assert words[1..] + [STAR] == (words + [STAR])[1..];
      AfterBlockIs(words[1..], t);
    }
  }

  lemma {:induction false} AfterOpenBlockIs(words: seq<byte>)
    requires HasNoEndMark(words)
    ensures AfterBlock(words) == []
  {
    if |words| > 0 {
      AfterOpenBlockIs(words[1..]);
    }
  }

  /** White space and comments are taken away, wherever they stand outside of strings. */
  lemma GapMinified(x: Lexeme, t: seq<byte>)
    requires IsGap(x)
    requires match x {
               case Slash => !GoesOnAsComment(t)
               case OpenLine(words) => NEWLINE !in words && t == []
               case OpenBlock(words) => HasNoEndMark(words) && t == []
               case _ => ValidLexeme(x)
             }
    ensures Minified(LexemeText(x) + t) == Minified(t)
  {
    hide Minified, HasNoEndMark;
    var w := LexemeText(x) + t;
    match x
    case Space(_) =>
      assert w[1..] == t;
      DropStep(w);
    case Slash =>
      assert w[1..] == t;
      DropStep(w);
    case LineComment(_) => CommentMinified(x, t);
    case BlockComment(_) => CommentMinified(x, t);
    case OpenLine(words) =>
      assert w[2..] == words;
      CommentStep(w);
      AfterLineIs(words, []);
    case OpenBlock(words) =>
      assert w[2..] == words;
      CommentStep(w);
      AfterOpenBlockIs(words);
  }

  lemma CommentMinified(x: Lexeme, t: seq<byte>)
    requires (x.LineComment? || x.BlockComment?) && ValidLexeme(x)
    ensures Minified(LexemeText(x) + t) == Minified(t)
  {
    hide Minified, HasNoEndMark;
    var w := LexemeText(x) + t;
    var end := if x.LineComment? then [NEWLINE] else [STAR, SLASH];
    assert w[2..] == x.words + (end + t);
    CommentStep(w);
    if x.LineComment? {
      AfterLineIs(x.words, t);
    } else {
      AfterBlockIs(x.words, t);
    }
  }

  lemma DropStep(w: seq<byte>)
    requires |w| > 0 && (IsSpace(w[0]) || (w[0] == SLASH && !GoesOnAsComment(w[1..])))
    ensures Minified(w) == Minified(w[1..])
  {
  }

  lemma CommentStep(w: seq<byte>)
    requires |w| > 1 && w[0] == SLASH && (w[1] == SLASH || w[1] == STAR)
    ensures Minified(w) == Minified(if w[1] == SLASH then AfterLine(w[2..]) else AfterBlock(w[2..]))
  {
    hide AfterLine, AfterBlock;
  }

  /** As long as nothing is misread, minifying leaves exactly the tokens. */
  lemma {:induction false} TokensRemain(xs: seq<Lexeme>, t: seq<byte>)
    requires ValidLexemes(xs) && NoneMisread(xs)
    ensures Minified(TextOf(xs) + t) == TextOf(Tokens(xs)) + Minified(t)
  {
    if |xs| == 0 {
      assert TextOf(xs) + t == t;
    } else {
      Assoc(LexemeText(xs[0]), TextOf(xs[1..]), t);
      LexemeMinified(xs[0], TextOf(xs[1..]) + t);
      TokensRemain(xs[1..], t);
      if IsGap(xs[0]) {
        assert Tokens(xs) == Tokens(xs[1..]);
      } else {
        assert Tokens(xs)[1..] == Tokens(xs[1..]);
        Assoc(LexemeText(xs[0]), TextOf(Tokens(xs[1..])), Minified(t));
      }
    }
  }

  lemma {:induction false} TextOfConcat(xs: seq<Lexeme>, ys: seq<Lexeme>)
    ensures TextOf(xs + ys) == TextOf(xs) + TextOf(ys)
  {
    if |xs| == 0 {
      assert xs + ys == ys;
    } else {
      assert (xs + ys)[1..] == xs[1..] + ys;
      TextOfConcat(xs[1..], ys);
      Assoc(LexemeText(xs[0]), TextOf(xs[1..]), TextOf(ys));
    }
  }

  lemma {:induction false} TokensOfTokens(xs: seq<Lexeme>)
    requires forall i :: 0 <= i < |xs| ==> !IsGap(xs[i])
    ensures Tokens(xs) == xs
  {
    if |xs| > 0 {
      TokensOfTokens(xs[1..]);
    }
  }

  lemma {:induction false} TokensConcat(xs: seq<Lexeme>, ys: seq<Lexeme>)
    ensures Tokens(xs + ys) == Tokens(xs) + Tokens(ys)
  {
    if |xs| == 0 {
      assert xs + ys == ys;
    } else {
      assert (xs + ys)[1..] == xs[1..] + ys;
      TokensConcat(xs[1..], ys);
    }
  }

  // ---------- one text ----------

  /** What is written when the loop goes on outside of a string, or inside of one. */
  function Rest(s: seq<byte>, inside: bool): seq<byte> {
    if inside then s[..StringLength(s)] + Minified(s[StringLength(s)..]) else Minified(s)
  }

  /**
   * Reading w byte by byte: whether the code is inside of a string behind it, if it has copied all of it. Outside of
   * a string white space and slashes are not copied; inside, a backslash in front of a quote keeps the string open.
   */
  function Through(w: seq<byte>, inside: bool): Option<bool> {
    if |w| == 0 then Some(inside)
    else if inside then
      if w[0] == BACKSLASH && |w| > 1 && w[1] == QUOTE then Through(w[2..], true)
      else Through(w[1..], w[0] != QUOTE)
    else if IsSpace(w[0]) || w[0] == SLASH then None
    else Through(w[1..], w[0] == QUOTE)
  }

  /** All white space and all comments are met outside of strings, and all literals are copied whole. */
  ghost predicate Clean(xs: seq<Lexeme>, inside: bool) {
    |xs| > 0 ==>
      if IsGap(xs[0]) then !inside && Clean(xs[1..], false)
      else
        match Through(LexemeText(xs[0]), inside)
        case None => false
        case Some(after) => Clean(xs[1..], after)
  }

  lemma RestOfNothing(inside: bool)
    ensures Rest([], inside) == []
  {
  }

  /** One byte, or two for an escaped quote. */
  lemma RestStep(s: seq<byte>, inside: bool)
    requires |s| > 0
    ensures inside && s[0] == BACKSLASH && |s| > 1 && s[1] == QUOTE ==> Rest(s, true) == s[..2] + Rest(s[2..], true)
    ensures inside && !(s[0] == BACKSLASH && |s| > 1 && s[1] == QUOTE)
            ==> Rest(s, true) == [s[0]] + Rest(s[1..], s[0] != QUOTE)
    ensures !inside && !IsSpace(s[0]) && s[0] != SLASH ==> Rest(s, false) == [s[0]] + Rest(s[1..], s[0] == QUOTE)
    ensures !inside && IsSpace(s[0]) ==> Rest(s, false) == Rest(s[1..], false)
  {
    if inside {
      InsideStep(s);
    } else if s[0] == QUOTE {
      QuoteMinified(s, 1 + StringLength(s[1..]));
      var n := StringLength(s[1..]);
      assert s[..1 + n] == [s[0]] + s[1..][..n] && s[1 + n..] == s[1..][n..];
      hide Minified, StringLength;
      Assoc([s[0]], s[1..][..n], Minified(s[1..][n..]));
    }
  }

  lemma InsideStep(s: seq<byte>)
    requires |s| > 0
    ensures s[0] == BACKSLASH && |s| > 1 && s[1] == QUOTE ==> Rest(s, true) == s[..2] + Rest(s[2..], true)
    ensures !(s[0] == BACKSLASH && |s| > 1 && s[1] == QUOTE)
            ==> Rest(s, true) == [s[0]] + Rest(s[1..], s[0] != QUOTE)
  {
    hide Minified;
    var k := if s[0] == BACKSLASH && |s| > 1 && s[1] == QUOTE then 2 else 1;
    if s[0] != QUOTE {
      var n := StringLength(s[k..]);
      assert StringLength(s) == k + n;
      assert s[..k + n] == s[..k] + s[k..][..n] && s[k + n..] == s[k..][n..];
      Assoc(s[..k], s[k..][..n], Minified(s[k..][n..]));
      assert k == 1 ==> s[..1] == [s[0]];
    } else {
      assert s[..1] == [s[0]];
    }
  }

  /** Outside of a string neither white space nor a slash is ever written. */
  lemma {:induction false} FirstWritten(s: seq<byte>)
    ensures |Minified(s)| > 0 ==> !IsSpace(Minified(s)[0]) && Minified(s)[0] != SLASH
    decreases |s|
  {
    if |s| > 0 {
      if IsSpace(s[0]) {
        FirstWritten(s[1..]);
      } else if s[0] == SLASH {
        if |s| > 1 && s[1] == SLASH {
          FirstWritten(AfterLine(s[2..]));
        } else if |s| > 1 && s[1] == STAR {
          FirstWritten(AfterBlock(s[2..]));
        } else {
          FirstWritten(s[1..]);
        }
      }
    }
  }

  /** What `Through` says of a word that does not end in a backslash, in front of anything. */
  lemma {:induction false} WordWritten(w: seq<byte>, inside: bool, t: seq<byte>)
    requires |w| > 0 ==> w[|w| - 1] != BACKSLASH
    ensures match Through(w, inside) {
              case Some(after) => Rest(w + t, inside) == w + Rest(t, after)
              case None => !(w <= Rest(w + t, inside))
            }
    decreases |w|
  {
    hide Minified, StringLength, Rest;
    if |w| == 0 {
      assert w + t == t;
    } else if !inside && (IsSpace(w[0]) || w[0] == SLASH) {
      RestOutside(w + t);
      FirstWritten(w + t);
    } else {
      var k := if inside && w[0] == BACKSLASH && |w| > 1 && w[1] == QUOTE then 2 else 1;
      var after := if k == 2 then true else if inside then w[0] != QUOTE else w[0] == QUOTE;
      assert (w + t)[k..] == w[k..] + t && (w + t)[..k] == w[..k];
      RestStep(w + t, inside);
      assert k == 1 ==> w[..1] == [w[0]];
      assert Rest(w + t, inside) == w[..k] + Rest(w[k..] + t, after);
      WordWritten(w[k..], after, t);
      assert w == w[..k] + w[k..];
      BehindPrefix(w[..k], w[k..], Rest(w[k..] + t, after));
      if Through(w[k..], after).Some? {
        Assoc(w[..k], w[k..], Rest(t, Through(w[k..], after).value));
      }
    }
  }

  lemma RestOutside(s: seq<byte>)
    ensures Rest(s, false) == Minified(s)
  {
  }

  lemma BehindPrefix(u: seq<byte>, v: seq<byte>, s: seq<byte>)
    ensures u + v <= u + s <==> v <= s
  {
    if u + v <= u + s {
      assert forall i :: 0 <= i < |v| ==> v[i] == (u + v)[|u| + i] == (u + s)[|u| + i] == s[i];
    }
  }

  lemma LexemeEnds(x: Lexeme)
    requires ValidLexeme(x) && !IsGap(x)
    ensures |LexemeText(x)| > 0 && LexemeText(x)[|LexemeText(x)| - 1] != BACKSLASH
    ensures !IsSpace(LexemeText(x)[0]) && LexemeText(x)[0] != SLASH
  {
  }

  lemma Unspaced(xs: seq<Lexeme>)
    requires Lexed(xs)
    ensures var r := TextOf(Tokens(xs)); |r| > 0 ==> !IsSpace(r[0]) && r[0] != SLASH
  {
    if |xs| > 0 {
      if IsGap(xs[0]) {
        assert Tokens(xs) == Tokens(xs[1..]);
        Unspaced(xs[1..]);
      } else {
        assert ValidLexeme(xs[0]);
        LexemeEnds(xs[0]);
      }
    }
  }

  lemma TokensStep(xs: seq<Lexeme>)
    requires |xs| > 0
    ensures TextOf(xs) == LexemeText(xs[0]) + TextOf(xs[1..])
    ensures TextOf(Tokens(xs)) == (if IsGap(xs[0]) then [] else LexemeText(xs[0])) + TextOf(Tokens(xs[1..]))
  {
    if IsGap(xs[0]) {
      assert Tokens(xs) == Tokens(xs[1..]);
    } else {
      assert Tokens(xs)[1..] == Tokens(xs[1..]);
    }
  }

  lemma {:induction false} WrittenExactly(xs: seq<Lexeme>, inside: bool)
    requires Lexed(xs)
    ensures Rest(TextOf(xs), inside) == TextOf(Tokens(xs)) <==> Clean(xs, inside)
  {
    hide Minified, StringLength, Rest, Through, TextOf, Tokens, LexemeText;
    if |xs| == 0 {
      NoText();
      RestOfNothing(inside);
    } else {
      var x, w, t := xs[0], LexemeText(xs[0]), TextOf(xs[1..]);
      TokensStep(xs);
      if IsGap(x) {
        LastIsLast(xs);
        GapStarts(x, t);
        if inside {
          RestStep(TextOf(xs), true);
          Unspaced(xs);
        } else {
          GapMinified(x, t);
          RestOutside(TextOf(xs));
          RestOutside(t);
          WrittenExactly(xs[1..], false);
        }
      } else {
        LexemeEnds(x);
        WordWritten(w, inside, t);
        match Through(w, inside) {
          case None =>
          case Some(after) =>
            WrittenExactly(xs[1..], after);
            SameBehind(w, Rest(t, after), TextOf(Tokens(xs[1..])));
        }
      }
    }
  }

  lemma LastIsLast(xs: seq<Lexeme>)
    requires Lexed(xs) && |xs| > 0
    ensures Lexed(xs[1..])
    ensures xs[0].OpenLine? || xs[0].OpenBlock? ==> TextOf(xs[1..]) == []
  {
  }

  lemma GapStarts(x: Lexeme, t: seq<byte>)
    requires IsGap(x) && (x.Space? ==> IsSpace(x.b))
    ensures var s := LexemeText(x) + t; |s| > 0 && (IsSpace(s[0]) || s[0] == SLASH)
  {
  }

  lemma NoText()
    ensures TextOf([]) == [] && Tokens([]) == []
  {
  }

  lemma SameBehind(u: seq<byte>, v: seq<byte>, w: seq<byte>)
    ensures u + v == u + w <==> v == w
  {
    if u + v == u + w {
      assert (u + v)[|u|..] == v && (u + w)[|u|..] == w;
    }
  }

  ghost predicate RemovesSpace(xs: seq<Lexeme>) {
    Minified(TextOf(xs)) == TextOf(Tokens(xs))
  }

  /**
   * When cJSON_Minify deletes exactly the insignificant white space and the comments of one given text: if and only
   * if the code is outside of a string at all of them, and copies all literals whole.
   */
  lemma RemovesSpaceExactly(xs: seq<Lexeme>)
    requires Lexed(xs)
    ensures RemovesSpace(xs) <==> Clean(xs, false)
  {
    WrittenExactly(xs, false);
    RestOutside(TextOf(xs));
  }

  lemma {:induction false} PlainThrough(u: seq<byte>, w: seq<byte>)
    requires forall k :: 0 <= k < |u| ==> u[k] != QUOTE && u[k] != BACKSLASH
    ensures Through(u + w, true) == Through(w, true)
  {
    if |u| == 0 {
      assert u + w == w;
    } else {
      assert (u + w)[1..] == u[1..] + w;
      PlainThrough(u[1..], w);
    }
  }

  /** A piece leaves the string open. */
  lemma PieceThrough(p: Piece, w: seq<byte>)
    requires ValidPiece(p) && (p == Short(BACKSLASH) ==> |w| == 0 || w[0] != QUOTE)
    ensures Through(PieceText(p) + w, true) == Through(w, true)
  {
    var s := PieceText(p) + w;
    if p == Short(QUOTE) {
      assert s[2..] == w;
    } else if p == Short(BACKSLASH) {
      assert s[1..][1..] == w;
    } else {
      PieceStarts(p);
      assert s[1..] == PieceText(p)[1..] + w;
      PlainThrough(PieceText(p)[1..], w);
      hide PieceText;
    }
  }

  lemma {:induction false} PiecesThrough(ps: seq<Piece>)
    requires ValidPieces(ps)
    ensures Through(LiteralText(ps) + [QUOTE], true) == Some(EndsInBackslash(ps))
  {
    if |ps| == 0 {
      assert LiteralText(ps) + [QUOTE] == [QUOTE];
    } else if ps == [Short(BACKSLASH)] {
      var s := LiteralText(ps) + [QUOTE];
      assert LiteralText(ps) == [BACKSLASH, BACKSLASH];
      assert s[1..] == [BACKSLASH, QUOTE] && s[1..][2..] == [];
      assert Through(s[1..], true) == Through([], true) == Some(true);
    } else {
      var rest := LiteralText(ps[1..]) + [QUOTE];
      Assoc(PieceText(ps[0]), LiteralText(ps[1..]), [QUOTE]);
      if |ps| > 1 {
        assert ValidPiece(ps[1]) && ps[1..][0] == ps[1];
        PieceStarts(ps[1]);
        assert rest[0] == PieceText(ps[1])[0];
      }
      PiecesThrough(ps[1..]);
      PieceThrough(ps[0], rest);
    }
  }

  /** Outside of a string a literal is copied whole, and the state behind it says whether it has been misread. */
  lemma LiteralThrough(ps: seq<Piece>)
    requires ValidPieces(ps)
    ensures Through(LexemeText(Literal(ps)), false) == Some(EndsInBackslash(ps))
  {
    var s := LexemeText(Literal(ps));
    assert s[1..] == LiteralText(ps) + [QUOTE];
    PiecesThrough(ps);
  }

  /** Up to the first misread literal the code is in step with the text. */
  lemma {:induction false} CleanUpTo(xs: seq<Lexeme>, ys: seq<Lexeme>)
    requires (forall i :: 0 <= i < |xs| ==> IsGap(xs[i]) || ValidLexeme(xs[i])) && NoneMisread(xs)
    ensures Clean(xs + ys, false) <==> Clean(ys, false)
  {
    hide Through, LexemeText, EndsInBackslash, ValidPieces;
    if |xs| == 0 {
      assert xs + ys == ys;
    } else {
      assert (IsGap(xs[0]) || ValidLexeme(xs[0])) && (xs + ys)[1..] == xs[1..] + ys;
      CleanUpTo(xs[1..], ys);
      if xs[0].Literal? {
        assert !Misread(xs[0]);
        LiteralThrough(xs[0].pieces);
      } else if xs[0].Mark? {
        MarkThrough(xs[0].c);
      }
    }
  }

  lemma {:induction false} ValidIsLexed(xs: seq<Lexeme>)
    requires ValidLexemes(xs)
    ensures Lexed(xs)
  {
    if |xs| > 0 {
      assert ValidLexeme(xs[0]);
      ValidIsLexed(xs[1..]);
    }
  }

  lemma {:induction false} TokensAreValid(xs: seq<Lexeme>)
    requires Lexed(xs)
    ensures forall i :: 0 <= i < |xs| ==> IsGap(xs[i]) || ValidLexeme(xs[i])
  {
    if |xs| > 0 {
      TokensAreValid(xs[1..]);
      assert forall i :: 1 <= i < |xs| ==> xs[i] == xs[1..][i - 1];
    }
  }

  lemma MarkThrough(c: byte)
    requires ValidLexeme(Mark(c))
    ensures Through(LexemeText(Mark(c)), false) == Some(false)
  {
  }

  // ---------- all texts of the same tokens ----------

  /**
   * Where cJSON_Minify fails: a space behind the first literal that ends in an escaped backslash
   * stays in the text.
   */
  lemma MisreadWitness(ts: seq<Lexeme>, k: nat)
    requires ValidLexemes(ts) && forall i :: 0 <= i < |ts| ==> !IsGap(ts[i])
    requires k < |ts| && Misread(ts[k]) && NoneMisread(ts[..k])
    ensures var xs := ts[..k + 1] + [Space(SPACE)] + ts[k + 1..];
            ValidLexemes(xs) && Tokens(xs) == ts && Minified(TextOf(xs)) != TextOf(ts)
  {
    hide Minified, TextOf, Tokens, EndsInBackslash, ValidPieces, Through, LexemeText;
    var before, x, after := ts[..k], ts[k], ts[k + 1..];
    var xs := before + ([x] + ([Space(SPACE)] + after));
    assert ValidLexeme(x);
    assert ts == before + ([x] + after);
    assert ts[..k + 1] + [Space(SPACE)] + after == xs;
    TokensOfTokens(before);
    WitnessTokens(before, x, after);
    CleanUpTo(before, [x] + ([Space(SPACE)] + after));
    LiteralThrough(x.pieces);
    assert !Clean([Space(SPACE)] + after, true);
    assert ([x] + ([Space(SPACE)] + after))[1..] == [Space(SPACE)] + after;
    ValidIsLexed(xs);
    RemovesSpaceExactly(xs);
  }

  lemma WitnessTokens(before: seq<Lexeme>, x: Lexeme, after: seq<Lexeme>)
    requires Tokens(before) == before && !IsGap(x)
    requires forall i :: 0 <= i < |after| ==> !IsGap(after[i])
    ensures Tokens(before + ([x] + ([Space(SPACE)] + after))) == before + ([x] + after)
  {
    TokensConcat(before, [x] + ([Space(SPACE)] + after));
    TokensConcat([x], [Space(SPACE)] + after);
    TokensConcat([Space(SPACE)], after);
    TokensOfTokens(after);
    TokensOfTokens([x]);
    assert [] + after == after;
  }

  /**
   * cJSON_Minify deletes exactly the insignificant white space and the comments, wherever they may stand between
   * the tokens `ts`, if and only if no string literal among them ends in an escaped backslash.
   */
  lemma MinifyRemovesSpace(ts: seq<Lexeme>)
    requires ValidLexemes(ts) && Tokens(ts) == ts
    ensures NoneMisread(ts)
       <==> (forall xs :: Lexed(xs) && Tokens(xs) == ts ==> RemovesSpace(xs))
  {
    hide *;
    if NoneMisread(ts) {
      forall xs | Lexed(xs) && Tokens(xs) == ts
        ensures RemovesSpace(xs)
      {
        RemovedWhereRead(xs);
      }
    } else {
      var xs := KeptWhereMisread(ts);
      assert Lexed(xs) && Tokens(xs) == ts && !RemovesSpace(xs);
    }
  }

  lemma RemovedWhereRead(xs: seq<Lexeme>)
    requires Lexed(xs) && NoneMisread(Tokens(xs))
    ensures RemovesSpace(xs)
  {
    hide TextOf, Tokens, NoneMisread, ValidLexemes, RemovesSpace;
    MisreadIsKept(xs);
    assert xs + [] == xs;
    TokensAreValid(xs);
    CleanUpTo(xs, []);
    RemovesSpaceExactly(xs);
  }

  lemma KeptWhereMisread(ts: seq<Lexeme>) returns (xs: seq<Lexeme>)
    requires ValidLexemes(ts) && Tokens(ts) == ts && !NoneMisread(ts)
    ensures Lexed(xs) && Tokens(xs) == ts && !RemovesSpace(xs)
  {
    hide TextOf, Tokens, Minified, NoneMisread, ValidLexemes;
    TokensHaveNoSpace(ts);
    var k := FirstMisread(ts);
    MisreadWitness(ts, k);
    xs := ts[..k + 1] + [Space(SPACE)] + ts[k + 1..];
    ValidIsLexed(xs);
  }

  lemma {:induction false} TokensHaveNoSpace(xs: seq<Lexeme>)
    ensures forall i :: 0 <= i < |Tokens(xs)| ==> !IsGap(Tokens(xs)[i])
  {
    if |xs| > 0 {
      TokensHaveNoSpace(xs[1..]);
    }
  }

  lemma {:induction false} MisreadIsKept(xs: seq<Lexeme>)
    requires NoneMisread(Tokens(xs))
    ensures NoneMisread(xs)
  {
    if |xs| > 0 {
      var rest := Tokens(xs[1..]);
      assert rest == if IsGap(xs[0]) then Tokens(xs) else Tokens(xs)[1..];
      MisreadIsKept(xs[1..]);
      assert !IsGap(xs[0]) ==> Tokens(xs)[0] == xs[0];
      assert forall i :: 1 <= i < |xs| ==> xs[i] == xs[1..][i - 1];
    }
  }

  lemma {:induction false} FirstMisread(ts: seq<Lexeme>) returns (k: nat)
    requires !NoneMisread(ts)
    ensures k < |ts| && Misread(ts[k]) && NoneMisread(ts[..k])
  {
    if Misread(ts[0]) {
      k := 0;
    } else {
      assert forall i :: 1 <= i < |ts| ==> ts[i] == ts[1..][i - 1];
      var j := FirstMisread(ts[1..]);
      k := j + 1;
      assert forall i :: 1 <= i < k ==> ts[..k][i] == ts[1..][..j][i - 1];
    }
  }
}
