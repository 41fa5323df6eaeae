/** The parser of cJSON.c: a cursor over the text, moved by recursive routines. */
module JsonParser {
  import opened Bytes
  import opened JsonTree
  import opened JsonRender
  import opened JsonString
  import opened JsonNumber
  import opened JsonGrammar

  class ParseBuffer {
    const content: seq<byte>
    var offset: nat
    var depth: nat

    ghost predicate Valid()
      reads this
    {
      Terminated(content) && offset < |content| && depth <= NESTING_LIMIT
    }

    constructor (value: seq<byte>)
      ensures content == value + [0] && offset == 0 && depth == 0 && Valid()
    {
      content := value + [0];
      offset := 0;
      depth := 0;
    }

    /** buffer_skip_whitespace */
    method SkipWhitespace()
      requires Valid()
      modifies this`offset
      ensures Valid() && offset == SkipSpace(content, old(offset))
    {
      while offset < |content| && content[offset] <= 32
        invariant offset <= |content|
        invariant ScanSpace(content, offset) == ScanSpace(content, old(offset))
        decreases |content| - offset
      {
        offset := offset + 1;
      }
      if offset == |content| {
        offset := offset - 1;
      }
    }

    /** skip_utf8_bom */
    method SkipByteOrderMark()
      requires Valid() && offset == 0
      modifies this`offset
      ensures Valid() && offset == SkipBom(content)
    {
      if 4 < |content| && content[0..3] == BOM {
        offset := offset + 3;
      }
    }

    /** parse_hex4 */
    method ParseHex4(p: nat) returns (h: nat)
      requires p + 4 <= |content|
      ensures h == Hex4(content[p..p + 4])
    {
      ghost var d := content[p..p + 4];
      h := 0;
      var i := 0;
      while i < 4
        invariant 0 <= i <= 4
        invariant forall k :: 0 <= k < i ==> HexValue(d[k]) >= 0
        invariant h == HexSoFar(d, i)
      {
        var b := content[p + i];
        assert b == d[i];
        if 48 <= b <= 57 {
          h := h + (b - 48);
        } else if 65 <= b <= 70 {
          h := h + (10 + b - 65);
        } else if 97 <= b <= 102 {
          h := h + (10 + b - 97);
        } else {
          return 0;
        }
        if i < 3 {
          h := h * 16;
        }
        i := i + 1;
      }
    }

    /** The accumulator of parse_hex4 after i digits: shifted already, except behind the last. */
    static ghost function HexSoFar(d: seq<byte>, i: nat): int
      requires |d| == 4 && i <= 4
    {
      if i == 0 then 0
      else if i == 1 then 16 * HexValue(d[0])
      else if i == 2 then 16 * (16 * HexValue(d[0]) + HexValue(d[1]))
      else if i == 3 then 16 * (16 * (16 * HexValue(d[0]) + HexValue(d[1])) + HexValue(d[2]))
      else 16 * (16 * (16 * HexValue(d[0]) + HexValue(d[1])) + HexValue(d[2])) + HexValue(d[3])
    }

    /** The code point of the escape at p, and the length of the escape; length 0 is a failure. */
    method ReadUtf16Literal(p: nat, end: nat) returns (length: nat, codepoint: nat)
      requires p <= end <= |content|
      ensures length == 0 <==> Utf16Literal(content, p, end).BadEscape?
      ensures length != 0 ==> Utf16Literal(content, p, end) == CodePoint(length, codepoint)
    {
      hide Hex4;
      length, codepoint := 0, 0;
      if end - p < 6 {
        return;
      }
      var first := ParseHex4(p + 2);
      if 0xDC00 <= first <= 0xDFFF {
        return;
      }
      if 0xD800 <= first <= 0xDBFF {
        if end - (p + 6) < 6 {
          return;
        }
        if content[p + 6] != BACKSLASH || content[p + 7] != 117 {
          return;
        }
        var second := ParseHex4(p + 8);
        if second < 0xDC00 || second > 0xDFFF {
          return;
        }
        length := 12;
        JoinMasks(first, second);
        codepoint := 0x1_0000 + (first % 0x400) * 0x400 + second % 0x400;
      } else {
        length := 6;
        codepoint := first;
      }
    }

    /** How many bytes a code point takes, and the mark in the first of them. */
    static method Utf8Length(codepoint: nat) returns (length: nat, mark: nat)
      requires codepoint <= 0x10_FFFF
      ensures length == |Utf8(codepoint)|
      ensures mark == if length == 1 then 0 else if length == 2 then 0xC0 else if length == 3 then 0xE0 else 0xF0
    {
      if codepoint < 0x80 {
        length, mark := 1, 0;
      } else if codepoint < 0x800 {
        length, mark := 2, 0xC0;
      } else if codepoint < 0x1_0000 {
        length, mark := 3, 0xE0;
      } else {
        length, mark := 4, 0xF0;
      }
    }

    /**
     * The encoding half of utf16_literal_to_utf8: the bytes are written from the last to the
     * first. No code point is out of range, so there is no failure here.
     */
    method WriteUtf8(codepoint: nat, output: array<byte>, at: nat) returns (next: nat)
      requires codepoint <= 0x10_FFFF && at + |Utf8(codepoint)| <= output.Length
      modifies output
      ensures next == at + |Utf8(codepoint)|
      ensures output[..at] == old(output[..at]) && output[at..next] == Utf8(codepoint)
    {
      var length, mark := Utf8Length(codepoint);
      ghost var r := Utf8(codepoint);
      Utf8Bytes(codepoint);
      var rest := WriteContinuations(codepoint, length, output, at, r);
      hide Utf8, LeadingBits, Continuation;
      output[at] := if length > 1 then mark + rest else rest;
      next := at + length;
      assert output[at..next] == [output[at]] + output[at + 1..next];
      assert r == [r[0]] + r[1..];
    }

    /** The loop that writes all bytes but the first. */
    method WriteContinuations(codepoint: nat, length: nat, output: array<byte>, at: nat, ghost r: seq<byte>)
      returns (rest: nat)
      requires 0 < length == |r| && at + length <= output.Length
      requires forall k :: 0 < k < |r| ==> r[k] == Continuation(LeadingBits(codepoint, |r| - 1 - k))
      modifies output
      ensures output[..at] == old(output[..at]) && output[at + 1..at + length] == r[1..]
      ensures rest == LeadingBits(codepoint, length - 1)
    {
      hide LeadingBits, Continuation;
      rest := codepoint;
      var position := length - 1;
      LeadingStep(codepoint, 0);
      while position > 0
        invariant 0 <= position < length
        invariant output[..at] == old(output[..at])
        invariant output[at + position + 1..at + length] == r[position + 1..]
        invariant rest == LeadingBits(codepoint, length - 1 - position)
      {
        LeadingStep(codepoint, length - 1 - position);
        output[at + position] := Continuation(rest);
        rest := rest / 64;
        assert output[at + position..at + length] == [r[position]] + r[position + 1..];
        position := position - 1;
      }
    }

    /** The six lowest bits, with the mark of a byte that is not the first. */
    static function Continuation(rest: nat): byte {
      0x80 + rest % 64
    }

    static lemma JoinMasks(high: nat, low: nat)
      requires IsHigh(high) && IsLow(low)
      ensures Join(high, low) == 0x1_0000 + (high % 0x400) * 0x400 + low % 0x400
    {
    }

    /** Six bits for every byte but the first, which has a mark and the bits left over. */
    static lemma Utf8Bytes(codepoint: nat)
      requires codepoint <= 0x10_FFFF
      ensures var r := Utf8(codepoint);
              && (forall k :: 0 < k < |r| ==> r[k] == Continuation(LeadingBits(codepoint, |r| - 1 - k)))
              && r[0] == (if |r| == 1 then 0 else if |r| == 2 then 0xC0 else if |r| == 3 then 0xE0 else 0xF0)
                         + LeadingBits(codepoint, |r| - 1)
    {
      assert LeadingBits(codepoint, 1) == codepoint / 64;
      assert LeadingBits(codepoint, 2) == codepoint / 64 / 64;
      assert LeadingBits(codepoint, 3) == codepoint / 64 / 64 / 64;
    }

    static lemma LeadingStep(codepoint: nat, shifts: nat)
      ensures LeadingBits(codepoint, 0) == codepoint
      ensures LeadingBits(codepoint, shifts + 1) == LeadingBits(codepoint, shifts) / 64
    {
    }

    static ghost function LeadingBits(codepoint: nat, shifts: nat): nat {
      if shifts == 0 then codepoint else LeadingBits(codepoint, shifts - 1) / 64
    }

    /** The first pass of parse_string: the closing quote, and the number of escapes before it. */
    method ScanString(start: nat) returns (found: bool, end: nat, skipped: nat)
      requires start <= |content|
      ensures found <==> Scan(content, start).Some?
      ensures found ==> end == Scan(content, start).value && skipped == EscapesBefore(content, start, end)
    {
      ghost var goal := if Scan(content, start).Some? then Scan(content, start).value else |content|;
      end, skipped := start, 0;
      while end < |content| && content[end] != QUOTE
        invariant start <= end && Scan(content, start) == Scan(content, end)
        invariant skipped + EscapesBefore(content, end, goal) == EscapesBefore(content, start, goal)
        decreases |content| - end
      {
        if content[end] == BACKSLASH {
          if end + 1 >= |content| {
            return false, end, skipped;
          }
          skipped := skipped + 1;
          end := end + 1;
        }
        end := end + 1;
      }
      found := end < |content|;
    }

    /** The bytes written so far leave room for the rest of the literal. */
    ghost predicate Fits(start: nat, p: nat, end: nat, output: array<byte>, at: nat) {
      && start <= p <= end + 1 <= |content|
      && output.Length == end + 2 - start - EscapesBefore(content, start, end)
      && at + EscapesBefore(content, start, p) <= p - start
    }

    lemma FitsMeansRoom(start: nat, p: nat, end: nat, output: array<byte>, at: nat)
      requires Fits(start, p, end, output, at)
      ensures at < output.Length
    {
      Room(content, start, p, end);
    }

    /** An escape of `length` bytes that becomes `n` bytes keeps the rest in bounds. */
    lemma FitsEscape(start: nat, p: nat, end: nat, output: array<byte>, at: nat, length: nat, n: nat)
      requires Fits(start, p, end, output, at) && p + length <= end + 1
      requires (length == 2 && n == 1) || (length == 6 && n <= 3) || (length == 12 && n <= 6)
      ensures Fits(start, p + length, end, output, at + n)
    {
      if length == 2 {
        EscapesInTwo(content, start, p);
      } else if length == 6 {
        EscapesInSix(content, start, p);
      } else {
        EscapesInSix(content, start, p);
        EscapesInSix(content, start, p + 6);
      }
    }

    /** The escape at p, decoded into `output`; length 0 where parse_string gives up. */
    method DecodeEscape(start: nat, p: nat, end: nat, output: array<byte>, at: nat) returns (length: nat, next: nat)
      requires p < end < |content| && content[p] == BACKSLASH && Fits(start, p, end, output, at)
      modifies output
      ensures length == 0 ==> Decode(content, p, end) == Bad(p)
      ensures length != 0 ==> at <= next < output.Length && output[..at] == old(output[..at])
      ensures length != 0 ==> Fits(start, p + length, end, output, next)
      ensures length != 0 ==> Decode(content, p, end) == Prepend(output[at..next], Decode(content, p + length, end))
    {
      hide Utf16Literal, Utf8;
      next := at;
      var letter := content[p + 1];
      if letter == 117 {
        var codepoint;
        length, codepoint := ReadUtf16Literal(p, end);
        if length != 0 {
          Utf8Fits(length, codepoint, p, end);
          FitsEscape(start, p, end, output, at, length, |Utf8(codepoint)|);
          FitsMeansRoom(start, p + length, end, output, at + |Utf8(codepoint)|);
          next := WriteUtf8(codepoint, output, at);
        }
      } else {
        var b := UnescapeLetter(letter);
        length := if b == 0 then 0 else 2;
        if b != 0 {
          FitsEscape(start, p, end, output, at, 2, 1);
          FitsMeansRoom(start, p + 2, end, output, at + 1);
          output[at] := b;
          next := at + 1;
          assert output[at..next] == [b];
        }
      }
    }

    lemma Utf8Fits(length: nat, codepoint: nat, p: nat, end: nat)
      requires p <= end <= |content| && Utf16Literal(content, p, end) == CodePoint(length, codepoint)
      ensures (length == 6 && |Utf8(codepoint)| <= 3) || (length == 12 && |Utf8(codepoint)| <= 6)
    {
    }

    /** The switch over one-letter escapes; 0 for a letter that is none. */
    static method UnescapeLetter(letter: byte) returns (b: byte)
      ensures b == ShortMeaning(letter)
    {
      if letter == 98 {
        b := 8;
      } else if letter == 102 {
        b := 12;
      } else if letter == 110 {
        b := 10;
      } else if letter == 114 {
        b := 13;
      } else if letter == 116 {
        b := 9;
      } else if letter == 34 || letter == 92 || letter == 47 {
        b := letter;
      } else {
        b := 0;
      }
    }

    /** The second pass of parse_string, into an array that is just long enough. */
    method DecodeString(start: nat, end: nat, output: array<byte>) returns (ok: bool, at: nat, stopped: nat)
      requires start <= end < |content|
      requires output.Length == end + 2 - start - EscapesBefore(content, start, end)
      modifies output
      ensures ok ==> at < output.Length && Decode(content, start, end) == Text(output[..at])
      ensures !ok ==> Decode(content, start, end) == Bad(stopped)
    {
      hide Decode;
      at := 0;
      var p := start;
      EscapesFromStart(start);
      assert Decode(content, start, end) == Prepend(output[..0], Decode(content, start, end)) by {
        PrependNothing(Decode(content, start, end));
      }
      FitsMeansRoom(start, p, end, output, at);
      while p < end
        invariant Fits(start, p, end, output, at) && at < output.Length
        invariant Decode(content, start, end) == Prepend(output[..at], Decode(content, p, end))
        decreases end + 1 - p
      {
        ghost var done, rest := output[..at], Decode(content, p, end);
        var length, next := 1, at + 1;
        if content[p] != BACKSLASH {
          PlainByte(start, p, end, output, at);
          output[at] := content[p];
          assert output[at..next] == [content[p]];
        } else {
          length, next := DecodeEscape(start, p, end, output, at);
          if length == 0 {
            return false, at, p;
          }
        }
        assert output[..next] == done + output[at..next];
        PrependTwice(done, output[at..next], Decode(content, p + length, end));
        at := next;
        p := p + length;
      }
      DecodeEnd(p, end);
      assert output[..at] + [] == output[..at];
      ok, stopped := true, p;
    }

    lemma EscapesFromStart(start: nat)
      requires start <= |content|
      ensures EscapesBefore(content, start, start) == 0
    {
    }

    static lemma PrependNothing(d: Decoded)
      ensures Prepend([], d) == d
    {
      match d
      case Text(bytes) => assert [] + bytes == bytes;
      case Bad(_) =>
    }

    static lemma PrependTwice(u: seq<byte>, v: seq<byte>, d: Decoded)
      ensures Prepend(u, Prepend(v, d)) == Prepend(u + v, d)
    {
      match d
      case Text(bytes) => Assoc(u, v, bytes);
      case Bad(_) =>
    }

    lemma DecodeEnd(p: nat, end: nat)
      requires end <= p && end < |content|
      ensures Decode(content, p, end) == Text([])
    {
    }

    /** A byte copied as it is. */
    lemma PlainByte(start: nat, p: nat, end: nat, output: array<byte>, at: nat)
      requires p < end < |content| && content[p] != BACKSLASH && Fits(start, p, end, output, at)
      ensures Decode(content, p, end) == Prepend([content[p]], Decode(content, p + 1, end))
      ensures Fits(start, p + 1, end, output, at + 1) && at + 1 < output.Length
    {
      EscapesInPlain(content, start, p);
      FitsMeansRoom(start, p + 1, end, output, at + 1);
    }

    /** parse_string */
    method ParseString() returns (ok: bool, str: seq<byte>)
      requires Valid()
      modifies this`offset
      ensures ok <==> JsonGrammar.ParseString(content, old(offset)).Ok?
      ensures ok ==> JsonGrammar.ParseString(content, old(offset)) == Ok(str, offset) && Valid()
      ensures !ok ==> offset == JsonGrammar.ParseString(content, old(offset)).at
    {
      hide Decode, Scan, EscapesBefore;
      ok, str := false, [];
      var start := offset + 1;
      if content[offset] != QUOTE {
        offset := start;
        return;
      }
      var found, end, skipped := ScanString(start);
      if !found {
        offset := start;
        return;
      }
      EscapesLeaveRoom(start, end);
      var allocationLength := end - offset - skipped;
      var output := new byte[allocationLength + 1];
      var at, stopped;
      ok, at, stopped := DecodeString(start, end, output);
      if !ok {
        offset := stopped;
        return;
      }
      output[at] := 0;
      str := CStr(output[..at]);
      offset := end + 1;
    }

    lemma EscapesLeaveRoom(start: nat, end: nat)
      requires start <= end <= |content|
      ensures EscapesBefore(content, start, end) <= end - start
    {
      EscapesAreSparse(content, start, start, end);
      EscapesFromStart(start);
    }

    /** parse_number: collect at most 63 number characters, and let strtod read them. */
    method ParseNumber() returns (ok: bool, item: Json)
      requires Valid()
      modifies this`offset
      ensures ok <==> JsonGrammar.ParseNumber(content, old(offset)).Ok?
      ensures ok ==> JsonGrammar.ParseNumber(content, old(offset)) == Ok(item, offset) && Valid()
      ensures !ok ==> offset == old(offset)
    {
      hide Strtod, RunLength;
      item := Null;
      var scratch := new byte[MAX_NUMBER + 1];
      var i := CollectNumber(scratch);
      scratch[i] := 0;
      assert scratch[..i] == content[offset..offset + i];
      var number := Strtod(scratch[..i]);
      if number.length == 0 {
        return false, Null;
      }
      item := Number(number.value);
      offset := offset + number.length;
      ok := true;
    }

    /** The loop that copies the number characters. */
    method CollectNumber(scratch: array<byte>) returns (i: nat)
      requires Valid() && scratch.Length == MAX_NUMBER + 1
      modifies scratch
      ensures i == RunLength(content, offset, 0) <= MAX_NUMBER && offset + i < |content|
      ensures scratch[..i] == content[offset..offset + i]
    {
      hide RunLength, IsNumberChar;
      i := 0;
      while i < MAX_NUMBER && offset + i < |content| && IsNumberChar(content[offset + i])
        invariant 0 <= i <= MAX_NUMBER && offset + i < |content|
        invariant forall k :: 0 <= k < i ==> scratch[k] == content[offset + k]
        invariant RunLength(content, offset, 0) == RunLength(content, offset, i)
      {
        RunGoesOn(i);
        scratch[i] := content[offset + i];
        i := i + 1;
      }
      RunGoesOn(i);
    }

    lemma RunGoesOn(i: nat)
      requires Valid() && offset + i < |content| && i <= MAX_NUMBER
      ensures RunLength(content, offset, i)
           == if i < MAX_NUMBER && IsNumberChar(content[offset + i]) then RunLength(content, offset, i + 1) else i
      ensures IsNumberChar(content[offset + i]) ==> offset + i + 1 < |content|
    {
    }

    /** The outcome of a routine that parses a value, against the function it computes. */
    ghost predicate Outcome(want: Parsed<Json>, ok: bool, item: Json, outer: nat)
      reads this
    {
      match want
      case Ok(value, next) => ok && item == value && offset == next && depth == outer && Valid()
      case Fail(at) => !ok && offset == at && depth <= NESTING_LIMIT
    }

    /** parse_value */
    method ParseValue() returns (ok: bool, item: Json)
      requires Valid()
      modifies this
      ensures Outcome(JsonGrammar.ParseValue(content, old(offset), old(depth)), ok, item, old(depth))
      decreases |content| - offset, 3
    {
      hide JsonGrammar.ParseString, JsonGrammar.ParseNumber, JsonGrammar.ParseArray, JsonGrammar.ParseObject;
      ok, item := true, Null;
      if Word(content, offset, TEXT_NULL) {
        offset := offset + 4;
      } else if Word(content, offset, TEXT_FALSE) {
        item := False;
        offset := offset + 5;
      } else if Word(content, offset, TEXT_TRUE) {
        item := True;
        offset := offset + 4;
      } else if content[offset] == QUOTE {
        var str;
        ok, str := ParseString();
        item := String(str);
      } else if content[offset] == 45 || 48 <= content[offset] <= 57 {
        ok, item := ParseNumber();
      } else if content[offset] == LBRACKET {
        ok, item := ParseArray();
      } else if content[offset] == LBRACE {
        ok, item := ParseObject();
      } else {
        ok := false;
      }
    }

    lemma SkipTwice(o: nat)
      requires Terminated(content) && o < |content|
      ensures SkipSpace(content, SkipSpace(content, o)) == SkipSpace(content, o)
    {
      var q := SkipSpace(content, o);
      if ScanSpace(content, o) == |content| {
        assert ScanSpace(content, q) == ScanSpace(content, |content|);
      }
    }

    /** The elements already parsed, in front of those that are still to come. */
    static ghost function Chain<T>(done: seq<T>, rest: Parsed<seq<T>>): Parsed<seq<T>> {
      match rest
      case Ok(values, next) => Ok(done + values, next)
      case Fail(at) => Fail(at)
    }

    /** parse_array */
    method ParseArray() returns (ok: bool, item: Json)
      requires Valid() && content[offset] == LBRACKET
      modifies this
      ensures Outcome(JsonGrammar.ParseArray(content, old(offset), old(depth)), ok, item, old(depth))
      decreases |content| - offset, 2
    {
      hide ParseItems, SkipSpace;
      item := Null;
      if depth >= NESTING_LIMIT {
        return false, Null;
      }
      depth := depth + 1;
      offset := offset + 1;
      SkipTwice(offset);
      ghost var start := offset;
      SkipWhitespace();
      if content[offset] == RBRACKET {
        depth := depth - 1;
        offset := offset + 1;
        return true, Array([]);
      }
      ItemsAfterSpace(start);
      offset := offset - 1;
      var items;
      ok, items := ParseElements();
      if !ok {
        return;
      }
      depth := depth - 1;
      item := Array(items);
    }

    lemma ItemsAfterSpace(start: nat)
      requires Valid() && start < |content|
      requires SkipSpace(content, SkipSpace(content, start)) == SkipSpace(content, start)
      ensures ParseItems(content, start, depth) == ParseItems(content, SkipSpace(content, start), depth)
    {
      hide SkipSpace, JsonGrammar.ParseValue;
    }

    lemma OneItem(o: nat, item: Json, end: nat)
      requires Valid() && o < |content|
      requires JsonGrammar.ParseValue(content, SkipSpace(content, o), depth) == Ok(item, end)
      ensures end < |content|
      ensures ParseItems(content, o, depth)
           == if content[SkipSpace(content, end)] == COMMA
              then Chain([item], ParseItems(content, SkipSpace(content, end) + 1, depth))
              else if content[SkipSpace(content, end)] == RBRACKET then Ok([item], SkipSpace(content, end) + 1)
              else Fail(SkipSpace(content, end))
    {
      hide SkipSpace, JsonGrammar.ParseValue;
    }

    static lemma ChainTwice<T>(u: seq<T>, v: seq<T>, rest: Parsed<seq<T>>)
      ensures Chain(u, Chain(v, rest)) == Chain(u + v, rest)
    {
      match rest
      case Ok(values, _) => assert u + (v + values) == u + v + values;
      case Fail(_) =>
    }

    lemma NoItem(o: nat, d: nat, at: nat)
      requires Terminated(content) && o < |content|
      requires JsonGrammar.ParseValue(content, SkipSpace(content, o), d) == Fail(at)
      ensures ParseItems(content, o, d) == Fail(at)
    {
      hide SkipSpace, JsonGrammar.ParseValue;
    }

    static lemma ChainNothing<T>(rest: Parsed<seq<T>>)
      ensures Chain([], rest) == rest
    {
      match rest
      case Ok(values, _) => assert [] + values == values;
      case Fail(_) =>
    }

    /**
     * The loop of parse_array, from the byte in front of the first element to behind the closing
     * bracket.
     */
    method ParseElements() returns (ok: bool, items: seq<Json>)
      requires Valid() && offset + 1 < |content|
      modifies this
      ensures ok <==> ParseItems(content, old(offset) + 1, old(depth)).Ok?
      ensures ok ==> ParseItems(content, old(offset) + 1, old(depth)) == Ok(items, offset)
      ensures ok ==> Valid() && depth == old(depth)
      ensures !ok ==> ParseItems(content, old(offset) + 1, old(depth)) == Fail(offset) && depth <= NESTING_LIMIT
      decreases |content| - offset - 1, 4
    {
      hide ParseItems, SkipSpace, JsonGrammar.ParseValue;
      ghost var whole := ParseItems(content, offset + 1, depth);
      items := [];
      ChainNothing(whole);
      var more := true;
      while more
        invariant Valid() && depth == old(depth) && offset >= old(offset)
        invariant more ==> offset + 1 < |content| && whole == Chain(items, ParseItems(content, offset + 1, depth))
        invariant !more ==>
                    && content[offset] != COMMA
                    && whole == if content[offset] == RBRACKET then Ok(items, offset + 1) else Fail(offset)
        decreases |content| - offset
      {
        offset := offset + 1;
        ghost var from := offset;
        SkipWhitespace();
        var item;
        ok, item := ParseValue();
        if !ok {
          NoItem(from, old(depth), offset);
          return;
        }
        OneItem(from, item, offset);
        SkipWhitespace();
        more := content[offset] == COMMA;
        if more {
          ChainTwice(items, [item], ParseItems(content, offset + 1, depth));
        }
        items := items + [item];
      }
      if content[offset] != RBRACKET {
        return false, [];
      }
      offset := offset + 1;
      ok := true;
    }

    /** parse_object */
    method ParseObject() returns (ok: bool, item: Json)
      requires Valid() && content[offset] == LBRACE
      modifies this
      ensures Outcome(JsonGrammar.ParseObject(content, old(offset), old(depth)), ok, item, old(depth))
      decreases |content| - offset, 2
    {
      hide JsonGrammar.ParseMembers, SkipSpace;
      item := Null;
      if depth >= NESTING_LIMIT {
        return false, Null;
      }
      depth := depth + 1;
      offset := offset + 1;
      SkipTwice(offset);
      ghost var start := offset;
      SkipWhitespace();
      if content[offset] == RBRACE {
        depth := depth - 1;
        offset := offset + 1;
        return true, Object([]);
      }
      MembersAfterSpace(start);
      offset := offset - 1;
      var members;
      ok, members := ParseMembers();
      if !ok {
        return;
      }
      depth := depth - 1;
      item := Object(members);
    }

    lemma MembersAfterSpace(start: nat)
      requires Valid() && start < |content|
      requires SkipSpace(content, SkipSpace(content, start)) == SkipSpace(content, start)
      ensures JsonGrammar.ParseMembers(content, start, depth)
           == JsonGrammar.ParseMembers(content, SkipSpace(content, start), depth)
    {
      hide SkipSpace, JsonGrammar.ParseValue, JsonGrammar.ParseString;
      assert ParseMember(content, start, depth) == ParseMember(content, SkipSpace(content, start), depth);
    }

    lemma OneMember(o: nat, member: Member, end: nat)
      requires Valid() && o < |content|
      requires ParseMember(content, o, depth) == Ok(member, end)
      ensures end < |content|
      ensures JsonGrammar.ParseMembers(content, o, depth)
           == if content[end] == COMMA
              then Chain([member], JsonGrammar.ParseMembers(content, end + 1, depth))
              else if content[end] == RBRACE then Ok([member], end + 1)
              else Fail(end)
    {
      hide ParseMember;
    }

    /**
     * The loop of parse_object, from the byte in front of the first member to behind the closing
     * brace.
     */
    method ParseMembers() returns (ok: bool, members: seq<Member>)
      requires Valid() && offset + 1 < |content|
      modifies this
      ensures ok <==> JsonGrammar.ParseMembers(content, old(offset) + 1, old(depth)).Ok?
      ensures ok ==> JsonGrammar.ParseMembers(content, old(offset) + 1, old(depth)) == Ok(members, offset)
      ensures ok ==> Valid() && depth == old(depth)
      ensures !ok ==> JsonGrammar.ParseMembers(content, old(offset) + 1, old(depth)) == Fail(offset)
      ensures !ok ==> depth <= NESTING_LIMIT
      decreases |content| - offset - 1, 5
    {
      hide JsonGrammar.ParseMembers, ParseMember, SkipSpace;
      ghost var whole := JsonGrammar.ParseMembers(content, offset + 1, depth);
      members := [];
      ChainNothing(whole);
      var more := true;
      while more
        invariant Valid() && depth == old(depth) && offset >= old(offset)
        invariant more ==>
                    && offset + 1 < |content|
                    && whole == Chain(members, JsonGrammar.ParseMembers(content, offset + 1, depth))
        invariant !more ==>
                    && content[offset] != COMMA
                    && whole == if content[offset] == RBRACE then Ok(members, offset + 1) else Fail(offset)
        decreases |content| - offset
      {
        offset := offset + 1;
        ghost var from := offset;
        var member;
        ok, member := ParseNameAndValue();
        if !ok {
          NoMember(from, old(depth), offset);
          return;
        }
        OneMember(from, member, offset);
        more := content[offset] == COMMA;
        if more {
          ChainTwice(members, [member], JsonGrammar.ParseMembers(content, offset + 1, depth));
        }
        members := members + [member];
      }
      if content[offset] != RBRACE {
        return false, [];
      }
      offset := offset + 1;
      ok := true;
    }

    lemma NoMember(o: nat, d: nat, at: nat)
      requires Terminated(content) && o < |content|
      requires ParseMember(content, o, d) == Fail(at)
      ensures JsonGrammar.ParseMembers(content, o, d) == Fail(at)
    {
      hide ParseMember;
    }

    /** The body of that loop: name, colon, value, and the white space behind it. */
    method ParseNameAndValue() returns (ok: bool, member: Member)
      requires Valid()
      modifies this
      ensures ok <==> ParseMember(content, old(offset), old(depth)).Ok?
      ensures ok ==> ParseMember(content, old(offset), old(depth)) == Ok(member, offset)
      ensures ok ==> Valid() && depth == old(depth)
      ensures !ok ==> ParseMember(content, old(offset), old(depth)) == Fail(offset) && depth <= NESTING_LIMIT
      decreases |content| - offset, 4
    {
      hide SkipSpace, JsonGrammar.ParseValue, JsonGrammar.ParseString;
      member := Member([], Null);
      SkipWhitespace();
      var name;
      ok, name := ParseString();
      if !ok {
        return;
      }
      SkipWhitespace();
      if content[offset] != COLON {
        return false, member;
      }
      offset := offset + 1;
      SkipWhitespace();
      var value;
      ok, value := ParseValue();
      if !ok {
        return;
      }
      SkipWhitespace();
      member := Member(name, value);
    }
  }

  /**
   * cJSON_ParseWithOpts. The parse end, or the error position, is always inside the text or at
   * its NUL.
   */
  method ParseWithOpts(value: seq<byte>, requireTerminated: bool) returns (r: Parsed<Json>)
    ensures r == ParseText(value, requireTerminated)
  {
    hide ParseValue;
    var buffer := new ParseBuffer(value);
    buffer.SkipByteOrderMark();
    buffer.SkipWhitespace();
    var ok, item := buffer.ParseValue();
    if ok && requireTerminated {
      buffer.SkipWhitespace();
      ok := buffer.content[buffer.offset] == 0;
    }
    if ok {
      r := Ok(item, buffer.offset);
    } else if buffer.offset < |buffer.content| {
      r := Fail(buffer.offset);
    } else {
      r := Fail(|buffer.content| - 1);
    }
  }
}
