/**
 * The printer of cJSON.c: a byte buffer that grows on demand and the recursive routines that
 * write a tree into it. Every routine is proved to write exactly the text of `JsonRender`, and to
 * fail exactly when that text, its NUL and one spare byte do not fit.
 */
module JsonPrinter {
  import opened Bytes
  import opened JsonTree
  import opened JsonRender

  const INT_MAX: nat := 0x7FFF_FFFF

  /** n doubled k times. */
  function Doubled(n: nat, k: nat): nat {
    if k == 0 then n else 2 * Doubled(n, k - 1)
  }

  /** One round of the loop of print_array moves an element from the rest to the text. */
  lemma ItemsStep(text: seq<byte>, items: seq<Json>, i: nat, format: bool, depth: nat)
    requires i < |items| && PrintableItems(items[i..])
    ensures Printable(items[i]) && PrintableItems(items[i + 1..])
    ensures text + RenderItems(items[i..], format, depth)
         == text + Render(items[i], format, depth) + (if i + 1 < |items| then Separator(format) else [])
            + RenderItems(items[i + 1..], format, depth)
  {
    assert items[i..][1..] == items[i + 1..];
  }

  /** One round of the loop of print_object moves a member from the rest to the text. */
  lemma MembersStep(text: seq<byte>, members: seq<Member>, i: nat, format: bool, depth: nat)
    requires i < |members| && PrintableMembers(members[i..])
    ensures NulFree(members[i].key) && Printable(members[i].value) && PrintableMembers(members[i + 1..])
    ensures text + RenderMembers(members[i..], format, depth)
         == text + RenderMember(members[i], i + 1 < |members|, format, depth)
            + RenderMembers(members[i + 1..], format, depth)
  {
    assert members[i..][1..] == members[i + 1..];
    Assoc(text, RenderMember(members[i], i + 1 < |members|, format, depth),
          RenderMembers(members[i + 1..], format, depth));
  }

  lemma ListEnd(text: seq<byte>, format: bool, depth: nat)
    ensures text + RenderItems([], format, depth) == text == text + RenderMembers([], format, depth)
  {
  }

  lemma ArrayParts(text: seq<byte>, items: seq<Json>, format: bool, depth: nat)
    ensures text + [LBRACKET] + RenderItems(items, format, depth + 1) + [RBRACKET]
         == text + Render(Array(items), format, depth)
    ensures |Render(Array(items), format, depth)| == |RenderItems(items, format, depth + 1)| + 2
  {
    Assoc4(text, [LBRACKET], RenderItems(items, format, depth + 1), [RBRACKET]);
  }

  lemma ObjectParts(text: seq<byte>, members: seq<Member>, format: bool, depth: nat)
    ensures text + ObjectOpen(format) + RenderMembers(members, format, depth + 1) + (Indent(format, depth) + [RBRACE])
         == text + Render(Object(members), format, depth)
    ensures |Render(Object(members), format, depth)|
         == |ObjectOpen(format)| + |RenderMembers(members, format, depth + 1)| + |Indent(format, depth)| + 1
  {
    var open, body, close :=
      ObjectOpen(format), RenderMembers(members, format, depth + 1), Indent(format, depth) + [RBRACE];
    Assoc4(text, open, body, close);
    Assoc(open + body, Indent(format, depth), [RBRACE]);
  }

  lemma NameParts(text: seq<byte>, key: seq<byte>, format: bool, depth: nat)
    ensures |RenderName(key, format, depth)| == |Indent(format, depth)| + |Quote(key)| + |KeyEnd(format)|
    ensures text + Indent(format, depth) + Quote(key) + KeyEnd(format) == text + RenderName(key, format, depth)
    ensures |KeyEnd(format)| > 0
  {
    hide Indent, Quote;
    Assoc4(text, Indent(format, depth), Quote(key), KeyEnd(format));
  }

  lemma MemberParts(text: seq<byte>, m: Member, more: bool, format: bool, depth: nat)
    ensures var name, value := RenderName(m.key, format, depth), Render(m.value, format, depth);
            var end := MemberEnd(format, more);
            && |RenderMember(m, more, format, depth)| == |name| + |value| + |end|
            && text + name + value + end == text + RenderMember(m, more, format, depth)
            && |end| == (if format then 1 else 0) + (if more then 1 else 0)
  {
    hide RenderName, Render;
    Assoc4(text, RenderName(m.key, format, depth), Render(m.value, format, depth), MemberEnd(format, more));
  }

  class PrintBuffer {
    var buffer: array<byte>
    var length: nat
    var offset: nat
    var depth: nat
    const noalloc: bool
    const format: bool
    // the length the buffer started with
    ghost const initial: nat
    // a caller's bytes behind the part of its buffer that may be used
    ghost const tail: seq<byte>
    // end of the region promised by the last successful Ensure
    ghost var granted: nat
    // number of reallocations so far
    ghost var growths: nat

    /** Every reallocation doubles the length, except one that may stop at INT_MAX. */
    ghost predicate GrowsByDoubling()
      reads this`length, this`growths
    {
      growths > 0 ==>
        && initial < length
        && (|| Doubled(Max(initial, 1), growths) <= length
            || (length == INT_MAX && Doubled(Max(initial, 1), growths - 1) <= length))
    }

    ghost predicate Valid()
      reads this`buffer, this`length, this`offset, this`granted, this`growths, buffer
    {
      && length <= INT_MAX
      && length + |tail| == buffer.Length
      && buffer[length..] == tail
      && (tail == [] || noalloc)
      && (offset < length || offset == length == 0)
      && granted <= length
      && initial <= length
      && (noalloc ==> length == initial)
      && GrowsByDoubling()
    }

    /** The largest number of bytes a printed text may demand. */
    ghost function Limit(): nat {
      if noalloc then initial else INT_MAX
    }

    /** The buffer holds `text` and printing continues right behind it. */
    ghost predicate Holds(text: seq<byte>)
      reads this`buffer, this`length, this`offset, this`granted, this`growths, buffer
    {
      Valid() && offset == |text| && buffer[..offset] == text
    }

    /** The buffer holds `text` and a NUL; the offset has not caught up with it yet. */
    ghost predicate Ends(text: seq<byte>)
      reads this`buffer, this`length, this`offset, this`granted, this`growths, buffer
    {
      Valid() && offset <= |text| < length && buffer[..|text|] == text
      && buffer[|text|] == 0 && NulFree(text[offset..])
    }

    /**
     * What every routine leaves alone: the buffer, unless a text of `bound` bytes called for a
     * longer one. The depth is restored too, but only if the routine succeeds.
     */
    twostate predicate Kept(bound: int)
      reads this
    {
      && old(length) <= length && (length == old(length) || length <= 2 * bound)
      && (buffer == old(buffer) || (fresh(buffer) && !noalloc))
    }

    constructor (buffer: array<byte>, length: nat, noalloc: bool, format: bool)
      requires length <= INT_MAX
      requires length == buffer.Length || (noalloc && length <= buffer.Length)
      ensures Holds([]) && depth == 0 && this.buffer == buffer
      ensures this.length == length == initial && tail == buffer[length..]
      ensures this.noalloc == noalloc && this.format == format && growths == 0
    {
      this.buffer := buffer;
      this.length := length;
      this.offset := 0;
      this.depth := 0;
      this.noalloc := noalloc;
      this.format := format;
      this.initial := length;
      this.tail := buffer[length..];
      this.granted := 0;
      this.growths := 0;
    }

    /** ensure: make room for `needed` bytes and one more behind the offset. */
    method Ensure(needed: nat) returns (ok: bool)
      requires Valid()
      modifies this`buffer, this`length, this`granted, this`growths
      ensures Valid() && Kept(offset + needed + 1)
      ensures ok <==> offset + needed + 1 <= Limit()
      ensures ok ==> granted == offset + needed < length
      ensures buffer[..old(length)] == old(buffer[..length])
      ensures length != old(length) ==> 2 * old(length) < length || length == INT_MAX
    {
      if length > 0 && offset >= length {
        return false;
      }
      if needed > INT_MAX {
        return false;
      }
      var total := needed + offset + 1;
      if total <= length {
        granted := offset + needed;
        return true;
      }
      if noalloc {
        return false;
      }
      var newsize;
      if total > INT_MAX / 2 {
        if total <= INT_MAX {
          newsize := INT_MAX;
        } else {
          return false;
        }
      } else {
        newsize := total * 2;
      }
      var newbuffer := Reallocate(buffer, newsize);
      length := newsize;
      buffer := newbuffer;
      granted := offset + needed;
      growths := growths + 1;
      ok := true;
    }

    /** realloc to a larger size, when memory does not run out. */
    static method Reallocate(old_buffer: array<byte>, size: nat) returns (new_buffer: array<byte>)
      requires old_buffer.Length <= size
      ensures fresh(new_buffer) && new_buffer.Length == size
      ensures new_buffer[..old_buffer.Length] == old_buffer[..]
    {
      new_buffer := new byte[size];
      forall i | 0 <= i < old_buffer.Length {
        new_buffer[i] := old_buffer[i];
      }
    }

    /** strcpy or memcpy of `word` to index `at`, inside the region that Ensure promised. */
    method Store(at: nat, word: seq<byte>)
      requires Valid()
      requires offset <= at && at + |word| <= granted
      modifies buffer
      ensures buffer[..at] == old(buffer[..at])
      ensures buffer[at..at + |word|] == word
      ensures buffer[at + |word|..] == old(buffer[at + |word|..])
      ensures Valid()
    {
      forall i | 0 <= i < |word| {
        buffer[at + i] := word[i];
      }
      assert buffer[length..] == old(buffer[length..]);
    }

    /** update_offset: advance to the NUL that ends the text. */
    method UpdateOffset(ghost text: seq<byte>)
      requires Ends(text)
      modifies this`offset
      ensures Holds(text)
    {
      var end := offset;
      while buffer[end] != 0
        invariant offset <= end <= |text|
        decreases |text| - end
      {
        assert buffer[end] == buffer[..|text|][end];
        end := end + 1;
      }
      offset := end;
    }

    lemma HoldsValid(text: seq<byte>)
      requires Holds(text)
      ensures Valid()
    {
    }

    /** Make room for `needed` bytes and store `word` at the offset. */
    method Put(word: seq<byte>, needed: nat, ghost text: seq<byte>) returns (ok: bool)
      requires Holds(text) && |word| <= needed
      modifies this`buffer, this`length, this`granted, this`growths, buffer
      ensures Valid() && Kept(|text| + needed + 1)
      ensures ok <==> |text| + needed + 1 <= Limit()
      ensures ok ==> granted == |text| + needed < length && buffer[..|text| + |word|] == text + word
    {
      ok := Ensure(needed);
      if !ok {
        return;
      }
      assert buffer[..offset] == text by { assert buffer[..offset] == buffer[..old(length)][..offset]; }
      Store(offset, word);
    }

    /** Store a word and its NUL behind the text, as strcpy does; the offset stays. */
    method PutString(word: seq<byte>, ghost text: seq<byte>) returns (ok: bool)
      requires Holds(text) && NulFree(word)
      modifies this`buffer, this`length, this`granted, this`growths, buffer
      ensures Valid() && Kept(|text| + |word| + 2)
      ensures ok <==> |text| + |word| + 2 <= Limit()
      ensures ok ==> Ends(text + word)
    {
      ok := Put(word + [0], |word| + 1, text);
      if ok {
        StringEnds(text, word);
      }
    }

    lemma StringEnds(text: seq<byte>, word: seq<byte>)
      requires Valid() && offset == |text| && |text| + |word| < length
      requires buffer[..|text| + |word| + 1] == text + (word + [0])
      requires NulFree(word)
      ensures Ends(text + word)
    {
      var whole := text + (word + [0]);
      assert whole[..|text| + |word|] == text + word;
      assert buffer[..|text + word|] == buffer[..|text| + |word| + 1][..|text| + |word|];
      assert buffer[|text| + |word|] == buffer[..|text| + |word| + 1][|text| + |word|] == whole[|text| + |word|];
      assert (text + word)[offset..] == word;
    }

    /** Store a separator and move behind it; `needed` is what the source asks ensure for. */
    method PutAndAdvance(word: seq<byte>, tail: seq<byte>, needed: nat, ghost text: seq<byte>) returns (ok: bool)
      requires Holds(text) && |word + tail| <= needed
      modifies this`buffer, this`length, this`granted, this`growths, this`offset, buffer
      ensures Valid() && Kept(|text| + needed + 1)
      ensures ok <==> |text| + needed + 1 <= Limit()
      ensures ok ==> Holds(text + word)
    {
      ok := Put(word + tail, needed, text);
      if ok {
        assert (text + (word + tail))[..|text| + |word|] == text + word;
        assert buffer[..|text| + |word|] == buffer[..|text| + |word + tail|][..|text| + |word|];
        offset := offset + |word|;
      }
    }

    /** print_number, for the numbers "%1.15g" prints exactly. */
    method PrintNumber(num: Decimal, ghost text: seq<byte>) returns (ok: bool)
      requires Holds(text) && Printable(Number(num))
      modifies this`buffer, this`length, this`granted, this`growths, this`offset, buffer
      ensures Valid() && Kept(|text| + |IntText(num.mantissa)| + 2)
      ensures ok <==> |text| + |IntText(num.mantissa)| + 2 <= Limit()
      ensures ok ==> Ends(text + IntText(num.mantissa))
    {
      var numberBuffer := IntText(num.mantissa);
      IntTextFits(num.mantissa);
      assert |numberBuffer| <= 25;
      ok := PutString(numberBuffer, text);
      if ok {
        offset := offset + |numberBuffer|;
      }
    }

    /** The first pass of print_string_ptr: how many bytes escaping adds. */
    static method CountEscapes(input: seq<byte>) returns (escapes: nat)
      ensures |input| + escapes == |Escape(input)|
    {
      escapes := 0;
      var i := 0;
      while i < |input|
        invariant 0 <= i <= |input|
        invariant i + escapes == |Escape(input[..i])|
      {
        EscapeNext(input, i);
        var b := input[i];
        if b == 34 || b == 92 || b == 8 || b == 12 || b == 10 || b == 13 || b == 9 {
          escapes := escapes + 1;
        } else if b < 32 {
          escapes := escapes + 5;
        }
        i := i + 1;
      }
      assert input[..i] == input;
    }

    /** The switch of the second pass: the letter behind the backslash, 0 for the default case. */
    static method EscapeLetter(b: byte) returns (letter: byte)
      ensures letter == ShortEscape(b)
    {
      if b == 92 {
        letter := 92;
      } else if b == 34 {
        letter := 34;
      } else if b == 8 {
        letter := 98;
      } else if b == 12 {
        letter := 102;
      } else if b == 10 {
        letter := 110;
      } else if b == 13 {
        letter := 114;
      } else if b == 9 {
        letter := 116;
      } else {
        letter := 0;
      }
    }

    /** One step of the second pass: write one input byte, escaped, at index `at`. */
    method StoreEscaped(b: byte, at: nat) returns (next: nat)
      requires Valid() && b != 0
      requires offset <= at && at + |EscapeByte(b)| < granted
      modifies buffer
      ensures buffer[..at] == old(buffer[..at])
      ensures next == at + |EscapeByte(b)| && buffer[at..next] == EscapeByte(b)
      ensures Valid()
    {
      if b > 31 && b != 34 && b != 92 {
        buffer[at] := b;
        next := at + 1;
      } else {
        var letter := EscapeLetter(b);
        if letter != 0 {
          buffer[at] := BACKSLASH;
          buffer[at + 1] := letter;
          next := at + 2;
        } else {
          next := StoreUnicodeEscape(b, at);
        }
      }
    }

    /** sprintf "u%04x" behind a backslash: its NUL lands where the next byte goes. */
    method StoreUnicodeEscape(b: byte, at: nat) returns (next: nat)
      requires Valid() && b < 32 && ShortEscape(b) == 0
      requires offset <= at && at + 6 < granted
      modifies buffer
      ensures buffer[..at] == old(buffer[..at])
      ensures next == at + 6 && buffer[at..next] == EscapeByte(b)
      ensures Valid()
    {
      var code: seq<byte> := [BACKSLASH, 117, 48, 48, HexDigit(b / 16), HexDigit(b % 16), 0];
      Store(at, code);
      next := at + 6;
      assert buffer[at..at + 7][..6] == buffer[at..next];
      assert code[..6] == EscapeByte(b);
    }

    /** One round of the second pass of print_string_ptr. */
    method StoreNextEscaped(input: seq<byte>, i: nat, at: nat, ghost done: seq<byte>) returns (next: nat)
      requires Valid() && i < |input| && input[i] != 0
      requires offset <= at && at + |EscapeByte(input[i])| < granted && buffer[..at] == done
      modifies buffer
      ensures next == at + |EscapeByte(input[i])| && buffer[..next] == done + EscapeByte(input[i])
      ensures Valid()
    {
      next := StoreEscaped(input[i], at);
    }

    /** The branch of print_string_ptr that has to escape something. */
    method StoreQuoted(input: seq<byte>, ghost done: seq<byte>) returns (end: nat)
      requires Valid() && NulFree(input)
      requires offset < granted && buffer[..offset] == done
      requires granted == offset + |Escape(input)| + 3
      modifies buffer
      ensures end == offset + 1 + |Escape(input)|
      ensures buffer[..end] == done + [QUOTE] + Escape(input)
      ensures Valid()
    {
      hide GrowsByDoubling, EscapeByte;
      Store(offset, [QUOTE]);
      end := offset + 1;
      ghost var open := done + [QUOTE];
      assert buffer[..end] == open;
      var i := 0;
      assert open + Escape(input[..0]) == open;
      hide Escape;
      while i < |input|
        invariant 0 <= i <= |input|
        invariant Valid()
        invariant end == offset + 1 + |Escape(input[..i])| <= granted - 2
        invariant buffer[..end] == open + Escape(input[..i])
      {
        EscapeNext(input, i);
        Assoc(open, Escape(input[..i]), EscapeByte(input[i]));
        end := StoreNextEscaped(input, i, end, open + Escape(input[..i]));
        i := i + 1;
      }
      assert input[..i] == input;
    }

    /** The branch of print_string_ptr that copies the string as it is. */
    method StorePlain(input: seq<byte>, ghost done: seq<byte>) returns (end: nat)
      requires Valid() && offset < granted && buffer[..offset] == done
      requires Escape(input) == input
      requires granted == offset + |input| + 3
      modifies buffer
      ensures Valid()
      ensures end == offset + 1 + |input|
      ensures buffer[..end] == done + [QUOTE] + Escape(input)
    {
      hide GrowsByDoubling, Escape;
      Store(offset, [QUOTE]);
      assert buffer[..offset + 1] == done + [QUOTE];
      Store(offset + 1, input);
      end := offset + 1 + |input|;
    }

    /** The writing half of print_string_ptr, after ensure has made the room. */
    method FillString(input: seq<byte>, escapes: nat, ghost text: seq<byte>)
      requires Valid() && NulFree(input) && offset == |text|
      requires |input| + escapes == |Escape(input)|
      requires granted == offset + |Escape(input)| + 3 < length && buffer[..offset] == text
      modifies buffer
      ensures Ends(text + Quote(input))
    {
      hide PrintBuffer.Ends, PrintBuffer.Valid;
      var end;
      EscapeNulFree(input);
      EscapeIdentity(input);
      if escapes == 0 {
        end := StorePlain(input, text);
      } else {
        end := StoreQuoted(input, text);
      }
      CloseString(end, Escape(input), text);
    }

    /** The closing quote and the NUL. */
    method CloseString(end: nat, ghost escaped: seq<byte>, ghost text: seq<byte>)
      requires Valid() && offset == |text| && NulFree(escaped)
      requires end == offset + 1 + |escaped| && granted == end + 2 < length
      requires buffer[..end] == text + [QUOTE] + escaped
      modifies buffer
      ensures Ends(text + ([QUOTE] + escaped + [QUOTE]))
      ensures Valid()
    {
      Store(end, [QUOTE, 0]);
      ghost var word := [QUOTE] + escaped + [QUOTE];
      assert buffer[..end + 2] == text + [QUOTE] + escaped + [QUOTE, 0] == text + (word + [0]);
      StringEnds(text, word);
    }

    /** print_string_ptr: measure, ensure, then write. */
    method PrintString(input: seq<byte>, ghost text: seq<byte>) returns (ok: bool)
      requires Holds(text) && NulFree(input)
      modifies this`buffer, this`length, this`granted, this`growths, buffer
      ensures Valid() && Kept(|text| + |Quote(input)| + 2)
      ensures ok <==> |text| + |Quote(input)| + 2 <= Limit()
      ensures ok ==> Ends(text + Quote(input))
    {
      var escapes := CountEscapes(input);
      ok := Put([], |input| + escapes + 3, text);
      if ok {
        FillString(input, escapes, text);
      }
    }

    /** print_value */
    method PrintValue(t: Json, ghost text: seq<byte>) returns (ok: bool)
      requires Holds(text) && Printable(t)
      modifies this, buffer
      ensures Valid() && Kept(|text| + |Render(t, format, old(depth))| + 2)
      ensures ok <==> |text| + |Render(t, format, old(depth))| + 2 <= Limit()
      ensures ok ==> Ends(text + Render(t, format, old(depth)))
      ensures ok ==> depth == old(depth)
      decreases t, 1
    {
      hide PrintBuffer.Holds, PrintBuffer.Ends, PrintBuffer.Valid;
      match t
      case Null => ok := PutString(TEXT_NULL, text);
      case False => ok := PutString(TEXT_FALSE, text);
      case True => ok := PutString(TEXT_TRUE, text);
      case Number(num) => ok := PrintNumber(num, text);
      case String(str) => ok := PrintString(str, text);
      case Array(items) => ok := PrintArray(items, text);
      case Object(members) => ok := PrintObject(members, text);
    }

    /** print_array */
    method PrintArray(items: seq<Json>, ghost text: seq<byte>) returns (ok: bool)
      requires Holds(text) && PrintableItems(items)
      modifies this, buffer
      ensures Valid() && Kept(|text| + |Render(Array(items), format, old(depth))| + 2)
      ensures ok <==> |text| + |Render(Array(items), format, old(depth))| + 2 <= Limit()
      ensures ok ==> Ends(text + Render(Array(items), format, old(depth)))
      ensures ok ==> depth == old(depth)
      decreases items, 1
    {
      hide PrintBuffer.Holds, PrintBuffer.Ends, PrintBuffer.Valid, PrintBuffer.Limit, Render, RenderItems,
           PrintableItems;
      ArrayParts(text, items, format, depth);
      ok := PutAndAdvance([LBRACKET], [], 1, text);
      if !ok {
        return;
      }
      depth := depth + 1;
      ok := PrintItems(items, text + [LBRACKET]);
      if !ok {
        return;
      }
      ghost var body := text + [LBRACKET] + RenderItems(items, format, depth);
      ok := PutString([RBRACKET], body);
      if ok {
        depth := depth - 1;
      }
    }

    /** The loop of print_array. */
    method PrintItems(items: seq<Json>, ghost text: seq<byte>) returns (ok: bool)
      requires Holds(text) && PrintableItems(items)
      modifies this, buffer
      ensures Valid() && Kept(|text| + |RenderItems(items, format, old(depth))| + 2)
      ensures |text| + |RenderItems(items, format, old(depth))| + 2 <= Limit() ==> ok
      ensures ok ==> Holds(text + RenderItems(items, format, old(depth)))
      ensures ok ==> depth == old(depth)
      decreases items, 0
    {
      hide PrintBuffer.Holds, PrintBuffer.Ends, PrintBuffer.Valid, RenderItems, Render;
      ghost var total := text + RenderItems(items, format, depth);
      ghost var cur := text;
      HoldsValid(text);
      var i := 0;
      while i < |items|
        invariant 0 <= i <= |items|
        invariant Valid() && Kept(|total| + 2) && depth == old(depth)
        invariant Holds(cur) && PrintableItems(items[i..])
        invariant cur + RenderItems(items[i..], format, depth) == total
        decreases |items| - i
      {
        var more := i + 1 < |items|;
        ghost var item := Render(items[i], format, depth);
        ghost var sep := if more then Separator(format) else [];
        ItemsStep(cur, items, i, format, depth);
        ok := PrintItem(items[i], more, cur);
        if !ok {
          return;
        }
        cur := cur + item + sep;
        i := i + 1;
      }
      ListEnd(cur, format, depth);
      ok := true;
    }

    /** The body of that loop: an element, and a separator if another one follows. */
    method PrintItem(item: Json, more: bool, ghost text: seq<byte>) returns (ok: bool)
      requires Holds(text) && Printable(item)
      modifies this, buffer
      ensures Valid()
      ensures Kept(|text| + |Render(item, format, old(depth))| + |if more then Separator(format) else []| + 2)
      ensures |text| + |Render(item, format, old(depth))| + |if more then Separator(format) else []| + 2 <= Limit()
              ==> ok
      ensures ok ==> Holds(text + Render(item, format, old(depth)) + if more then Separator(format) else [])
      ensures ok ==> depth == old(depth)
      decreases item, 2
    {
      hide PrintBuffer.Holds, PrintBuffer.Ends, PrintBuffer.Valid;
      ok := PrintValue(item, text);
      if !ok {
        return;
      }
      ghost var cur := text + Render(item, format, depth);
      UpdateOffset(cur);
      if more {
        var n := if format then 2 else 1;
        ok := PutAndAdvance(Separator(format), [0], n + 1, cur);
      } else {
        ListEnd(cur, format, depth);
      }
    }

    /** print_object */
    method PrintObject(members: seq<Member>, ghost text: seq<byte>) returns (ok: bool)
      requires Holds(text) && PrintableMembers(members)
      modifies this, buffer
      ensures Valid() && Kept(|text| + |Render(Object(members), format, old(depth))| + 2)
      ensures ok <==> |text| + |Render(Object(members), format, old(depth))| + 2 <= Limit()
      ensures ok ==> Ends(text + Render(Object(members), format, old(depth)))
      ensures ok ==> depth == old(depth)
      decreases members, 1
    {
      hide PrintBuffer.Holds, PrintBuffer.Ends, PrintBuffer.Valid, PrintBuffer.Limit, Render, RenderMembers, ObjectOpen,
           Indent, PrintableMembers;
      ObjectParts(text, members, format, depth);
      ok := OpenObject(text);
      if !ok {
        return;
      }
      depth := depth + 1;
      ok := PrintMembers(members, text + ObjectOpen(format));
      if !ok {
        return;
      }
      ghost var body := text + ObjectOpen(format) + RenderMembers(members, format, depth);
      ok := CloseObject(body);
      if ok {
        depth := depth - 1;
      }
    }

    method OpenObject(ghost text: seq<byte>) returns (ok: bool)
      requires Holds(text)
      modifies this`buffer, this`length, this`granted, this`growths, this`offset, buffer
      ensures Valid() && Kept(|text| + |ObjectOpen(format)| + 2)
      ensures ok <==> |text| + |ObjectOpen(format)| + 2 <= Limit()
      ensures ok ==> Holds(text + ObjectOpen(format))
    {
      var n := if format then 2 else 1;
      ok := PutAndAdvance(ObjectOpen(format), [], n + 1, text);
    }

    method CloseObject(ghost text: seq<byte>) returns (ok: bool)
      requires Holds(text) && depth > 0
      modifies this`buffer, this`length, this`granted, this`growths, buffer
      ensures Valid() && Kept(|text| + |Indent(format, depth - 1)| + 3)
      ensures ok <==> |text| + |Indent(format, depth - 1)| + 3 <= Limit()
      ensures ok ==> Ends(text + (Indent(format, depth - 1) + [RBRACE]))
    {
      var close := Indent(format, depth - 1) + [RBRACE];
      ok := Put(close + [0], if format then depth + 1 else 2, text);
      if ok {
        StringEnds(text, close);
      }
    }

    /** The loop of print_object. */
    method PrintMembers(members: seq<Member>, ghost text: seq<byte>) returns (ok: bool)
      requires Holds(text) && PrintableMembers(members)
      modifies this, buffer
      ensures Valid() && Kept(|text| + |RenderMembers(members, format, old(depth))| + 2)
      ensures |text| + |RenderMembers(members, format, old(depth))| + 2 <= Limit() ==> ok
      ensures ok ==> Holds(text + RenderMembers(members, format, old(depth)))
      ensures ok ==> depth == old(depth)
      decreases members, 0
    {
      hide PrintBuffer.Holds, PrintBuffer.Ends, PrintBuffer.Valid, RenderMembers, RenderMember;
      ghost var total := text + RenderMembers(members, format, depth);
      ghost var cur := text;
      HoldsValid(text);
      var i := 0;
      while i < |members|
        invariant 0 <= i <= |members|
        invariant Valid() && Kept(|total| + 2) && depth == old(depth)
        invariant Holds(cur) && PrintableMembers(members[i..])
        invariant cur + RenderMembers(members[i..], format, depth) == total
        decreases |members| - i
      {
        var more := i + 1 < |members|;
        ghost var member := RenderMember(members[i], more, format, depth);
        MembersStep(cur, members, i, format, depth);
        ok := PrintMember(members[i], more, cur);
        if !ok {
          return;
        }
        cur := cur + member;
        i := i + 1;
      }
      ListEnd(cur, format, depth);
      ok := true;
    }

    /** The body of that loop. */
    method PrintMember(m: Member, more: bool, ghost text: seq<byte>) returns (ok: bool)
      requires Holds(text) && NulFree(m.key) && Printable(m.value)
      modifies this, buffer
      ensures Valid() && Kept(|text| + |RenderMember(m, more, format, old(depth))| + 2)
      ensures |text| + |RenderMember(m, more, format, old(depth))| + 2 <= Limit() ==> ok
      ensures ok ==> Holds(text + RenderMember(m, more, format, old(depth)))
      ensures ok ==> depth == old(depth)
      decreases m, 2
    {
      hide PrintBuffer.Holds, PrintBuffer.Ends, PrintBuffer.Valid, RenderName, Render, RenderMember, MemberEnd;
      MemberParts(text, m, more, format, depth);
      ghost var name := RenderName(m.key, format, depth);
      ok := PrintName(m.key, text);
      if !ok {
        return;
      }
      ok := PrintValue(m.value, text + name);
      if !ok {
        return;
      }
      ghost var cur := text + name + Render(m.value, format, depth);
      UpdateOffset(cur);
      var n := (if format then 1 else 0) + (if more then 1 else 0);
      ok := PutAndAdvance(MemberEnd(format, more), [0], n + 1, cur);
    }

    /** Indentation, key and colon. */
    method PrintName(key: seq<byte>, ghost text: seq<byte>) returns (ok: bool)
      requires Holds(text) && NulFree(key)
      modifies this`buffer, this`length, this`granted, this`growths, this`offset, buffer
      ensures Valid() && Kept(|text| + |RenderName(key, format, depth)| + 2)
      ensures |text| + |RenderName(key, format, depth)| + 2 <= Limit() ==> ok
      ensures ok ==> Holds(text + RenderName(key, format, depth))
    {
      hide PrintBuffer.Holds, PrintBuffer.Ends, PrintBuffer.Valid, Quote, Indent, KeyEnd, RenderName;
      NameParts(text, key, format, depth);
      ghost var indented := text + Indent(format, depth);
      ok := PrintIndent(text);
      if !ok {
        return;
      }
      ok := PrintString(key, indented);
      if !ok {
        return;
      }
      UpdateOffset(indented + Quote(key));
      ok := PrintColon(indented + Quote(key));
    }

    method PrintColon(ghost text: seq<byte>) returns (ok: bool)
      requires Holds(text)
      modifies this`buffer, this`length, this`granted, this`growths, this`offset, buffer
      ensures Valid() && Kept(|text| + |KeyEnd(format)| + 1)
      ensures ok <==> |text| + |KeyEnd(format)| + 1 <= Limit()
      ensures ok ==> Holds(text + KeyEnd(format))
    {
      var n := if format then 2 else 1;
      ok := PutAndAdvance(KeyEnd(format), [], n, text);
    }

    /** The tabs in front of a key, in formatted output. */
    method PrintIndent(ghost text: seq<byte>) returns (ok: bool)
      requires Holds(text)
      modifies this`buffer, this`length, this`granted, this`growths, this`offset, buffer
      ensures Valid() && Kept(|text| + |Indent(format, depth)| + 1)
      ensures |text| + |Indent(format, depth)| + 1 <= Limit() ==> ok
      ensures ok ==> Holds(text + Indent(format, depth))
    {
      ok := true;
      if format {
        ok := PutAndAdvance(Tabs(depth), [], depth, text);
      } else {
        assert text + [] == text;
      }
    }
  }

  /**
   * cJSON_PrintPreallocated: true exactly when the buffer is at least two bytes longer than the
   * text (NUL included: one spare byte), and then it holds the text and its NUL. Bytes of the
   * caller's array behind `length` never change.
   */
  method PrintPreallocated(t: Json, buffer: array<byte>, length: int, format: bool) returns (ok: bool)
    requires Printable(t)
    requires length <= buffer.Length && length <= INT_MAX
    modifies buffer
    ensures ok <==> |Render(t, format, 0)| + 2 <= length
    ensures ok ==> buffer[..|Render(t, format, 0)| + 1] == Render(t, format, 0) + [0]
    ensures length >= 0 ==> buffer[length..] == old(buffer[length..])
    ensures length < 0 ==> buffer[..] == old(buffer[..])
  {
    if length < 0 {
      return false;
    }
    var p := new PrintBuffer(buffer, length, true, format);
    ok := p.PrintValue(t, []);
    if ok {
      assert [] + Render(t, format, 0) == Render(t, format, 0);
    }
  }

  /**
   * print / cJSON_PrintBuffered: printing with a growing buffer succeeds exactly below INT_MAX,
   * and reallocates a number of times logarithmic in the length of the text.
   */
  method Print(t: Json, prebuffer: nat, format: bool) returns (ok: bool, text: seq<byte>, ghost growths: nat)
    requires Printable(t) && prebuffer <= INT_MAX
    ensures ok <==> |Render(t, format, 0)| + 2 <= INT_MAX
    ensures ok ==> text == Render(t, format, 0)
    ensures growths > 0 ==> Doubled(Max(prebuffer, 1), growths - 1) <= 2 * (|Render(t, format, 0)| + 2)
    ensures growths > 0 && |Render(t, format, 0)| + 2 <= INT_MAX / 2 ==>
              Doubled(Max(prebuffer, 1), growths) <= 2 * (|Render(t, format, 0)| + 2)
  {
    var buffer := new byte[prebuffer];
    var p := new PrintBuffer(buffer, prebuffer, false, format);
    ghost var whole := Render(t, format, 0);
    assert [] + whole == whole;
    hide Render, Printable;
    ok := p.PrintValue(t, []);
    growths := p.growths;
    text := [];
    if ok {
      p.UpdateOffset(whole);
      text := p.buffer[..p.offset];
    }
  }
}
