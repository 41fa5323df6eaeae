/** Bytes of C text, and what it means for a word to stand at a position of a text. */
module Bytes {

  type byte = b: int | 0 <= b < 256

  datatype Option<+T> = None | Some(value: T)

  /** No byte is NUL: the contents of a C string. */
  ghost predicate NulFree(s: seq<byte>) {
    forall i :: 0 <= i < |s| ==> s[i] != 0
  }

  lemma NulFreeConcat(u: seq<byte>, v: seq<byte>)
    requires NulFree(u) && NulFree(v)
    ensures NulFree(u + v)
  {
  }

  lemma Assoc(a: seq<byte>, b: seq<byte>, c: seq<byte>)
    ensures a + b + c == a + (b + c)
  {
  }

  lemma Assoc4(a: seq<byte>, b: seq<byte>, c: seq<byte>, d: seq<byte>)
    ensures a + b + c + d == a + (b + c + d)
  {
  }

  /** `w` stands in `s` at position `o`. */
  ghost predicate At(s: seq<byte>, o: nat, w: seq<byte>) {
    o + |w| <= |s| && s[o..o + |w|] == w
  }

  lemma WholeAt(s: seq<byte>)
    ensures At(s, 0, s)
  {
  }

  lemma AtIsSlice(s: seq<byte>, o: nat, w: seq<byte>)
    requires At(s, o, w)
    ensures o + |w| <= |s| && s[o..o + |w|] == w
  {
  }

  lemma AtSplit(s: seq<byte>, o: nat, u: seq<byte>, v: seq<byte>)
    requires At(s, o, u + v)
    ensures At(s, o, u) && At(s, o + |u|, v)
  {
    var w := u + v;
    assert s[o..o + |w|][..|u|] == u;
    assert s[o..o + |w|][|u|..] == v;
    assert s[o..o + |u|] == s[o..o + |w|][..|u|];
    assert s[o + |u|..o + |w|] == s[o..o + |w|][|u|..];
  }

  /** The first byte of a word that stands in a text. */
  lemma AtHead(s: seq<byte>, o: nat, w: seq<byte>)
    requires At(s, o, w) && |w| > 0
    ensures s[o] == w[0]
  {
    assert s[o..o + |w|][0] == s[o];
  }

  /** Any byte of a word that stands in a text. */
  lemma AtByte(s: seq<byte>, o: nat, w: seq<byte>, k: nat)
    requires At(s, o, w) && k < |w|
    ensures s[o + k] == w[k]
  {
    assert s[o..o + |w|][k] == s[o + k];
  }

  /** The C string a buffer holds: everything before its first NUL. */
  function CStr(s: seq<byte>): (r: seq<byte>)
    ensures NulFree(r) && r <= s
    ensures NulFree(s) ==> r == s
  {
    if |s| == 0 || s[0] == 0 then [] else [s[0]] + CStr(s[1..])
  }

  function Max(a: int, b: int): int {
    if a < b then b else a
  }
}
