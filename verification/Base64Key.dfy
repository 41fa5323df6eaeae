/** DecodeKey: decoding a base64 key into a buffer whose size is computed before the loop. */
module Base64Key {
  import opened Bytes

  const PAD: byte := 61

  /** RFC 4648 section 4, table 1: the symbol for a value below 64. */
  function Symbol(v: nat): byte
    requires v < 64
  {
    if v < 26 then 65 + v
    else if v < 52 then 71 + v
    else if v < 62 then v - 4
    else if v == 62 then 43
    else 47
  }

  /** A byte of the string `base64`: one of the symbols, or the padding. */
  predicate IsSymbol(c: byte) {
    65 <= c <= 90 || 97 <= c <= 122 || 48 <= c <= 57 || c == 43 || c == 47 || c == PAD
  }

  /** strchr(base64, c) - base64; the padding is the last of the 65. */
  function Index(c: byte): (v: nat)
    requires IsSymbol(c)
    ensures v <= 64 && (v == 64 <==> c == PAD)
    ensures v < 64 ==> Symbol(v) == c
  {
    if 65 <= c <= 90 then c - 65
    else if 97 <= c <= 122 then c - 71
    else if 48 <= c <= 57 then c + 4
    else if c == 43 then 62
    else if c == 47 then 63
    else 64
  }

  lemma IndexOfSymbol(v: nat)
    requires v < 64
    ensures IsSymbol(Symbol(v)) && Index(Symbol(v)) == v
  {
  }

  /** strspn(p, base64) */
  function Span(data: seq<byte>): (n: nat)
    ensures n <= |data| && (forall i :: 0 <= i < n ==> IsSymbol(data[i]))
    ensures n < |data| ==> !IsSymbol(data[n])
  {
    if |data| == 0 || !IsSymbol(data[0]) then 0 else 1 + Span(data[1..])
  }

  ghost predicate IsRun(run: seq<byte>) {
    |run| % 4 == 0 && forall i :: 0 <= i < |run| ==> IsSymbol(run[i])
  }

  /** The length computed before the loop. */
  function KeyLength(run: seq<byte>): nat
    requires |run| > 0 && |run| % 4 == 0
  {
    |run| * 3 / 4 - (if run[|run| - 1] == PAD then 1 else 0) - (if run[|run| - 2] == PAD then 1 else 0)
  }

  /** b0 << 2 | b1 >> 4, cut to a byte: with a padding symbol in second place the bits overlap. */
  function FirstByte(b0: nat, b1: nat): byte
    requires b0 <= 64 && b1 <= 64
  {
    if b1 < 64 || b0 % 2 == 0 then (b0 * 4 + b1 / 16) % 256 else b0 * 4 % 256
  }

  /** The bytes that one round of the loop stores. */
  function Quad(b0: nat, b1: nat, b2: nat, b3: nat): (r: seq<byte>)
    requires b0 <= 64 && b1 <= 64 && b2 <= 64 && b3 <= 64
    ensures |r| == if b2 == 64 then 1 else if b3 == 64 then 2 else 3
  {
    [FirstByte(b0, b1)]
    + (if b2 == 64 then []
       else [(b1 * 16 + b2 / 4) % 256] + if b3 == 64 then [] else [(b2 * 64 + b3) % 256])
  }

  /** Everything the loop stores, for a run of symbols. */
  function Decoded(run: seq<byte>): seq<byte>
    requires IsRun(run)
  {
    if |run| == 0 then []
    else Quad(Index(run[0]), Index(run[1]), Index(run[2]), Index(run[3])) + Decoded(run[4..])
  }

  // ---------- the loop ----------

  /** The first round of the loop, and all later ones. */
  lemma DecodedFrom(run: seq<byte>, i: nat)
    requires IsRun(run) && i < |run| && i % 4 == 0
    ensures i + 4 <= |run| && IsRun(run[i..]) && IsRun(run[i + 4..])
    ensures Decoded(run[i..])
         == Quad(Index(run[i]), Index(run[i + 1]), Index(run[i + 2]), Index(run[i + 3])) + Decoded(run[i + 4..])
  {
    assert run[i..][4..] == run[i + 4..];
  }

  /** DecodeKey; key is null and len is 0 if there is no run of symbols of the right length. */
  method DecodeKey(data: seq<byte>) returns (key: array?<byte>, len: nat)
    ensures var n := Span(data);
            if n > 0 && n % 4 == 0 then
              && key != null && fresh(key) && key.Length == len == KeyLength(data[..n])
              && |Decoded(data[..n])| <= len && key[..|Decoded(data[..n])|] == Decoded(data[..n])
            else key == null && len == 0
  {
    hide Decoded;
    var symbols := Span(data);
    if symbols > 0 && symbols % 4 == 0 {
      var bytes := symbols * 3 / 4;
      if data[symbols - 1] == PAD {
        bytes := bytes - 1;
      }
      if data[symbols - 2] == PAD {
        bytes := bytes - 1;
      }
      LengthCovers(data[..symbols]);
      var buffer := new byte[bytes];
      len := bytes;
      StoreRun(buffer, data[..symbols]);
      key := buffer;
    } else {
      key, len := null, 0;
    }
  }

  /** The loop over the symbols. */
  method StoreRun(buffer: array<byte>, run: seq<byte>)
    requires IsRun(run) && |Decoded(run)| <= buffer.Length
    modifies buffer
    ensures buffer[..|Decoded(run)|] == Decoded(run)
  {
    hide Index, Decoded, Quad, IsSymbol;
    var i, j := 0, 0;
    assert run[0..] == run;
    while i < |run|
      invariant 0 <= i <= |run| && i % 4 == 0 && IsRun(run[i..])
      invariant j + |Decoded(run[i..])| == |Decoded(run)|
      invariant buffer[..j] + Decoded(run[i..]) == Decoded(run)
    {
      DecodedFrom(run, i);
      ghost var before := buffer[..j];
      var next := StoreQuad(buffer, j, Index(run[i]), Index(run[i + 1]), Index(run[i + 2]), Index(run[i + 3]));
      Assoc(before, buffer[j..next], Decoded(run[i + 4..]));
      assert buffer[..next] == before + buffer[j..next];
      i, j := i + 4, next;
    }
    NothingLeft(run[i..]);
    assert buffer[..j] + [] == buffer[..j];
  }

  lemma NothingLeft(run: seq<byte>)
    requires |run| == 0
    ensures IsRun(run) && Decoded(run) == []
  {
  }

  /** The body of the loop. */
  method StoreQuad(buffer: array<byte>, start: nat, b0: nat, b1: nat, b2: nat, b3: nat) returns (j: nat)
    requires b0 <= 64 && b1 <= 64 && b2 <= 64 && b3 <= 64
    requires start + |Quad(b0, b1, b2, b3)| <= buffer.Length
    modifies buffer
    ensures j == start + |Quad(b0, b1, b2, b3)| && buffer[start..j] == Quad(b0, b1, b2, b3)
    ensures buffer[..start] == old(buffer[..start])
  {
    j := start;
    buffer[j] := FirstByte(b0, b1);
    j := j + 1;
    if b2 < 64 {
      buffer[j] := (b1 * 16 + b2 / 4) % 256;
      j := j + 1;
      if b3 < 64 {
        buffer[j] := (b2 * 64 + b3) % 256;
        j := j + 1;
      }
    }
  }

  // ---------- the length fits the loop ----------

  /** Padding stands nowhere but in the last place, or in the last two. */
  ghost predicate WellPadded(run: seq<byte>) {
    |run| >= 4
    && (forall q :: 0 <= q < |run| - 4 && q % 4 >= 2 ==> run[q] != PAD)
    && (run[|run| - 2] == PAD ==> run[|run| - 1] == PAD)
  }

  /**
   * Whatever the symbols are, the loop stores no more bytes than were computed beforehand, and it
   * stores all of them exactly if the padding is in its place.
   */
  lemma {:induction false} LengthCovers(run: seq<byte>)
    requires IsRun(run) && |run| > 0
    ensures |Decoded(run)| <= KeyLength(run)
    ensures |Decoded(run)| == KeyLength(run) <==> WellPadded(run)
  {
    var rest := run[4..];
    if |run| > 4 {
      LengthCovers(rest);
      assert rest[|rest| - 1] == run[|run| - 1] && rest[|rest| - 2] == run[|run| - 2];
      PaddingInRest(run);
    } else {
      assert rest == [];
    }
  }

  lemma PaddingInRest(run: seq<byte>)
    requires |run| > 4 && |run| % 4 == 0
    ensures WellPadded(run) <==> WellPadded(run[4..]) && run[2] != PAD && run[3] != PAD
  {
    var rest := run[4..];
    assert forall q :: 4 <= q < |run| ==> run[q] == rest[q - 4];
    if WellPadded(rest) && run[2] != PAD && run[3] != PAD {
      forall q | 0 <= q < |run| - 4 && q % 4 >= 2
        ensures run[q] != PAD
      {
        if q >= 4 {
          assert (q - 4) % 4 >= 2 && rest[q - 4] != PAD;
        }
      }
    }
    if WellPadded(run) {
      forall q | 0 <= q < |rest| - 4 && q % 4 >= 2
        ensures rest[q] != PAD
      {
        assert (q + 4) % 4 >= 2 && run[q + 4] == rest[q];
      }
      assert 2 % 4 >= 2 && 3 % 4 >= 2;
    }
  }

  // ---------- runs that are no encodings ----------

  /** A padding symbol in one of the first two places has no six bits of its own. */
  function SixBits(b: nat): nat {
    if b == 64 then 0 else b
  }

  /**
   * What one group gives, whatever its symbols are: the 24 bits of the four symbols are three bytes; the 18 bits of
   * three are two bytes, and the 12 bits of two are one byte, and the bits that are left over are lost. A padding
   * symbol in the second place only sets a bit of the first byte.
   */
  lemma GroupIsWord(b0: nat, b1: nat, b2: nat, b3: nat)
    requires b0 <= 64 && b1 <= 64 && b2 <= 64 && b3 <= 64
    ensures var r, high := Quad(b0, b1, b2, b3), SixBits(b0) * 64 + SixBits(b1);
            var first: int := r[0] - if b1 == 64 && b0 % 2 == 0 then 4 else 0;
            if b2 == 64 then |r| == 1 && first == high / 16
            else if b3 == 64 then |r| == 2 && first * 256 + r[1] == (high * 64 + b2) / 4
            else |r| == 3 && (first * 256 + r[1]) * 256 + r[2] == (high * 64 + b2) * 64 + b3
  {
    var x0, x1 := SixBits(b0), SixBits(b1);
    FirstOfGroup(b0, b1);
    assert x1 * 16 == x1 / 16 * 256 + x1 % 16 * 16;
    if b2 < 64 {
      SecondOfGroup(b1, b2);
      if b3 < 64 {
        ThirdOfGroup(b2, b3);
      }
    }
  }

  lemma FirstOfGroup(b0: nat, b1: nat)
    requires b0 <= 64 && b1 <= 64
    ensures var first: int := FirstByte(b0, b1) - if b1 == 64 && b0 % 2 == 0 then 4 else 0;
            first == SixBits(b0) * 4 + SixBits(b1) / 16
  {
  }

  lemma SecondOfGroup(b1: nat, b2: nat)
    requires b1 <= 64 && b2 < 64
    ensures (b1 * 16 + b2 / 4) % 256 == SixBits(b1) % 16 * 16 + b2 / 4
  {
    var q, low := b1 / 16, b1 % 16;
    assert b1 == q * 16 + low && SixBits(b1) % 16 == low;
    LowByte(q, low * 16 + b2 / 4);
  }

  lemma LowByte(q: nat, x: nat)
    requires x < 256
    ensures (q * 256 + x) % 256 == x
  {
  }

  lemma ThirdOfGroup(b2: nat, b3: nat)
    requires b2 < 64 && b3 < 64
    ensures (b2 * 64 + b3) % 256 == b2 % 4 * 64 + b3
  {
    var q, low := b2 / 4, b2 % 4;
    assert b2 == q * 4 + low;
    LowByte(q, low * 64 + b3);
  }

  /** The groups of a run are decoded one by one. */
  lemma {:induction false} GroupByGroup(u: seq<byte>, v: seq<byte>)
    requires IsRun(u) && IsRun(v)
    ensures IsRun(u + v) && Decoded(u + v) == Decoded(u) + Decoded(v)
  {
    RunsJoin(u, v);
    if |u| == 0 {
      assert u + v == v;
      NothingLeft(u);
      assert [] + Decoded(v) == Decoded(v);
    } else {
      RunSplit(u);
      hide Decoded, QuadOf, IsSymbol, IsRun;
      var first, rest := u[..4], u[4..];
      GroupByGroup(rest, v);
      FirstGroup(first, rest);
      FirstGroup(first, rest + v);
      assert u == first + rest;
      Assoc(first, rest, v);
      Assoc(QuadOf(first), Decoded(rest), Decoded(v));
    }
  }

  lemma RunSplit(u: seq<byte>)
    requires IsRun(u) && |u| > 0
    ensures |u| >= 4 && IsRun(u[4..]) && forall i :: 0 <= i < 4 ==> IsSymbol(u[..4][i])
  {
  }

  lemma RunsJoin(u: seq<byte>, v: seq<byte>)
    requires IsRun(u) && IsRun(v)
    ensures IsRun(u + v)
  {
  }

  // ---------- the encoding of RFC 4648 section 4 ----------

  /** 24 bits are four groups of six; a last group of 8 or 16 bits is filled up and padded. */
  function Encoded(x: seq<byte>): (r: seq<byte>)
    ensures |r| % 4 == 0 && |r| == (|x| + 2) / 3 * 4
    ensures forall i :: 0 <= i < |r| ==> IsSymbol(r[i])
  {
    if |x| == 0 then []
    else if |x| == 1 then EncodedOne(x[0])
    else if |x| == 2 then EncodedTwo(x[0], x[1])
    else EncodedThree(x[0], x[1], x[2]) + Encoded(x[3..])
  }

  function EncodedOne(a: byte): (r: seq<byte>)
    ensures |r| == 4 && forall i :: 0 <= i < |r| ==> IsSymbol(r[i])
  {
    [Symbol(a / 4), Symbol(a % 4 * 16), PAD, PAD]
  }

  function EncodedTwo(a: byte, b: byte): (r: seq<byte>)
    ensures |r| == 4 && forall i :: 0 <= i < |r| ==> IsSymbol(r[i])
  {
    [Symbol(a / 4), Symbol(a % 4 * 16 + b / 16), Symbol(b % 16 * 4), PAD]
  }

  function EncodedThree(a: byte, b: byte, c: byte): (r: seq<byte>)
    ensures |r| == 4 && forall i :: 0 <= i < |r| ==> IsSymbol(r[i])
  {
    [Symbol(a / 4), Symbol(a % 4 * 16 + b / 16), Symbol(b % 16 * 4 + c / 64), Symbol(c % 64)]
  }

  /** Decoding inverts encoding. */
  lemma {:induction false} DecodedEncoded(x: seq<byte>)
    ensures IsRun(Encoded(x)) && Decoded(Encoded(x)) == x
  {
    hide IsSymbol, Index, Quad, QuadOf;
    if |x| >= 3 {
      hide EncodedThree;
      DecodedEncoded(x[3..]);
      ThreeInvert(x[0], x[1], x[2]);
      FirstGroup(EncodedThree(x[0], x[1], x[2]), Encoded(x[3..]));
      assert x == [x[0], x[1], x[2]] + x[3..];
    } else if |x| == 2 {
      hide EncodedTwo;
      ThreeInvert(x[0], x[1], 0);
      FirstGroup(EncodedTwo(x[0], x[1]), []);
      assert Encoded(x) == EncodedTwo(x[0], x[1]) + [];
      assert x == [x[0], x[1]] + [];
    } else if |x| == 1 {
      hide EncodedOne;
      ThreeInvert(x[0], 0, 0);
      FirstGroup(EncodedOne(x[0]), []);
      assert Encoded(x) == EncodedOne(x[0]) + [];
      assert x == [x[0]] + [];
    }
  }

  lemma FirstGroup(r: seq<byte>, rest: seq<byte>)
    requires |r| == 4 && (forall i :: 0 <= i < |r| ==> IsSymbol(r[i])) && IsRun(rest)
    ensures IsRun(r + rest) && Decoded(r + rest) == QuadOf(r) + Decoded(rest) && Decoded([]) == []
  {
    hide IsSymbol, Index, Quad;
    assert (r + rest)[4..] == rest;
  }

  /** Decoding one group, of three bytes, or of two or one with padding. */
  lemma ThreeInvert(a: byte, b: byte, c: byte)
    ensures QuadOf(EncodedThree(a, b, c)) == [a, b, c]
    ensures c == 0 ==> QuadOf(EncodedTwo(a, b)) == [a, b]
    ensures b == c == 0 ==> QuadOf(EncodedOne(a)) == [a]
  {
    hide Quad, Symbol, Index;
    QuadInverts(a, b, c);
    PadIndex();
  }

  function QuadOf(r: seq<byte>): seq<byte>
    requires |r| == 4 && forall i :: 0 <= i < |r| ==> IsSymbol(r[i])
  {
    Quad(Index(r[0]), Index(r[1]), Index(r[2]), Index(r[3]))
  }

  lemma PadIndex()
    ensures IsSymbol(PAD) && Index(PAD) == 64
  {
  }

  /** Four groups of six bits. */
  lemma QuadInverts(a: byte, b: byte, c: byte)
    ensures var s0, s1, s2, s3 := a / 4, a % 4 * 16 + b / 16, b % 16 * 4 + c / 64, c % 64;
            && Index(Symbol(s0)) == s0 && Index(Symbol(s1)) == s1
            && Index(Symbol(s2)) == s2 && Index(Symbol(s3)) == s3
            && Quad(s0, s1, s2, s3) == [a, b, c] && Quad(s0, s1, s2, 64) == [a, b] && Quad(s0, s1, 64, 64) == [a]
  {
    hide Index, Symbol, FirstByte;
    var s1, s2 := a % 4 * 16 + b / 16, b % 16 * 4 + c / 64;
    IndexOfSymbol(a / 4);
    IndexOfSymbol(s1);
    IndexOfSymbol(s2);
    IndexOfSymbol(c % 64);
    FirstOfThree(a, b / 16);
    SecondOfThree(b, a % 4, c / 64);
    ThirdOfThree(c, b % 16);
  }

  lemma FirstOfThree(a: byte, low: nat)
    requires low < 16
    ensures FirstByte(a / 4, a % 4 * 16 + low) == a
  {
    assert (a % 4 * 16 + low) / 16 == a % 4;
  }

  lemma SecondOfThree(b: byte, high: nat, low: nat)
    requires high < 4 && low < 4
    ensures ((high * 16 + b / 16) * 16 + (b % 16 * 4 + low) / 4) % 256 == b
  {
    assert (b % 16 * 4 + low) / 4 == b % 16;
    var x: int := b;
    assert (high * 16 + x / 16) * 16 + x % 16 == high * 256 + x;
  }

  lemma ThirdOfThree(c: byte, high: nat)
    requires high < 16
    ensures ((high * 4 + c / 64) * 64 + c % 64) % 256 == c
  {
    var x: int := c;
    assert (high * 4 + x / 64) * 64 + x % 64 == high * 256 + x;
  }

  lemma {:induction false} SpanOfRun(run: seq<byte>, rest: seq<byte>)
    requires forall i :: 0 <= i < |run| ==> IsSymbol(run[i])
    requires |rest| > 0 ==> !IsSymbol(rest[0])
    ensures Span(run + rest) == |run|
  {
    if |run| == 0 {
      assert run + rest == rest;
    } else {
      assert (run + rest)[1..] == run[1..] + rest;
      SpanOfRun(run[1..], rest);
    }
  }

  /**
   * For every non-empty key: the encoded key, with anything behind it that is no symbol, is
   * decoded to the key, and the length is the key's.
   */
  lemma KeyRoundTrip(x: seq<byte>, rest: seq<byte>)
    requires |x| > 0 && (|rest| > 0 ==> !IsSymbol(rest[0]))
    ensures var data := Encoded(x) + rest;
            var n := Span(data);
            && n > 0 && n % 4 == 0
            && Decoded(data[..n]) == x && KeyLength(data[..n]) == |x|
  {
    var run := Encoded(x);
    SpanOfRun(run, rest);
    DecodedEncoded(x);
    assert (run + rest)[..|run|] == run;
    PaddingOfEncoded(x);
    LengthCovers(run);
  }

  lemma {:induction false} PaddingOfEncoded(x: seq<byte>)
    requires |x| > 0
    ensures WellPadded(Encoded(x))
  {
    if |x| > 3 {
      PaddingOfEncoded(x[3..]);
      assert Encoded(x)[4..] == Encoded(x[3..]);
      PaddingInRest(Encoded(x));
    }
  }
}
