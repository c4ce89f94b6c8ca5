/**
  UTF-8 as the compositor and its unlock helper see it: the encoder behind the
  password field (include/hikari/utf8.h), the strict decoder both sides of the
  unlock pipe carry a copy of, and the reading of a byte string as the
  characters it starts with.

  Well-formedness is stated by the byte-range grammar of section 4 of RFC 3629,
  which the C code never mentions: it masks bits, accumulates a value and range
  checks it afterwards. The two are proved to agree.
 */
module Utf8 {

  type byte = x: int | 0 <= x < 256

  datatype Decoded = Malformed | Character(codepoint: nat, size: nat)

  // ---------------------------------------------------------------- grammar

  predicate Tail(b: byte) { 0x80 <= b <= 0xBF }

  /** `s` is exactly one UTF8-char of section 4 of RFC 3629. */
  predicate IsChar(s: seq<byte>) {
    || (|s| == 1 && s[0] <= 0x7F)
    || (|s| == 2 && 0xC2 <= s[0] <= 0xDF && Tail(s[1]))
    || (|s| == 3 && Tail(s[2]) &&
        (|| (s[0] == 0xE0 && 0xA0 <= s[1] <= 0xBF)
         || (0xE1 <= s[0] <= 0xEC && Tail(s[1]))
         || (s[0] == 0xED && 0x80 <= s[1] <= 0x9F)
         || (0xEE <= s[0] <= 0xEF && Tail(s[1]))))
    || (|s| == 4 && Tail(s[2]) && Tail(s[3]) &&
        (|| (s[0] == 0xF0 && 0x90 <= s[1] <= 0xBF)
         || (0xF1 <= s[0] <= 0xF3 && Tail(s[1]))
         || (s[0] == 0xF4 && 0x80 <= s[1] <= 0x8F)))
  }

  /** Unicode scalar values: everything up to U+10FFFF but the surrogates. */
  predicate IsScalar(cp: int) {
    0 <= cp < 0xD800 || 0xE000 <= cp <= 0x10FFFF
  }

  /** The number the payload bits of a character spell. */
  function CodepointOf(c: seq<byte>): nat
    requires IsChar(c)
  {
    if |c| == 1 then c[0]
    else if |c| == 2 then Low(c[0], 32) * 64 + Low(c[1], 64)
    else if |c| == 3 then Low(c[0], 16) * 4096 + Low(c[1], 64) * 64 + Low(c[2], 64)
    else Low(c[0], 8) * 262144 + Low(c[1], 64) * 4096 + Low(c[2], 64) * 64 + Low(c[3], 64)
  }

  /** The bits of `b` below `m`, a power of two. */
  function Low(b: byte, m: nat): (n: nat)
    requires m > 0
    ensures n < m
  {
    b % m
  }

  // ---------------------------------------------------------------- encoder

  /** How many bytes a codepoint takes. */
  function CharSize(cp: nat): (n: nat)
    ensures 1 <= n <= 4
  {
    if cp < 0x80 then 1 else if cp < 0x800 then 2 else if cp < 0x10000 then 3 else 4
  }

  /** The bytes the encoder writes for any 32-bit codepoint. The last one is a
      `char`, so the top of an out-of-range codepoint is cut to eight bits after
      the lead mark has been or-ed in. */
  function Encode(cp: nat): (s: seq<byte>)
    requires cp < 0x1_0000_0000
    ensures |s| == CharSize(cp)
  {
    if cp < 0x80 then [cp]
    else if cp < 0x800 then [0xC0 + cp / 64, 0x80 + cp % 64]
    else if cp < 0x10000 then [0xE0 + cp / 4096, 0x80 + cp / 64 % 64, 0x80 + cp % 64]
    else [LeadOfFour(cp / 262144), 0x80 + cp / 4096 % 64, 0x80 + cp / 64 % 64, 0x80 + cp % 64]
  }

  /** `(top | 0xf0)` stored in eight bits: the low four bits of `top` show. */
  function LeadOfFour(top: nat): (b: byte) { 0xF0 + top % 16 }

  /** Every character the encoder writes for a scalar value is well formed and
      spells that value; every well-formed character is one the encoder writes. */
  lemma EncodeInvertsCodepoint(cp: nat)
    requires IsScalar(cp)
    ensures IsChar(Encode(cp)) && CodepointOf(Encode(cp)) == cp
  {
    var q, d := cp / 64, cp % 64;
    assert cp == q * 64 + d;
    if 0x80 <= cp < 0x800 {
      EncodeTwo(q, d);
    } else if 0x800 <= cp {
      var p, c := q / 64, q % 64;
      assert q == p * 64 + c;
      if cp < 0x10000 {
        EncodeThree(p, c, d);
      } else {
        var a, b := p / 64, p % 64;
        assert p == a * 64 + b;
        EncodeFour(a, b, c, d);
      }
    }
  }

  lemma CodepointInvertsEncode(c: seq<byte>)
    requires IsChar(c)
    ensures IsScalar(CodepointOf(c)) && Encode(CodepointOf(c)) == c
  {
    if |c| == 2 {
      EncodeTwo(c[0] - 0xC0, c[1] - 0x80);
      assert c == [c[0], c[1]];
    } else if |c| == 3 {
      InvertThree(c[0] - 0xE0, c[1] - 0x80, c[2] - 0x80);
      assert c == [c[0], c[1], c[2]];
    } else if |c| == 4 {
      InvertFour(c[0] - 0xF0, c[1] - 0x80, c[2] - 0x80, c[3] - 0x80);
      assert c == [c[0], c[1], c[2], c[3]];
    }
  }

  lemma InvertThree(x: nat, y: nat, z: nat)
    requires x < 16 && y < 64 && z < 64 && IsChar([0xE0 + x, 0x80 + y, 0x80 + z])
    ensures var c := [0xE0 + x, 0x80 + y, 0x80 + z];
            IsScalar(CodepointOf(c)) && Encode(CodepointOf(c)) == c
  {
    EncodeThree(x, y, z);
  }

  lemma InvertFour(x: nat, y: nat, z: nat, w: nat)
    requires x < 8 && y < 64 && z < 64 && w < 64 && IsChar([0xF0 + x, 0x80 + y, 0x80 + z, 0x80 + w])
    ensures var c := [0xF0 + x, 0x80 + y, 0x80 + z, 0x80 + w];
            IsScalar(CodepointOf(c)) && Encode(CodepointOf(c)) == c
  {
    EncodeFour(x, y, z, w);
  }

  lemma EncodeTwo(x: nat, y: nat)
    requires 2 <= x < 32 && y < 64
    ensures Encode(x * 64 + y) == [0xC0 + x, 0x80 + y]
    ensures IsChar([0xC0 + x, 0x80 + y]) && CodepointOf([0xC0 + x, 0x80 + y]) == x * 64 + y
  {
    assert (x * 64 + y) / 64 == x;
    LowOf(0xC0, x, 32);
    LowOf(0x80, y, 64);
  }

  lemma EncodeThree(x: nat, y: nat, z: nat)
    requires x < 16 && y < 64 && z < 64
    requires var cp := x * 4096 + y * 64 + z; 0x800 <= cp && IsScalar(cp)
    ensures Encode(x * 4096 + y * 64 + z) == [0xE0 + x, 0x80 + y, 0x80 + z]
    ensures IsChar([0xE0 + x, 0x80 + y, 0x80 + z])
    ensures CodepointOf([0xE0 + x, 0x80 + y, 0x80 + z]) == x * 4096 + y * 64 + z
  {
    var cp := x * 4096 + y * 64 + z;
    assert cp / 4096 == x && cp / 64 == x * 64 + y && cp % 64 == z;
    assert (x * 64 + y) % 64 == y;
    LowOf(0xE0, x, 16);
    LowOf(0x80, y, 64);
    LowOf(0x80, z, 64);
  }

  lemma EncodeFour(x: nat, y: nat, z: nat, w: nat)
    requires x < 8 && y < 64 && z < 64 && w < 64
    requires var cp := x * 262144 + y * 4096 + z * 64 + w; 0x10000 <= cp && IsScalar(cp)
    ensures Encode(x * 262144 + y * 4096 + z * 64 + w) == [0xF0 + x, 0x80 + y, 0x80 + z, 0x80 + w]
    ensures IsChar([0xF0 + x, 0x80 + y, 0x80 + z, 0x80 + w])
    ensures CodepointOf([0xF0 + x, 0x80 + y, 0x80 + z, 0x80 + w]) == x * 262144 + y * 4096 + z * 64 + w
  {
    var cp := x * 262144 + y * 4096 + z * 64 + w;
    assert cp / 262144 == x && cp / 4096 == x * 64 + y && cp / 64 == x * 4096 + y * 64 + z && cp % 64 == w;
    assert (x * 64 + y) % 64 == y;
    assert (x * 4096 + y * 64 + z) % 64 == z;
    LowOf(0xF0, x, 8);
    LowOf(0x80, y, 64);
    LowOf(0x80, z, 64);
    LowOf(0x80, w, 64);
  }

  lemma LowOf(mark: byte, payload: nat, m: nat)
    requires m in {8, 16, 32, 64} && mark % m == 0 && payload < m && mark + payload < 256
    ensures Low(mark + payload, m) == payload
  {
  }

  /** No encoded codepoint but U+0000 contains a zero byte, not even one the
      encoder should never have been given. */
  lemma EncodeHasNoZero(cp: nat)
    requires 0 < cp < 0x1_0000_0000
    ensures forall i :: 0 <= i < |Encode(cp)| ==> Encode(cp)[i] != 0
  {
  }

  // ---------------------------------------------------------------- decoder

  /** The length and payload a lead byte announces; (0, 0) when it is no lead. */
  function Lead(b: byte): (r: (nat, nat))
    ensures r.0 <= 4
  {
    if b < 0x80 then (1, b)
    else if b / 32 == 6 then (2, Low(b, 32))
    else if b / 16 == 14 then (3, Low(b, 16))
    else if b / 8 == 30 then (4, Low(b, 8))
    else (0, 0)
  }

  lemma LeadGivesSize(c: seq<byte>)
    requires IsChar(c)
    ensures Lead(c[0]).0 == |c|
  {
  }

  /** What a strict decoder answers at the head of `s`. */
  function DecodeFirst(s: seq<byte>): (d: Decoded)
    ensures d.Character? ==> 1 <= d.size <= |s| && d.size <= 4
  {
    var n := if s == [] then 0 else Lead(s[0]).0;
    if 1 <= n <= |s| && IsChar(s[..n]) then Character(CodepointOf(s[..n]), n) else Malformed
  }

  /** The decoder finds a character exactly when one starts the input, whatever
      follows it. */
  lemma DecodeFirstOfChar(c: seq<byte>, rest: seq<byte>)
    requires IsChar(c)
    ensures DecodeFirst(c + rest) == Character(CodepointOf(c), |c|)
  {
    LeadGivesSize(c);
    hide IsChar, Lead, CodepointOf;
    assert (c + rest)[..|c|] == c;
  }

  lemma DecodedIsChar(s: seq<byte>)
    ensures DecodeFirst(s).Character? ==>
              var n := DecodeFirst(s).size;
              IsChar(s[..n]) && DecodeFirst(s).codepoint == CodepointOf(s[..n])
    ensures DecodeFirst(s).Malformed? ==> forall n :: 0 <= n <= |s| ==> !IsChar(s[..n])
  {
    forall n | 0 <= n <= |s| && IsChar(s[..n])
      ensures n == Lead(s[0]).0
    {
      LeadGivesSize(s[..n]);
    }
  }

  /** Smallest codepoint each sequence length may carry. */
  function Minimum(length: nat): nat {
    if length <= 1 then 0 else if length == 2 then 0x80 else if length == 3 then 0x800 else 0x10000
  }

  /** utf8_decode: mask the lead byte, fold in the continuation bytes, and range
      check the value. Stops at the first byte that is not a continuation. */
  method Decode(s: seq<byte>, start: nat, len: nat) returns (d: Decoded)
    requires start + len <= |s|
    ensures d == DecodeFirst(s[start..start + len])
  {
    ghost var t := s[start..start + len];
    if len == 0 { return Malformed; }

    var (length, value) := Lead(s[start]);
    if length == 0 { return Malformed; }
    if length > len {
      return Malformed;
    }

    var i := 1;
    while i < length
      invariant 1 <= i <= length
      invariant forall k :: 1 <= k < i ==> Tail(t[k])
      invariant value == Folded(t, length, i)
    {
      if s[start + i] / 64 != 2 {
        assert !Tail(t[i]);
        return Malformed;
      }
      value := value * 64 + Low(s[start + i], 64);
      i := i + 1;
    }

    RangeCheckIsGrammar(t, length);
    if value < Minimum(length) || value > 0x10FFFF || 0xD800 <= value <= 0xDFFF {
      return Malformed;
    }
    return Character(value, length);
  }

  /** The value accumulated from the lead byte and the first `i - 1`
      continuation bytes. */
  ghost function Folded(t: seq<byte>, length: nat, i: nat): nat
    requires 1 <= i <= |t| && Lead(t[0]).0 == length
  {
    if i == 1 then Lead(t[0]).1 else Folded(t, length, i - 1) * 64 + Low(t[i - 1], 64)
  }

  /** Range checking the accumulated value is the grammar: overlong forms,
      surrogates and values past U+10FFFF are exactly what the second-byte
      ranges of the grammar leave out. */
  lemma RangeCheckIsGrammar(t: seq<byte>, length: nat)
    requires 1 <= length <= |t| && Lead(t[0]).0 == length
    requires forall k :: 1 <= k < length ==> Tail(t[k])
    ensures var v := Folded(t, length, length);
            var ok := Minimum(length) <= v <= 0x10FFFF && !(0xD800 <= v <= 0xDFFF);
            DecodeFirst(t) == if ok then Character(v, length) else Malformed
  {
    LeadRanges(t[0]);
    hide Lead, Low, IsChar, CodepointOf, DecodeFirst;
    if length == 1 {
      RangeOne(t);
    } else if length == 2 {
      RangeTwo(t);
    } else if length == 3 {
      RangeThree(t);
    } else {
      RangeFour(t);
    }
  }

  lemma RangeOne(t: seq<byte>)
    requires |t| > 0 && Lead(t[0]).0 == 1
    ensures var v := Folded(t, 1, 1); v < 0x80 && DecodeFirst(t) == Character(v, 1)
  {
    LeadRanges(t[0]);
  }

  lemma RangeTwo(t: seq<byte>)
    requires |t| >= 2 && Lead(t[0]).0 == 2 && Tail(t[1])
    ensures var v := Folded(t, 2, 2);
            && v < 0x800
            && DecodeFirst(t) == if v >= 0x80 then Character(v, 2) else Malformed
  {
    LeadRanges(t[0]);
    SecondByteOfTwo(t[0], t[1]);
    hide Low;
    assert Folded(t, 2, 2) == Folded(t, 2, 1) * 64 + Low(t[1], 64);
    assert t[..2] == [t[0], t[1]];
  }

  lemma RangeThree(t: seq<byte>)
    requires |t| >= 3 && Lead(t[0]).0 == 3 && Tail(t[1]) && Tail(t[2])
    ensures var v := Folded(t, 3, 3);
            && v < 0x10000
            && DecodeFirst(t) == if v >= 0x800 && !(0xD800 <= v <= 0xDFFF) then Character(v, 3) else Malformed
  {
    LeadRanges(t[0]);
    SecondByteOfThree(t[0], t[1], t[2]);
    hide Low;
    assert Folded(t, 3, 2) == Low(t[0], 16) * 64 + Low(t[1], 64);
    assert Folded(t, 3, 3) == Low(t[0], 16) * 4096 + Low(t[1], 64) * 64 + Low(t[2], 64);
    assert t[..3] == [t[0], t[1], t[2]];
  }

  lemma RangeFour(t: seq<byte>)
    requires |t| >= 4 && Lead(t[0]).0 == 4 && Tail(t[1]) && Tail(t[2]) && Tail(t[3])
    ensures var v := Folded(t, 4, 4);
            DecodeFirst(t) == if 0x10000 <= v <= 0x10FFFF then Character(v, 4) else Malformed
  {
    LeadRanges(t[0]);
    SecondByteOfFour(t[0], t[1], t[2], t[3]);
    hide Low;
    assert Folded(t, 4, 2) == Low(t[0], 8) * 64 + Low(t[1], 64);
    assert Folded(t, 4, 3) == Low(t[0], 8) * 4096 + Low(t[1], 64) * 64 + Low(t[2], 64);
    assert Folded(t, 4, 4) == Low(t[0], 8) * 262144 + Low(t[1], 64) * 4096 + Low(t[2], 64) * 64 + Low(t[3], 64);
    assert t[..4] == [t[0], t[1], t[2], t[3]];
  }

  lemma LeadRanges(b: byte)
    ensures Lead(b).0 == 1 <==> b < 0x80
    ensures Lead(b).0 == 2 <==> 0xC0 <= b < 0xE0
    ensures Lead(b).0 == 3 <==> 0xE0 <= b < 0xF0
    ensures Lead(b).0 == 4 <==> 0xF0 <= b < 0xF8
  {
  }

  lemma SecondByteOfTwo(a: byte, b: byte)
    requires 0xC0 <= a < 0xE0 && Tail(b)
    ensures IsChar([a, b]) <==> Low(a, 32) * 64 + Low(b, 64) >= 0x80
    ensures Low(a, 32) * 64 + Low(b, 64) < 0x800
  {
    assert Low(a, 32) == a - 0xC0 && Low(b, 64) == b - 0x80;
  }

  lemma SecondByteOfThree(a: byte, b: byte, c: byte)
    requires 0xE0 <= a < 0xF0 && Tail(b) && Tail(c)
    ensures var v := Low(a, 16) * 4096 + Low(b, 64) * 64 + Low(c, 64);
            (IsChar([a, b, c]) <==> v >= 0x800 && !(0xD800 <= v <= 0xDFFF)) && v < 0x10000
  {
    assert Low(a, 16) == a - 0xE0 && Low(b, 64) == b - 0x80 && Low(c, 64) == c - 0x80;
  }

  lemma SecondByteOfFour(a: byte, b: byte, c: byte, d: byte)
    requires 0xF0 <= a < 0xF8 && Tail(b) && Tail(c) && Tail(d)
    ensures var v := Low(a, 8) * 262144 + Low(b, 64) * 4096 + Low(c, 64) * 64 + Low(d, 64);
            IsChar([a, b, c, d]) <==> 0x10000 <= v <= 0x10FFFF
  {
    assert Low(a, 8) == a - 0xF0 && Low(b, 64) == b - 0x80;
    assert Low(c, 64) == c - 0x80 && Low(d, 64) == d - 0x80;
  }

  // ------------------------------------------------- strings of characters

  function Concat(cs: seq<seq<byte>>): seq<byte> {
    if cs == [] then [] else cs[0] + Concat(cs[1..])
  }

  predicate AllChars(cs: seq<seq<byte>>) {
    forall i :: 0 <= i < |cs| ==> IsChar(cs[i])
  }

  /** The characters a byte string starts with, up to the first byte that
      starts none. */
  function Characters(s: seq<byte>): (cs: seq<seq<byte>>)
    ensures AllChars(cs)
  {
    DecodedIsChar(s);
    match DecodeFirst(s)
    case Malformed => []
    case Character(_, n) => [s[..n]] + Characters(s[n..])
  }

  /** Well-formed UTF-8: nothing is left after the leading characters. */
  predicate IsValid(s: seq<byte>) { Concat(Characters(s)) == s }

  lemma {:induction false} ConcatAppend(a: seq<seq<byte>>, b: seq<seq<byte>>)
    ensures Concat(a + b) == Concat(a) + Concat(b)
  {
    if a == [] {
      assert a + b == b;
    } else {
      assert (a + b)[1..] == a[1..] + b;
      ConcatAppend(a[1..], b);
    }
  }

  lemma CharactersStep(c: seq<byte>, more: seq<byte>)
    requires IsChar(c)
    ensures Characters(c + more) == [c] + Characters(more)
  {
    DecodeFirstOfChar(c, more);
    hide IsChar, Lead, CodepointOf, DecodeFirst;
    assert (c + more)[..|c|] == c && (c + more)[|c|..] == more;
  }

  lemma ValidStep(c: seq<byte>, more: seq<byte>)
    requires IsChar(c)
    ensures IsValid(c + more) <==> IsValid(more)
  {
    CharactersStep(c, more);
    hide IsChar, Characters;
    assert ([c] + Characters(more))[1..] == Characters(more);
    var t := Concat(Characters(more));
    assert (c + t)[|c|..] == t && (c + more)[|c|..] == more;
  }

  lemma {:induction false} CharactersOfConcat(cs: seq<seq<byte>>, rest: seq<byte>)
    requires AllChars(cs)
    ensures Characters(Concat(cs) + rest) == cs + Characters(rest)
  {
    hide IsChar, Characters;
    if cs == [] {
      assert Concat(cs) + rest == rest;
    } else {
      var more := Concat(cs[1..]) + rest;
      assert Concat(cs) + rest == cs[0] + more;
      CharactersStep(cs[0], more);
      CharactersOfConcat(cs[1..], rest);
      assert cs + Characters(rest) == [cs[0]] + (cs[1..] + Characters(rest));
    }
  }

  /** A byte string is valid exactly when it can be cut into characters, and
      then in one way only. */
  lemma ValidIffCut(s: seq<byte>, cs: seq<seq<byte>>)
    requires AllChars(cs) && Concat(cs) == s
    ensures IsValid(s) && Characters(s) == cs
  {
    CharactersOfConcat(cs, []);
    assert Characters([]) == [];
    hide IsChar, Characters;
    assert Concat(cs) + [] == s && cs + [] == cs;
  }

  lemma ValidAppend(a: seq<byte>, b: seq<byte>)
    requires IsValid(a) && IsValid(b)
    ensures IsValid(a + b) && Characters(a + b) == Characters(a) + Characters(b)
  {
    ConcatAppend(Characters(a), Characters(b));
    ValidIffCut(a + b, Characters(a) + Characters(b));
  }

  /** The valid prefix really is a prefix, and nothing longer decodes. */
  lemma {:induction false} CharactersArePrefix(s: seq<byte>)
    ensures Concat(Characters(s)) <= s
    ensures DecodeFirst(s[|Concat(Characters(s))|..]).Malformed?
    decreases |s|
  {
    hide IsChar, Lead, CodepointOf, DecodeFirst;
    match DecodeFirst(s)
    case Malformed => assert s[0..] == s;
    case Character(_, n) =>
      CharactersArePrefix(s[n..]);
      var rest := Concat(Characters(s[n..]));
      assert Characters(s)[1..] == Characters(s[n..]);
      assert s == s[..n] + s[n..];
      assert s[|s[..n] + rest|..] == s[n..][|rest|..];
  }
}
