/**
  What the top bar draws for a block that may be too long: the codepoint
  helpers and the scrolling window of src/bar.c, over NUL-terminated strings
  that need not be valid UTF-8 past some point.
 */
module BarText {
  import opened Arithmetic
  import opened Options
  import opened Utf8
  import opened Diagnostics

  // Longest cap a configuration may ask for, and the buffer it needs.
  const CAP_MAX: nat := 256
  const SCROLL_BYTES: nat := 4 * CAP_MAX + 1

  /** A C string: its bytes without the terminator. */
  predicate IsString(s: seq<byte>) { 0 !in s }

  /** Reading a C string: its terminator can be read, nothing past it. */
  function CharAt(s: seq<byte>, i: nat): byte
    requires i <= |s|
  {
    if i < |s| then s[i] else 0
  }

  // ------------------------------------------------------------ codepoints

  /** utf8_sequence_len: how long the character at `at` is, 0 if there is none.
      The terminator counts as a character of one byte; callers test it first. */
  method SequenceLen(s: seq<byte>, at: nat) returns (n: nat)
    requires IsString(s) && at <= |s|
    ensures at == |s| ==> n == 1
    ensures at < |s| ==> n == if DecodeFirst(s[at..]).Character? then DecodeFirst(s[at..]).size else 0
  {
    var c := CharAt(s, at);
    if c < 0x80 {
      return 1;
    }
    var (len, cp) := Lead(c);
    if len == 0 {
      return 0;
    }
    ghost var t := s[at..];
    var i := 1;
    while i < len
      invariant 1 <= i <= len && at + i <= |s|
      invariant forall k :: 1 <= k < i ==> Tail(t[k])
      invariant cp == Folded(t, len, i)
    {
      if CharAt(s, at + i) / 64 != 2 {
        NotAChar(t, len, i);
        return 0;
      }
      cp := cp * 64 + Low(s[at + i], 64);
      i := i + 1;
    }
    RangeCheckIsGrammar(t, len);
    if cp < Minimum(len) || cp > 0x10FFFF || 0xD800 <= cp <= 0xDFFF {
      return 0;
    }
    return len;
  }

  /** A sequence that breaks off, or runs into the end, decodes to nothing. */
  lemma NotAChar(t: seq<byte>, len: nat, i: nat)
    requires t != [] && Lead(t[0]).0 == len && 1 <= i < len && i <= |t|
    requires i < |t| ==> !Tail(t[i])
    ensures DecodeFirst(t).Malformed?
  {
  }

  /** The walk over the valid prefix, after `n` of its characters. */
  ghost predicate Walking(s: seq<byte>, n: nat, off: nat) {
    n <= |Characters(s)| && off == |Concat(Characters(s)[..n])| && off <= |s| &&
      Characters(s[off..]) == Characters(s)[n..]
  }

  lemma WalkOn(s: seq<byte>, n: nat, off: nat)
    requires Walking(s, n, off)
    ensures DecodeFirst(s[off..]).Malformed? <==> n == |Characters(s)|
    ensures n < |Characters(s)| ==>
              var size := DecodeFirst(s[off..]).size;
              off + size <= |s| && s[off..off + size] == Characters(s)[n] && Walking(s, n + 1, off + size)
  {
    hide IsChar, Lead, CodepointOf, DecodeFirst, Characters;
    var t, cs := s[off..], Characters(s);
    Unfold(t);
    if DecodeFirst(t).Character? {
      var size := DecodeFirst(t).size;
      assert t[size..] == s[off + size..] && t[..size] == s[off..off + size];
      assert cs[n..][1..] == cs[n + 1..];
      ConcatOne(cs, n);
    }
  }

  lemma Unfold(t: seq<byte>)
    ensures DecodeFirst(t).Malformed? ==> Characters(t) == []
    ensures DecodeFirst(t).Character? ==>
            Characters(t) == [t[..DecodeFirst(t).size]] + Characters(t[DecodeFirst(t).size..])
  {
    hide DecodeFirst, IsChar;
  }

  lemma ConcatOne(cs: seq<seq<byte>>, n: nat)
    requires n < |cs|
    ensures Concat(cs[..n + 1]) == Concat(cs[..n]) + cs[n]
  {
    assert cs[..n + 1] == cs[..n] + [cs[n]];
    ConcatAppend(cs[..n], [cs[n]]);
    assert Concat([cs[n]]) == cs[n];
  }

  /** utf8_count: the characters of the valid prefix, and its length in bytes. */
  method Count(s: seq<byte>) returns (count: nat, valid: nat)
    requires IsString(s)
    ensures count == |Characters(s)| && valid == |Concat(Characters(s))|
  {
    hide Characters, DecodeFirst;
    count, valid := 0, 0;
    assert s[0..] == s && Characters(s)[..0] == [];
    while CharAt(s, valid) != 0
      invariant valid <= |s| && Walking(s, count, valid)
      decreases |s| - valid
    {
      var len := SequenceLen(s, valid);
      WalkOn(s, count, valid);
      if len == 0 {
        break;
      }
      valid := valid + len;
      count := count + 1;
    }
    WalkOn(s, count, valid);
    assert Characters(s)[..count] == Characters(s);
  }

  /** utf8_offset_of: where the nth character starts, or the valid prefix ends. */
  method OffsetOf(s: seq<byte>, n: nat) returns (off: nat)
    requires IsString(s)
    ensures var cs := Characters(s); Walking(s, if n < |cs| then n else |cs|, off)
  {
    hide Characters, DecodeFirst;
    off := 0;
    var i := 0;
    assert s[0..] == s && Characters(s)[..0] == [];
    while i < n && CharAt(s, off) != 0
      invariant i <= n && off <= |s| && Walking(s, i, off)
      decreases n - i
    {
      var len := SequenceLen(s, off);
      WalkOn(s, i, off);
      if len == 0 {
        return;
      }
      off := off + len;
      i := i + 1;
    }
    WalkOn(s, i, off);
  }

  // ------------------------------------------------------------ the window

  function TextOf(text: Option<seq<byte>>): seq<byte> { if text.Some? then text.value else [] }

  /** Everything that scrolls by: the text, then the separator if there is one. */
  function Cycle(text: seq<byte>, separator: Option<seq<byte>>): (cycle: seq<seq<byte>>)
    ensures AllChars(cycle)
  {
    Characters(text) + Characters(TextOf(separator))
  }

  /** The length of a scroll cycle, or 0 for a block drawn as it is. */
  function Period(text: Option<seq<byte>>, separator: Option<seq<byte>>, cap: int): (n: nat)
    ensures n > 0 ==> text.Some? && 0 < cap < |Characters(text.value)| <= n == |Cycle(text.value, separator)|
  {
    if cap <= 0 || text.None? || |Characters(text.value)| <= cap then 0
    else |Cycle(text.value, separator)|
  }

  /** `cap` characters of the cyclic word, from `offset` on. */
  function Window(cycle: seq<seq<byte>>, offset: int, cap: nat): (cs: seq<seq<byte>>)
    requires cycle != []
    ensures |cs| == cap && forall i :: 0 <= i < cap ==> cs[i] == cycle[(offset + i) % |cycle|]
  {
    seq(cap, i requires 0 <= i < cap => cycle[(offset + i) % |cycle|])
  }

  /** What is shown: whole characters only, as many as `room` bytes take. */
  function Displayed(text: Option<seq<byte>>, separator: Option<seq<byte>>, cap: int, offset: int, room: nat)
    : seq<byte>
  {
    if Period(text, separator, cap) == 0 then Cut(Characters(TextOf(text)), room)
    else Cut(Window(Cycle(text.value, separator), offset, cap), room)
  }

  /** block_scroll_period. */
  method ScrollPeriod(text: Option<seq<byte>>, separator: Option<seq<byte>>, cap: int) returns (period: nat)
    requires IsString(TextOf(text)) && IsString(TextOf(separator))
    ensures period == Period(text, separator, cap)
  {
    if cap <= 0 || text.None? {
      return 0;
    }
    var chars, bytes := Count(text.value);
    if chars <= cap {
      return 0;
    }
    var sepChars := 0;
    if separator.Some? {
      sepChars, bytes := Count(separator.value);
    }
    return chars + sepChars;
  }

  /** C's %, which takes the sign of the dividend. */
  function Remainder(a: int, n: nat): int
    requires n > 0
  {
    if a >= 0 then a % n else -((-a) % n)
  }

  /** Folding a remainder back above zero. */
  lemma FoldBack(a: int, n: nat)
    requires n > 0
    ensures var r := Remainder(a, n); (if r < 0 then r + n else r) == a % n
  {
    if a < 0 {
      var q, r := (-a) / n, (-a) % n;
      assert -a == q * n + r;
      if r == 0 {
        Division(a, n, -q, 0);
      } else {
        assert a == (-q - 1) * n + (n - r);
        Division(a, n, -q - 1, n - r);
      }
    }
  }

  lemma {:induction false} FittingIs(cs: seq<seq<byte>>, room: nat, n: nat)
    requires n <= |cs| && |Concat(cs[..n])| <= room
    requires n < |cs| ==> |Concat(cs[..n])| + |cs[n]| > room
    ensures Fitting(cs, room) == n && Cut(cs, room) == Concat(cs[..n])
  {
    if n == 0 {
    } else {
      assert cs[..n][1..] == cs[1..][..n - 1];
      FittingIs(cs[1..], room - |cs[0]|, n - 1);
    }
  }

  /** The text as it is, a whole character at a time while there is room. */
  method CopyText(text: seq<byte>, out: array<byte>) returns (written: nat)
    requires IsString(text) && out.Length > 0
    modifies out
    ensures written < out.Length && out[..written] == Cut(Characters(text), out.Length - 1)
  {
    hide Characters, DecodeFirst, Cut;
    written := 0;
    var off := 0;
    ghost var n, cs := 0, Characters(text);
    assert text[0..] == text && cs[..0] == [] && cs[0..] == cs;
    while CharAt(text, off) != 0
      invariant off == written < out.Length && off <= |text| && Walking(text, n, off)
      invariant out[..written] == Concat(cs[..n])
      decreases |text| - off
    {
      var len := SequenceLen(text, off);
      WalkOn(text, n, off);
      if len == 0 || written + len + 1 > out.Length {
        break;
      }
      CopyInto(out, written, text[off..off + len]);
      ConcatOne(cs, n);
      written, off, n := written + len, off + len, n + 1;
    }
    WalkOn(text, n, off);
    FittingIs(cs, out.Length - 1, n);
  }

  /** One character of the cycle, found in the string it comes from. */
  method Pick(text: seq<byte>, separator: seq<byte>, idx: nat, textChars: nat) returns (c: seq<byte>)
    requires IsString(text) && IsString(separator) && textChars == |Characters(text)|
    requires idx < textChars + |Characters(separator)|
    ensures c == (Characters(text) + Characters(separator))[idx]
  {
    hide Characters, DecodeFirst;
    var src, n := text, idx;
    if idx >= textChars {
      src, n := separator, idx - textChars;
    }
    var begin := OffsetOf(src, n);
    WalkOn(src, n, begin);
    var len := SequenceLen(src, begin);
    c := src[begin..begin + len];
  }

  /** `cap` characters around the cycle, as long as they fit. */
  method CopyWindow(text: seq<byte>, separator: Option<seq<byte>>, cap: nat, offset: int, out: array<byte>)
    returns (written: nat)
    requires IsString(text) && IsString(TextOf(separator)) && out.Length > 0
    requires Period(Some(text), separator, cap) > 0
    modifies out
    ensures written < out.Length
    ensures out[..written] == Cut(Window(Cycle(text, separator), offset, cap), out.Length - 1)
  {
    hide Characters, Cut, IsChar;
    ghost var cs := Window(Cycle(text, separator), offset, cap);
    var period := ScrollPeriod(Some(text), separator, cap);
    var textChars, bytes := Count(text);
    var start := Remainder(offset, period);
    FoldBack(offset, period);
    if start < 0 {
      start := start + period;
    }
    written := 0;
    var i := 0;
    while i < cap
      invariant i <= cap && written < out.Length && out[..written] == Concat(cs[..i])
    {
      ModuloAdd(offset, i, period);
      var c := Pick(text, TextOf(separator), (start + i) % period, textChars);
      assert c == cs[i];
      if written + |c| + 1 > out.Length {
        break;
      }
      CopyInto(out, written, c);
      ConcatOne(cs, i);
      written, i := written + |c|, i + 1;
    }
    FittingIs(cs, out.Length - 1, i);
  }

  /** block_display_text: always whole characters and a terminator. */
  method DisplayText(text: Option<seq<byte>>, separator: Option<seq<byte>>, cap: int, offset: int, out: array<byte>)
    returns (written: nat)
    requires IsString(TextOf(text)) && IsString(TextOf(separator)) && out.Length > 0
    modifies out
    ensures written < out.Length && out[written] == 0
    ensures out[..written] == Displayed(text, separator, cap, offset, out.Length - 1)
  {
    hide Characters, Cut, Window;
    var period := ScrollPeriod(text, separator, cap);
    if period == 0 {
      written := CopyText(TextOf(text), out);
    } else {
      written := CopyWindow(text.value, separator, cap, offset, out);
    }
    ghost var shown := out[..written];
    out[written] := 0;
    assert out[..written] == shown;
  }

  // ------------------------------------------------ what a reader of it sees

  lemma {:induction false} NoZeroInChars(s: seq<byte>)
    requires IsString(s)
    ensures forall i :: 0 <= i < |Characters(s)| ==> IsString(Characters(s)[i])
    decreases |s|
  {
    hide IsChar, DecodeFirst;
    Unfold(s);
    if DecodeFirst(s).Malformed? {
    } else {
      NoZeroInChars(s[DecodeFirst(s).size..]);
    }
  }

  lemma {:induction false} ConcatIsString(cs: seq<seq<byte>>)
    requires forall i :: 0 <= i < |cs| ==> IsString(cs[i])
    ensures IsString(Concat(cs))
  {
    if cs == [] {
    } else {
      ConcatIsString(cs[1..]);
    }
  }

  /** The characters all come from the text and the separator. */
  lemma DisplayedChars(text: Option<seq<byte>>, separator: Option<seq<byte>>, cap: int, offset: int)
    returns (cs: seq<seq<byte>>)
    requires IsString(TextOf(text)) && IsString(TextOf(separator))
    ensures AllChars(cs) && forall i :: 0 <= i < |cs| ==> IsString(cs[i])
    ensures forall room :: Displayed(text, separator, cap, offset, room) == Cut(cs, room)
    ensures Period(text, separator, cap) > 0 ==> |cs| == cap
  {
    hide IsChar, Characters, Cut;
    NoZeroInChars(TextOf(text));
    NoZeroInChars(TextOf(separator));
    if Period(text, separator, cap) == 0 {
      cs := Characters(TextOf(text));
    } else {
      cs := Window(Cycle(text.value, separator), offset, cap);
    }
  }

  /** Always a valid string: nothing is severed, whatever the text ends in. */
  lemma DisplayedIsValid(text: Option<seq<byte>>, separator: Option<seq<byte>>, cap: int, offset: int, room: nat)
    requires IsString(TextOf(text)) && IsString(TextOf(separator))
    ensures var shown := Displayed(text, separator, cap, offset, room);
            IsValid(shown) && IsString(shown) && |shown| <= room
  {
    var cs := DisplayedChars(text, separator, cap, offset);
    var kept := cs[..Fitting(cs, room)];
    CutIsMaximal(cs, room);
    ConcatIsString(kept);
    ValidIffCut(Concat(kept), kept);
  }

  /** A block that does not overflow is shown as its own text: from its first
      byte, in whole characters, on until the text ends, a byte starts no
      character, or the next one has no room. */
  lemma FittingShowsText(text: seq<byte>, separator: Option<seq<byte>>, cap: int, offset: int, room: nat)
    requires IsString(text) && (cap <= 0 || |Characters(text)| <= cap)
    ensures var shown := Displayed(Some(text), separator, cap, offset, room);
            && shown <= text && |shown| <= room
            && (var next := DecodeFirst(text[|shown|..]); next.Malformed? || |shown| + next.size > room)
    ensures IsValid(text) && |text| <= room ==> Displayed(Some(text), separator, cap, offset, room) == text
  {
    hide IsChar, Characters, DecodeFirst;
    var cs := Characters(text);
    var n := Fitting(cs, room);
    CharactersArePrefix(text);
    CutIsMaximal(cs, room);
    ConcatAppend(cs[..n], cs[n..]);
    assert cs == cs[..n] + cs[n..];
    var shown := Concat(cs[..n]);
    if n < |cs| {
      var rest := Concat(cs[n + 1..]);
      var tail := text[|Concat(cs)|..];
      assert cs[n..][1..] == cs[n + 1..];
      assert Concat(cs[n..]) == cs[n] + rest;
      assert text == Concat(cs) + tail;
      Regroup(shown, cs[n], rest, tail);
      DecodeFirstOfChar(cs[n], rest + tail);
    } else {
      assert cs[..n] == cs;
    }
  }

  lemma Regroup(a: seq<byte>, b: seq<byte>, c: seq<byte>, d: seq<byte>)
    ensures (a + (b + c)) + d == a + (b + (c + d))
    ensures ((a + (b + c)) + d)[|a|..] == b + (c + d)
  {
  }

  lemma {:induction false} CharsFitFour(cs: seq<seq<byte>>)
    requires AllChars(cs)
    ensures |Concat(cs)| <= 4 * |cs|
  {
    if cs == [] {
    } else {
      CharsFitFour(cs[1..]);
    }
  }

  /** Any configurable cap: an over-long block shows exactly `cap` characters of
      the cyclic word, and its buffer never cuts them short. */
  lemma WindowIsWhole(text: seq<byte>, separator: Option<seq<byte>>, cap: int, offset: int)
    requires IsString(text) && IsString(TextOf(separator))
    requires cap <= CAP_MAX && Period(Some(text), separator, cap) > 0
    ensures Characters(Displayed(Some(text), separator, cap, offset, SCROLL_BYTES - 1)) ==
            Window(Cycle(text, separator), offset, cap)
  {
    hide IsChar, Characters;
    var cs := Window(Cycle(text, separator), offset, cap);
    assert AllChars(cs);
    CharsFitFour(cs);
    CutWhole(cs, SCROLL_BYTES - 1);
    ValidIffCut(Concat(cs), cs);
  }

  /** What that is, of the text and the separator alone: `offset` characters into
      the word they make, on from there, and round to its beginning. */
  lemma WindowIsSlice(text: seq<byte>, separator: Option<seq<byte>>, cap: nat, offset: nat)
    requires IsString(text) && IsString(TextOf(separator)) && 0 < cap <= 256 && cap < |Characters(text)|
    requires var word := Characters(text) + Characters(TextOf(separator)); offset < |word|
    ensures var word := Characters(text) + Characters(TextOf(separator));
            Characters(Displayed(Some(text), separator, cap, offset, 1024)) == (word + word)[offset..offset + cap]
  {
    hide IsChar, Characters;
    WindowIsWhole(text, separator, cap, offset);
    var word := Characters(text) + Characters(TextOf(separator));
    var shown := Window(word, offset, cap);
    forall i | 0 <= i < cap
      ensures shown[i] == (word + word)[offset + i]
    {
      Around(offset + i, |word|);
    }
    assert shown == (word + word)[offset..offset + cap];
  }

  lemma Around(k: nat, n: nat)
    requires 0 < n && k < 2 * n
    ensures k % n == if k < n then k else k - n
  {
    if k >= n {
      Division(k, n, 1, k - n);
    } else {
      Division(k, n, 0, k);
    }
  }

  // --------------------------------------------------------------- scrolling

  /** Where one timer step moves a block: on by one character, or back to the
      start when it no longer overflows. */
  function NextOffset(text: seq<byte>, separator: Option<seq<byte>>, cap: int, offset: int): int {
    var period := Period(Some(text), separator, cap);
    if period == 0 then 0 else Remainder(offset + 1, period)
  }

  /** A step is one character forward, from the last place back to the first; a
      block that fits stays at its beginning. */
  lemma StepsForward(text: seq<byte>, separator: Option<seq<byte>>, cap: int, offset: nat)
    requires var word := Characters(text) + Characters(TextOf(separator)); offset < |word|
    ensures var word := Characters(text) + Characters(TextOf(separator));
            NextOffset(text, separator, cap, offset) ==
            if cap <= 0 || |Characters(text)| <= cap || offset + 1 == |word| then 0 else offset + 1
  {
    hide Characters;
    var n := |Characters(text) + Characters(TextOf(separator))|;
    if n > 1 || offset + 1 < 2 * n {
      Around(offset + 1, n);
    }
  }

  /** The offset `n` timer steps later. */
  function OffsetAfter(text: seq<byte>, separator: Option<seq<byte>>, cap: int, offset: int, n: nat): int {
    if n == 0 then offset
    else NextOffset(text, separator, cap, OffsetAfter(text, separator, cap, offset, n - 1))
  }

  lemma {:induction false} StepsAdd(text: seq<byte>, separator: Option<seq<byte>>, cap: int, offset: nat, n: nat)
    requires Period(Some(text), separator, cap) > 0
    ensures var period := Period(Some(text), separator, cap);
            var later := OffsetAfter(text, separator, cap, offset, n);
            later >= 0 && later % period == (offset + n) % period
  {
    if n == 0 {
    } else {
      var period := Period(Some(text), separator, cap);
      var before := OffsetAfter(text, separator, cap, offset, n - 1);
      StepsAdd(text, separator, cap, offset, n - 1);
      ModuloAdd(before, 1, period);
      ModuloAdd(offset + (n - 1), 1, period);
      ModuloAdd(before + 1, 0, period);
    }
  }

  /** Offsets that agree around the cycle show the same picture. */
  lemma SamePicture(text: seq<byte>, separator: Option<seq<byte>>, cap: int, a: int, b: int, room: nat)
    requires var period := Period(Some(text), separator, cap); period > 0 ==> a % period == b % period
    ensures Displayed(Some(text), separator, cap, a, room) == Displayed(Some(text), separator, cap, b, room)
  {
    hide Cut, Characters, Window;
    if Period(Some(text), separator, cap) > 0 {
      SameWindow(Cycle(text, separator), a, b, cap);
    }
  }

  lemma SameWindow(cycle: seq<seq<byte>>, a: int, b: int, cap: nat)
    requires cycle != [] && a % |cycle| == b % |cycle|
    ensures Window(cycle, a, cap) == Window(cycle, b, cap)
  {
    forall i | 0 <= i < cap
      ensures Window(cycle, a, cap)[i] == Window(cycle, b, cap)[i]
    {
      ModuloAdd(a, i, |cycle|);
      ModuloAdd(b, i, |cycle|);
    }
  }

  /** A whole period of steps comes back to the same picture. */
  lemma PeriodReturns(text: seq<byte>, separator: Option<seq<byte>>, cap: int, offset: nat, room: nat)
    requires Period(Some(text), separator, cap) > 0
    ensures var later := OffsetAfter(text, separator, cap, offset, Period(Some(text), separator, cap));
            Displayed(Some(text), separator, cap, later, room) == Displayed(Some(text), separator, cap, offset, room)
  {
    hide Period, Displayed;
    var period := Period(Some(text), separator, cap);
    StepsAdd(text, separator, cap, offset, period);
    AddOnce(offset, period);
    SamePicture(text, separator, cap, OffsetAfter(text, separator, cap, offset, period), offset, room);
  }

  /** Within one period every character of the text has led the window. */
  lemma EveryCharacterLeads(text: seq<byte>, separator: Option<seq<byte>>, cap: int, offset: nat, j: nat)
    returns (n: nat)
    requires Period(Some(text), separator, cap) > 0 && j < |Characters(text)|
    ensures n < Period(Some(text), separator, cap)
    ensures Window(Cycle(text, separator), OffsetAfter(text, separator, cap, offset, n), cap)[0] == Characters(text)[j]
  {
    hide Characters;
    var period := Period(Some(text), separator, cap);
    n := StepsTo(offset, j, period);
    StepsAdd(text, separator, cap, offset, n);
    Division(j, period, 0, j);
    hide Period, OffsetAfter;
  }

  lemma StepsTo(offset: nat, j: nat, period: nat) returns (n: nat)
    requires j < period
    ensures n < period && (offset + n) % period == j
  {
    n := (j - offset) % period;
    ModuloAdd(j - offset, offset, period);
    Division(j, period, 0, j);
  }
}
