/**
  One line of the bar's protocol, both ends: the helper's escaping printer
  (src/topbar.c) and the tiny reader of src/bar.c that has to undo it. Strings
  are C strings: bytes without the terminator.
 */
module BarLine {
  import opened Options
  import opened Utf8
  import Diagnostics

  const MAX_BLOCKS: nat := 32

  const QUOTE: byte := 34
  const BACKSLASH: byte := 92
  const OPEN: byte := 123
  const CLOSE: byte := 125
  const COLON: byte := 58
  const COMMA: byte := 44
  const LINE_OPEN: byte := 91
  const LINE_CLOSE: byte := 93

  /** "full_text", without and with its quotes. */
  const NAME: seq<byte> := [102, 117, 108, 108, 95, 116, 101, 120, 116]
  const KEY: seq<byte> := [QUOTE] + NAME + [QUOTE]

  // ------------------------------------------------------------ the printer

  predicate IsControl(c: byte) { c < 0x20 }

  function Hex(n: nat): (d: byte)
    requires n < 16
    ensures 48 <= d <= 57 || 97 <= d <= 102
  {
    if n < 10 then 48 + n else 87 + n
  }

  function EscapeOne(c: byte): (e: seq<byte>)
    ensures 1 <= |e| <= 6
  {
    if c == QUOTE || c == BACKSLASH then [BACKSLASH, c]
    else if c == 10 then [BACKSLASH, 110]
    else if c == 13 then [BACKSLASH, 114]
    else if c == 9 then [BACKSLASH, 116]
    else if IsControl(c) then [BACKSLASH, 117, 48, 48, Hex(c / 16), Hex(c % 16)]
    else [c]
  }

  function Escaped(text: seq<byte>): seq<byte> {
    if text == [] then [] else EscapeOne(text[0]) + Escaped(text[1..])
  }

  /** How many leading bytes of `text` fit `room` once escaped. */
  function EscapeFits(text: seq<byte>, room: nat): (n: nat)
    ensures n <= |text|
  {
    if text == [] || |EscapeOne(text[0])| > room then 0 else 1 + EscapeFits(text[1..], room - |EscapeOne(text[0])|)
  }

  lemma {:induction false} EscapedAppend(a: seq<byte>, b: seq<byte>)
    ensures Escaped(a + b) == Escaped(a) + Escaped(b)
  {
    if a == [] {
      assert a + b == b;
    } else {
      assert (a + b)[1..] == a[1..] + b;
      EscapedAppend(a[1..], b);
    }
  }

  lemma {:induction false} EscapeFitsIs(text: seq<byte>, room: nat, n: nat)
    requires n <= |text| && |Escaped(text[..n])| <= room
    requires n < |text| ==> |Escaped(text[..n])| + |EscapeOne(text[n])| > room
    ensures EscapeFits(text, room) == n
  {
    if n == 0 {
    } else {
      assert text[..n][1..] == text[1..][..n - 1];
      EscapeFitsIs(text[1..], room - |EscapeOne(text[0])|, n - 1);
    }
  }

  /** json_escape: stops before the first byte whose escape does not fit whole. */
  method JsonEscape(text: seq<byte>, out: array<byte>) returns (o: nat)
    requires out.Length > 0
    modifies out
    ensures o < out.Length && out[o] == 0
    ensures out[..o] == Escaped(text[..EscapeFits(text, out.Length - 1)])
  {
    hide EscapeOne, Escaped;
    o := 0;
    var i := 0;
    NothingEscaped(text);
    while i < |text| && o + 1 < out.Length
      invariant i <= |text| && o < out.Length && out[..o] == Escaped(text[..i])
    {
      var e := EscapeOne(text[i]);
      if o + |e| + 1 > out.Length {
        break;
      }
      Diagnostics.CopyInto(out, o, e);
      EscapedNext(text, i);
      o, i := o + |e|, i + 1;
    }
    EscapeFitsIs(text, out.Length - 1, i);
    ghost var written := out[..o];
    out[o] := 0;
    assert out[..o] == written;
  }

  lemma NothingEscaped(text: seq<byte>)
    ensures Escaped(text[..0]) == []
  {
  }

  lemma EscapedNext(text: seq<byte>, i: nat)
    requires i < |text|
    ensures Escaped(text[..i + 1]) == Escaped(text[..i]) + EscapeOne(text[i])
  {
    assert text[..i + 1] == text[..i] + [text[i]];
    EscapedAppend(text[..i], [text[i]]);
    assert Escaped([text[i]]) == EscapeOne(text[i]);
  }

  // ------------------------------------------------------------- the reader

  /** strchr: the first `c` in `t`. */
  function IndexOf(t: seq<byte>, c: byte): (r: Option<nat>)
    ensures r.Some? ==> r.value < |t| && t[r.value] == c && c !in t[..r.value]
    ensures r.None? ==> c !in t
  {
    if t == [] then None
    else if t[0] == c then Some(0)
    else Later(IndexOf(t[1..], c), 1)
  }

  /** strstr: the first place `pattern` starts in `t`. */
  function Find(t: seq<byte>, pattern: seq<byte>): (r: Option<nat>)
    ensures r.Some? ==> r.value + |pattern| <= |t| && t[r.value..r.value + |pattern|] == pattern
  {
    if pattern <= t then Some(0)
    else if t == [] then None
    else Later(Find(t[1..], pattern), 1)
  }

  function Later(r: Option<nat>, n: nat): Option<nat> {
    if r.Some? then Some(r.value + n) else None
  }

  /** Where the object that `t` is inside of ends: the first closing brace that
      is not part of a string. */
  function ObjectEnd(t: seq<byte>, inString: bool): (r: Option<nat>)
    ensures r.Some? ==> r.value < |t| && t[r.value] == CLOSE
  {
    if t == [] then None
    else if inString then
      if t[0] == BACKSLASH && |t| > 1 then Later(ObjectEnd(t[2..], true), 2)
      else Later(ObjectEnd(t[1..], t[0] != QUOTE), 1)
    else if t[0] == CLOSE then Some(0)
    else Later(ObjectEnd(t[1..], t[0] == QUOTE), 1)
  }

  /** The string that starts at `t`, up to its closing quote or the end of `t`. */
  function Unescaped(t: seq<byte>): seq<byte> {
    if t == [] || t[0] == QUOTE then []
    else if t[0] == BACKSLASH && |t| > 1 then [t[1]] + Unescaped(t[2..])
    else [t[0]] + Unescaped(t[1..])
  }

  /** The value of `key` in the object that starts `t` and closes at `end`. */
  function StringField(t: seq<byte>, end: nat, key: seq<byte>): Option<seq<byte>>
    requires end <= |t|
  {
    var p := Find(t, key);
    if p.None? || p.value >= end then None
    else
      var c := Later(IndexOf(t[p.value + |key|..], COLON), p.value + |key|);
      if c.None? || c.value >= end then None
      else
        var q := IndexOf(t[c.value..end], QUOTE);
        if q.None? then None else Some(Unescaped(t[c.value + q.value + 1..end]))
  }

  /** One byte, or one escape, further into the object. */
  lemma EndStep(s: seq<byte>, p: nat, inString: bool)
    requires p < |s|
    ensures ObjectEnd(s[p..], inString) ==
            if inString && s[p] == BACKSLASH && p + 1 < |s| then Later(ObjectEnd(s[p + 2..], true), 2)
            else if inString then Later(ObjectEnd(s[p + 1..], s[p] != QUOTE), 1)
            else if s[p] == CLOSE then Some(0)
            else Later(ObjectEnd(s[p + 1..], s[p] == QUOTE), 1)
  {
    var t := s[p..];
    assert t[1..] == s[p + 1..];
    assert |t| > 1 ==> t[2..] == s[p + 2..];
  }

  lemma UnescapeStep(s: seq<byte>, p: nat, end: nat)
    requires p <= end <= |s|
    ensures p == end || s[p] == QUOTE ==> Unescaped(s[p..end]) == []
    ensures p < end && s[p] != QUOTE ==>
              Unescaped(s[p..end]) == if s[p] == BACKSLASH && p + 1 < end then [s[p + 1]] + Unescaped(s[p + 2..end])
                                      else [s[p]] + Unescaped(s[p + 1..end])
  {
    var t := s[p..end];
    assert p < end ==> t[1..] == s[p + 1..end];
    assert |t| > 1 ==> t[2..] == s[p + 2..end];
  }

  lemma IndexStep(s: seq<byte>, p: nat, end: nat, c: byte)
    requires p <= end <= |s|
    ensures p == end ==> IndexOf(s[p..end], c).None?
    ensures p < end && s[p] == c ==> IndexOf(s[p..end], c) == Some(0)
    ensures p < end && s[p] != c ==> IndexOf(s[p..end], c) == Later(IndexOf(s[p + 1..end], c), 1)
  {
    assert p < end ==> s[p..end][1..] == s[p + 1..end];
  }

  /** find_object_end on the string that starts at the object. */
  method FindObjectEnd(obj: seq<byte>) returns (r: Option<nat>)
    requires obj != []
    ensures r == Later(ObjectEnd(obj[1..], false), 1)
  {
    hide ObjectEnd;
    var p, inString := 1, false;
    while p < |obj|
      invariant 1 <= p <= |obj|
      invariant Later(ObjectEnd(obj[1..], false), 1) == Later(ObjectEnd(obj[p..], inString), p)
    {
      EndStep(obj, p, inString);
      if inString {
        if obj[p] == BACKSLASH && p + 1 < |obj| {
          p := p + 1;
        } else if obj[p] == QUOTE {
          inString := false;
        }
      } else if obj[p] == QUOTE {
        inString := true;
      } else if obj[p] == CLOSE {
        return Some(p);
      }
      p := p + 1;
    }
    NoEnd(inString);
    return None;
  }

  lemma NoEnd(inString: bool)
    ensures ObjectEnd([], inString).None?
  {
  }

  /** The scan from the colon to the quote that opens the value. */
  method FindQuote(s: seq<byte>, from: nat, end: nat) returns (p: nat)
    requires from <= end <= |s|
    ensures from <= p <= end
    ensures IndexOf(s[from..end], QUOTE) == if p < end then Some(p - from) else None
  {
    hide IndexOf;
    p := from;
    while p < end && s[p] != QUOTE
      invariant from <= p <= end
      invariant IndexOf(s[from..end], QUOTE) == Later(IndexOf(s[p..end], QUOTE), p - from)
    {
      IndexStep(s, p, end, QUOTE);
      p := p + 1;
    }
    IndexStep(s, p, end, QUOTE);
  }

  /** json_string_field on the string that starts at the object: find, measure,
      allocate, copy. */
  method JsonStringField(obj: seq<byte>, end: nat, key: seq<byte>) returns (r: Option<seq<byte>>)
    requires end <= |obj|
    ensures r == StringField(obj, end, key)
  {
    hide Find, IndexOf, Unescaped;
    var found := Find(obj, key);
    if found.None? || found.value >= end {
      return None;
    }
    var p := found.value + |key|;
    var colon := IndexOf(obj[p..], COLON);
    if colon.None? || p + colon.value >= end {
      return None;
    }
    p := FindQuote(obj, p + colon.value, end);
    if p >= end {
      return None;
    }
    var text := CopyUnescaped(obj, p + 1, end);
    return Some(text);
  }

  method Measure(s: seq<byte>, p: nat, end: nat) returns (len: nat)
    requires p <= end <= |s|
    ensures len == |Unescaped(s[p..end])|
  {
    hide Unescaped;
    len := 0;
    var q := p;
    while q < end && s[q] != QUOTE
      invariant p <= q <= end && |Unescaped(s[p..end])| == len + |Unescaped(s[q..end])|
    {
      UnescapeStep(s, q, end);
      if s[q] == BACKSLASH && q + 1 < end {
        q := q + 1;
      }
      len, q := len + 1, q + 1;
    }
    UnescapeStep(s, q, end);
  }

  /** First the length, so that the copy is sized exactly, then the bytes. */
  method CopyUnescaped(s: seq<byte>, p: nat, end: nat) returns (text: seq<byte>)
    requires p <= end <= |s|
    ensures text == Unescaped(s[p..end])
  {
    hide Unescaped, Copying;
    ghost var all := Unescaped(s[p..end]);
    var len := Measure(s, p, end);
    var out := new byte[len + 1];
    var i, q := 0, p;
    NoneCopied(out[..0], s, p, end);
    while q < end && s[q] != QUOTE && i < len
      invariant p <= q <= end && i <= len == |all| && Copying(all, out[..i], s, q, end)
    {
      CopyOne(all, out[..i], s, q, end);
      if s[q] == BACKSLASH && q + 1 < end {
        q := q + 1;
      }
      ghost var before := out[..i];
      out[i] := s[q];
      assert out[..i + 1] == before + [s[q]];
      i, q := i + 1, q + 1;
    }
    AllCopied(all, out[..i], s, q, end);
    out[i] := 0;
    return out[..i];
  }

  /** Of `all`, what is copied and what `s` still spells from `q` on. */
  ghost predicate Copying(all: seq<byte>, copied: seq<byte>, s: seq<byte>, q: nat, end: nat) {
    q <= end <= |s| && all == copied + Unescaped(s[q..end])
  }

  lemma CopyOne(all: seq<byte>, copied: seq<byte>, s: seq<byte>, q: nat, end: nat)
    requires Copying(all, copied, s, q, end) && q < end && s[q] != QUOTE
    ensures var at := if s[q] == BACKSLASH && q + 1 < end then q + 1 else q;
            Copying(all, copied + [s[at]], s, at + 1, end)
  {
    hide Unescaped;
    UnescapeStep(s, q, end);
    var at := if s[q] == BACKSLASH && q + 1 < end then q + 1 else q;
    Shift(copied, s[at], Unescaped(s[at + 1..end]));
  }

  lemma Shift(a: seq<byte>, c: byte, b: seq<byte>)
    ensures a + ([c] + b) == a + [c] + b
  {
  }

  lemma NoneCopied(copied: seq<byte>, s: seq<byte>, p: nat, end: nat)
    requires p <= end <= |s| && copied == []
    ensures Copying(Unescaped(s[p..end]), copied, s, p, end)
  {
    hide Unescaped;
  }

  lemma AllCopied(all: seq<byte>, copied: seq<byte>, s: seq<byte>, q: nat, end: nat)
    requires Copying(all, copied, s, q, end) && (q == end || s[q] == QUOTE || |copied| == |all|)
    ensures copied == all
  {
    hide Unescaped;
    UnescapeStep(s, q, end);
  }

  // -------------------------------------------------- where an object ends

  /** Reading `x` from outside or inside a string without meeting a closing
      brace: where that leaves the reader, if no escape breaks off. */
  function Scan(x: seq<byte>, inString: bool): Option<bool> {
    if x == [] then Some(inString)
    else if inString then
      if x[0] == BACKSLASH then (if |x| > 1 then Scan(x[2..], true) else None)
      else Scan(x[1..], x[0] != QUOTE)
    else if x[0] == CLOSE then None
    else Scan(x[1..], x[0] == QUOTE)
  }

  lemma {:induction false} ScanAppend(a: seq<byte>, b: seq<byte>, inString: bool)
    requires Scan(a, inString).Some?
    ensures Scan(a + b, inString) == Scan(b, Scan(a, inString).value)
    decreases |a|
  {
    if a == [] {
      assert a + b == b;
    } else {
      assert (a + b)[1..] == a[1..] + b;
      if inString && a[0] == BACKSLASH {
        assert (a + b)[2..] == a[2..] + b;
        ScanAppend(a[2..], b, true);
      } else if inString {
        ScanAppend(a[1..], b, a[0] != QUOTE);
      } else {
        ScanAppend(a[1..], b, a[0] == QUOTE);
      }
    }
  }

  lemma {:induction false} EndAfterScan(x: seq<byte>, rest: seq<byte>, inString: bool)
    requires Scan(x, inString).Some?
    ensures ObjectEnd(x + rest, inString) == Later(ObjectEnd(rest, Scan(x, inString).value), |x|)
    decreases |x|
  {
    hide ObjectEnd, Scan;
    ScanStep(x, inString);
    if x == [] {
      assert x + rest == rest;
    } else {
      var n, next := if inString && x[0] == BACKSLASH then 2 else 1, Inside(x[0], inString);
      EndMovesOn(x + rest, inString);
      assert (x + rest)[n..] == x[n..] + rest;
      EndAfterScan(x[n..], rest, next);
    }
  }

  /** Whether the reader is inside a string behind `c`. */
  function Inside(c: byte, inString: bool): bool {
    if inString then c != QUOTE else c == QUOTE
  }

  lemma ScanStep(x: seq<byte>, inString: bool)
    requires Scan(x, inString).Some?
    ensures x == [] ==> Scan(x, inString) == Some(inString)
    ensures x != [] ==>
              var n := if inString && x[0] == BACKSLASH then 2 else 1;
              && n <= |x| && (inString || x[0] != CLOSE)
              && Scan(x, inString) == Scan(x[n..], Inside(x[0], inString))
  {
  }

  lemma EndMovesOn(t: seq<byte>, inString: bool)
    requires t != [] && (inString || t[0] != CLOSE)
    ensures var n := if inString && t[0] == BACKSLASH then 2 else 1;
            n <= |t| ==> ObjectEnd(t, inString) == Later(ObjectEnd(t[n..], Inside(t[0], inString)), n)
  {
  }

  lemma {:induction false} ScanBeforeEnd(t: seq<byte>, inString: bool)
    requires ObjectEnd(t, inString).Some?
    ensures Scan(t[..ObjectEnd(t, inString).value], inString) == Some(false)
    decreases |t|
  {
    var e := ObjectEnd(t, inString).value;
    if inString && t[0] == BACKSLASH && |t| > 1 {
      ScanBeforeEnd(t[2..], true);
      assert t[..e][2..] == t[2..][..e - 2];
    } else if inString {
      ScanBeforeEnd(t[1..], t[0] != QUOTE);
      assert t[..e][1..] == t[1..][..e - 1];
    } else if t[0] != CLOSE {
      ScanBeforeEnd(t[1..], t[0] == QUOTE);
      assert t[..e][1..] == t[1..][..e - 1];
    }
  }

  /** find_object_end finds the one closing brace that ends the object: braces
      in strings, and quotes behind backslashes, are never taken for it. */
  lemma ObjectEndIff(t: seq<byte>, e: nat)
    ensures ObjectEnd(t, false) == Some(e) <==> e < |t| && t[e] == CLOSE && Scan(t[..e], false) == Some(false)
  {
    if ObjectEnd(t, false) == Some(e) {
      ScanBeforeEnd(t, false);
    }
    if e < |t| && t[e] == CLOSE && Scan(t[..e], false) == Some(false) {
      assert t == t[..e] + t[e..];
      EndAfterScan(t[..e], t[e..], false);
    }
  }

  // ------------------------------------------------------------- round trip

  /** What the reader makes of one escaped byte: escapes it does not know lose
      their backslash and nothing else. */
  function Reads(c: byte): (r: seq<byte>)
    ensures (r == [c] <==> !IsControl(c)) && r != [] && (IsControl(c) ==> r[0] != c)
  {
    if !IsControl(c) then [c] else EscapeOne(c)[1..]
  }

  function ReadBack(text: seq<byte>): seq<byte> {
    if text == [] then [] else Reads(text[0]) + ReadBack(text[1..])
  }

  lemma ScanOne(c: byte)
    ensures Scan(EscapeOne(c), true) == Some(true)
  {
    if IsControl(c) && c != 10 && c != 13 && c != 9 {
      var e := EscapeOne(c);
      assert e[2..] == [48, 48, Hex(c / 16), Hex(c % 16)];
      ScanPlain(e[2..]);
    } else if c == QUOTE || c == BACKSLASH || IsControl(c) {
      assert EscapeOne(c)[2..] == [];
    }
  }

  lemma {:induction false} ScanPlain(x: seq<byte>)
    requires QUOTE !in x && BACKSLASH !in x
    ensures Scan(x, true) == Some(true)
  {
    if x == [] {
    } else {
      ScanPlain(x[1..]);
    }
  }

  lemma {:induction false} ScanEscaped(text: seq<byte>)
    ensures Scan(Escaped(text), true) == Some(true)
  {
    if text == [] {
    } else {
      ScanOne(text[0]);
      ScanEscaped(text[1..]);
      ScanAppend(EscapeOne(text[0]), Escaped(text[1..]), true);
    }
  }

  lemma UnescapePlain(x: seq<byte>, rest: seq<byte>)
    requires |x| == 4 && QUOTE !in x && BACKSLASH !in x
    ensures Unescaped(x + rest) == x + Unescaped(rest)
  {
    var t := x + rest;
    assert t[1..] == x[1..] + rest && t[1..][1..] == x[2..] + rest;
    assert t[1..][1..][1..] == x[3..] + rest && t[1..][1..][1..][1..] == rest;
    assert x == [x[0], x[1], x[2], x[3]];
    assert Unescaped(t) == [x[0]] + Unescaped(t[1..]);
    assert Unescaped(t[1..]) == [x[1]] + Unescaped(t[1..][1..]);
    assert Unescaped(t[1..][1..]) == [x[2]] + Unescaped(t[1..][1..][1..]);
    assert Unescaped(t[1..][1..][1..]) == [x[3]] + Unescaped(rest);
  }

  lemma UnescapeOne(c: byte, rest: seq<byte>)
    ensures Unescaped(EscapeOne(c) + rest) == Reads(c) + Unescaped(rest)
  {
    var e := EscapeOne(c);
    var t := e + rest;
    if e[0] == BACKSLASH {
      assert t[2..] == e[2..] + rest;
      if |e| == 6 {
        UnescapePlain(e[2..], rest);
        assert [e[1]] + (e[2..] + Unescaped(rest)) == e[1..] + Unescaped(rest);
      } else {
        assert e[2..] + rest == rest;
        assert [e[1]] == e[1..];
      }
    } else {
      assert t[1..] == rest;
    }
  }

  lemma {:induction false} UnescapeEscaped(text: seq<byte>, more: seq<byte>)
    ensures Unescaped(Escaped(text) + [QUOTE] + more) == ReadBack(text)
  {
    hide EscapeOne, Reads;
    if text == [] {
      assert Escaped(text) + [QUOTE] + more == [QUOTE] + more;
    } else {
      var rest := Escaped(text[1..]) + [QUOTE] + more;
      assert Escaped(text) + [QUOTE] + more == EscapeOne(text[0]) + rest;
      UnescapeOne(text[0], rest);
      UnescapeEscaped(text[1..], more);
    }
  }

  /** Escaping and reading back is the identity exactly on texts without control
      bytes: quotes and backslashes survive, newlines and tabs do not. */
  lemma {:induction false} ReadBackIff(text: seq<byte>)
    ensures ReadBack(text) == text <==> forall i :: 0 <= i < |text| ==> text[i] >= 0x20
  {
    if text == [] {
    } else {
      ReadBackIff(text[1..]);
      var t := ReadBack(text);
      if !IsControl(text[0]) {
        assert t[1..] == ReadBack(text[1..]);
        assert t == text <==> t[1..] == text[1..];
        assert forall i :: 0 < i < |text| ==> text[i] == text[1..][i - 1];
      } else {
        assert t[0] == Reads(text[0])[0];
      }
    }
  }

  // ------------------------------------------------------------ whole lines

  /** The texts of the first `room` objects of `t` that have one. */
  function Texts(t: seq<byte>, room: nat): (texts: seq<seq<byte>>)
    ensures |texts| <= room
    decreases |t|
  {
    if room == 0 then []
    else
      var obj := IndexOf(t, OPEN);
      if obj.None? then []
      else
        var end := Later(ObjectEnd(t[obj.value + 1..], false), 1);
        if end.None? then []
        else
          var slice := t[obj.value..];
          var text := StringField(slice, end.value, KEY);
          var rest := slice[end.value + 1..];
          if text.Some? then [text.value] + Texts(rest, room - 1) else Texts(rest, room)
  }

  /** What parse_line takes from a line; without a bracket it is malformed and
      the bar keeps what it shows. */
  function LineTexts(line: seq<byte>): Option<seq<seq<byte>>> {
    var p := IndexOf(line, LINE_OPEN);
    if p.None? then None else Some(Texts(line[p.value..], MAX_BLOCKS))
  }

  /** A block as the helper prints it: its text first, then other fields. */
  datatype Entry = Entry(text: seq<byte>, extra: seq<byte>)

  /** Other fields close their strings and hold no closing brace outside them. */
  predicate Plain(e: Entry) { Scan(e.extra, false) == Some(false) }

  function Head(): seq<byte> { KEY + [COLON, QUOTE] }

  function Body(e: Entry): seq<byte> { Head() + (Escaped(e.text) + [QUOTE] + e.extra) }

  function PrintObject(e: Entry): seq<byte> { [OPEN] + Body(e) + [CLOSE] }

  function PrintObjects(es: seq<Entry>): seq<byte> {
    if es == [] then []
    else PrintObject(es[0]) + (if |es| == 1 then [] else [COMMA]) + PrintObjects(es[1..])
  }

  function PrintLine(es: seq<Entry>): seq<byte> { [LINE_OPEN] + PrintObjects(es) + [LINE_CLOSE] }

  /** No byte below 0x20: nothing in it ends a line. */
  predicate OneLine(t: seq<byte>) { forall i :: 0 <= i < |t| ==> t[i] >= 0x20 }

  lemma {:induction false} EscapedIsOneLine(text: seq<byte>)
    ensures OneLine(Escaped(text))
  {
    if text == [] {
    } else {
      EscapedIsOneLine(text[1..]);
      var e := EscapeOne(text[0]);
      assert OneLine(e);
    }
  }

  lemma {:induction false} ObjectsAreOneLine(es: seq<Entry>)
    requires forall i :: 0 <= i < |es| ==> OneLine(es[i].extra)
    ensures OneLine(PrintObjects(es))
  {
    if es == [] {
    } else {
      ObjectsAreOneLine(es[1..]);
      ObjectIsOneLine(es[0]);
      hide PrintObject;
      var comma := if |es| == 1 then [] else [COMMA];
      assert OneLine(comma);
    }
  }

  lemma ObjectIsOneLine(e: Entry)
    requires OneLine(e.extra)
    ensures OneLine(PrintObject(e))
  {
    EscapedIsOneLine(e.text);
    hide Escaped;
    assert OneLine(Head());
    var rest := Escaped(e.text) + [QUOTE] + e.extra;
    assert OneLine(rest);
    assert OneLine(Head() + rest);
  }

  /** Whatever the texts hold, newlines included, the helper prints one line. */
  lemma PrintedIsOneLine(es: seq<Entry>)
    requires forall i :: 0 <= i < |es| ==> OneLine(es[i].extra)
    ensures OneLine(PrintLine(es))
  {
    ObjectsAreOneLine(es);
  }

  lemma ScanHead()
    ensures Scan(Head(), false) == Some(true)
  {
    assert KEY[1..] == NAME + [QUOTE];
    ScanPlain(NAME);
    ScanAppend(NAME, [QUOTE], true);
    assert Scan([QUOTE], true) == Some(false);
    assert Scan(KEY, false) == Some(false);
    ScanAppend(KEY, [COLON, QUOTE], false);
    assert [COLON, QUOTE][1..] == [QUOTE];
    assert Scan([QUOTE], false) == Some(true);
  }

  lemma ScanBody(e: Entry)
    requires Plain(e)
    ensures Scan(Body(e), false) == Some(false)
  {
    var tail := [QUOTE] + e.extra;
    assert tail[1..] == e.extra;
    ScanEscaped(e.text);
    ScanAppend(Escaped(e.text), tail, true);
    assert Escaped(e.text) + tail == Escaped(e.text) + [QUOTE] + e.extra;
    ScanHead();
    ScanAppend(Head(), Escaped(e.text) + tail, false);
  }

  /** However the text is made up, the object is read whole. */
  lemma ObjectIsWhole(e: Entry, post: seq<byte>)
    requires Plain(e)
    ensures ObjectEnd(Body(e) + [CLOSE] + post, false) == Some(|Body(e)|)
  {
    ScanBody(e);
    var t := Body(e) + [CLOSE] + post;
    assert t[..|Body(e)|] == Body(e);
    ObjectEndIff(t, |Body(e)|);
  }

  lemma HeadIsFirst(rest: seq<byte>)
    ensures Find([OPEN] + (Head() + rest), KEY) == Some(1)
    ensures IndexOf(([OPEN] + (Head() + rest))[1 + |KEY|..], COLON) == Some(0)
  {
    var t := [OPEN] + (Head() + rest);
    assert t[1..] == KEY + ([COLON, QUOTE] + rest);
    assert t[0] != KEY[0];
    assert t[1 + |KEY|..] == [COLON, QUOTE] + rest;
  }

  lemma TextIsRead(e: Entry, post: seq<byte>)
    requires Plain(e)
    ensures StringField(PrintObject(e) + post, |Body(e)| + 1, KEY) == Some(ReadBack(e.text))
  {
    var value := Escaped(e.text) + [QUOTE] + e.extra;
    var t := PrintObject(e) + post;
    ObjectLayout(e, post);
    hide PrintObject, Body, StringField, Find, IndexOf, Escaped, Unescaped, ReadBack;
    HeadIsFirst(value + [CLOSE] + post);
    FieldIs(t, KEY, value, [CLOSE] + post);
    UnescapeEscaped(e.text, e.extra);
  }

  lemma ObjectLayout(e: Entry, post: seq<byte>)
    ensures var value := Escaped(e.text) + [QUOTE] + e.extra;
            && PrintObject(e) + post == [OPEN] + (Head() + (value + [CLOSE] + post))
            && PrintObject(e) + post == [OPEN] + KEY + ([COLON, QUOTE] + value) + ([CLOSE] + post)
            && |Body(e)| == |KEY| + 2 + |value|
  {
    var value := Escaped(e.text) + [QUOTE] + e.extra;
    hide Escaped;
    assert PrintObject(e) + post == [OPEN] + (Head() + (value + [CLOSE] + post));
  }

  /** The value that follows the key, the colon and the quote at once. */
  lemma FieldIs(t: seq<byte>, key: seq<byte>, value: seq<byte>, tail: seq<byte>)
    requires t == [OPEN] + key + ([COLON, QUOTE] + value) + tail
    requires Find(t, key) == Some(1) && IndexOf(t[1 + |key|..], COLON) == Some(0)
    ensures StringField(t, 1 + |key| + 2 + |value|, key) == Some(Unescaped(value))
  {
    var field := [COLON, QUOTE] + value;
    QuoteAfterColon(value);
    hide Find, IndexOf, Unescaped;
    Middle([OPEN] + key, field, tail);
    var c := 1 + |key|;
    var end := c + 2 + |value|;
    assert |[OPEN] + key| == c && |field| == 2 + |value|;
    assert t[c..end] == field;
    assert t[c + 2..end] == field[2..] == value;
  }

  lemma Middle(a: seq<byte>, b: seq<byte>, c: seq<byte>)
    ensures (a + b + c)[|a|..|a| + |b|] == b
  {
  }

  lemma QuoteAfterColon(value: seq<byte>)
    ensures IndexOf([COLON, QUOTE] + value, QUOTE) == Some(1)
  {
    assert ([COLON, QUOTE] + value)[1..] == [QUOTE] + value;
  }

  lemma SkipOne(c: byte, t: seq<byte>, room: nat)
    requires c != OPEN
    ensures Texts([c] + t, room) == Texts(t, room)
  {
    var u := [c] + t;
    assert u[1..] == t;
    assert IndexOf(u, OPEN) == Later(IndexOf(t, OPEN), 1);
    hide IndexOf, ObjectEnd, StringField;
    if room > 0 && IndexOf(t, OPEN).Some? {
      var obj := IndexOf(t, OPEN).value;
      assert u[obj + 1..] == t[obj..] && u[obj + 2..] == t[obj + 1..];
    }
  }

  lemma OneObject(e: Entry, post: seq<byte>, room: nat)
    requires Plain(e) && room > 0
    ensures Texts(PrintObject(e) + post, room) == [ReadBack(e.text)] + Texts(post, room - 1)
  {
    hide StringField, ObjectEnd, Body;
    var t := PrintObject(e) + post;
    assert t[0] == OPEN && t[1..] == Body(e) + [CLOSE] + post;
    ObjectIsWhole(e, post);
    TextIsRead(e, post);
    assert t[0..] == t && t[|Body(e)| + 2..] == post;
  }

  function TextsOf(es: seq<Entry>, room: nat): seq<seq<byte>> {
    if es == [] || room == 0 then [] else [ReadBack(es[0].text)] + TextsOf(es[1..], room - 1)
  }

  lemma {:induction false} ObjectsAreRead(es: seq<Entry>, room: nat)
    requires forall i :: 0 <= i < |es| ==> Plain(es[i])
    ensures Texts(PrintObjects(es) + [LINE_CLOSE], room) == TextsOf(es, room)
    decreases |es|
  {
    hide PrintObject, Texts, ReadBack;
    if es == [] {
      assert PrintObjects(es) + [LINE_CLOSE] == [LINE_CLOSE] + [];
      SkipOne(LINE_CLOSE, [], room);
      NoTexts(room);
    } else if room == 0 {
      RoomlessTexts(PrintObjects(es) + [LINE_CLOSE]);
    } else {
      var more := PrintObjects(es[1..]) + [LINE_CLOSE];
      var post := if |es| == 1 then more else [COMMA] + more;
      assert PrintObjects(es) + [LINE_CLOSE] == PrintObject(es[0]) + post;
      OneObject(es[0], post, room);
      SkipOne(COMMA, more, room - 1);
      ObjectsAreRead(es[1..], room - 1);
    }
  }

  lemma NoTexts(room: nat)
    ensures Texts([], room) == []
  {
  }

  lemma RoomlessTexts(t: seq<byte>)
    ensures Texts(t, 0) == []
  {
  }

  lemma {:induction false} TextsOfAt(es: seq<Entry>, room: nat)
    ensures var n := if |es| < room then |es| else room;
            |TextsOf(es, room)| == n && forall i :: 0 <= i < n ==> TextsOf(es, room)[i] == ReadBack(es[i].text)
  {
    if es == [] || room == 0 {
    } else {
      TextsOfAt(es[1..], room - 1);
    }
  }

  /** A printed line reads as its first 32 texts, in order, each read back; they
      are the texts themselves exactly when none of those has a control byte. */
  lemma LineRoundTrip(es: seq<Entry>)
    requires forall i :: 0 <= i < |es| ==> Plain(es[i])
    ensures LineTexts(PrintLine(es)) == Some(TextsOf(es, MAX_BLOCKS))
    ensures var n := if |es| < MAX_BLOCKS then |es| else MAX_BLOCKS;
            && |TextsOf(es, MAX_BLOCKS)| == n
            && forall i :: 0 <= i < n ==>
                 (TextsOf(es, MAX_BLOCKS)[i] == es[i].text <==>
                  forall k :: 0 <= k < |es[i].text| ==> es[i].text[k] >= 0x20)
  {
    var line := PrintLine(es);
    assert line[0] == LINE_OPEN && line[0..] == [LINE_OPEN] + (PrintObjects(es) + [LINE_CLOSE]);
    SkipOne(LINE_OPEN, PrintObjects(es) + [LINE_CLOSE], MAX_BLOCKS);
    ObjectsAreRead(es, MAX_BLOCKS);
    TextsOfAt(es, MAX_BLOCKS);
    forall i | 0 <= i < |TextsOf(es, MAX_BLOCKS)|
      ensures TextsOf(es, MAX_BLOCKS)[i] == es[i].text <==>
              forall k :: 0 <= k < |es[i].text| ==> es[i].text[k] >= 0x20
    {
      ReadBackIff(es[i].text);
    }
  }
}
