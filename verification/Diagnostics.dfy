/**
  The diagnostic text that rides back with an unlock reply: the accumulator the
  setuid helper fills from PAM's messages (append_message in
  hikari_unlocker.c), and the compositor's own filter on the receiving side
  (sanitize_message in src/lock_mode.c).
 */
module Diagnostics {
  import opened Utf8

  // Size of the message field of struct hikari_unlock_reply.
  const MESSAGE_MAX: nat := 500

  /** C0, DEL and C1: what both sides drop. */
  predicate IsControl(cp: nat) {
    cp < 0x20 || cp == 0x7F || 0x80 <= cp <= 0x9F
  }

  /** The two Unicode separators the compositor drops as well. */
  predicate IsBreak(cp: nat) { cp == 0x2028 || cp == 0x2029 }

  predicate Drops(c: seq<byte>, strict: bool)
    requires IsChar(c)
  {
    if strict then CompositorDrops(c) else HelperDrops(c)
  }

  predicate HelperDrops(c: seq<byte>)
    requires IsChar(c)
  {
    IsControl(CodepointOf(c))
  }

  predicate CompositorDrops(c: seq<byte>)
    requires IsChar(c)
  {
    IsControl(CodepointOf(c)) || IsBreak(CodepointOf(c))
  }

  // ------------------------------------------------------------ filtering

  /** The characters of `cs` that survive; `strict` also drops separators. */
  function Kept(cs: seq<seq<byte>>, strict: bool): (r: seq<seq<byte>>)
    requires AllChars(cs)
    ensures AllChars(r)
  {
    if cs == [] then []
    else if Drops(cs[0], strict) then Kept(cs[1..], strict)
    else [cs[0]] + Kept(cs[1..], strict)
  }

  lemma {:induction false} KeptNone(cs: seq<seq<byte>>, strict: bool)
    requires AllChars(cs)
    ensures forall i :: 0 <= i < |Kept(cs, strict)| ==> !Drops(Kept(cs, strict)[i], strict)
    ensures forall i :: 0 <= i < |Kept(cs, strict)| ==> !HelperDrops(Kept(cs, strict)[i])
  {
    hide IsChar, CodepointOf;
    if cs == [] {
    } else {
      KeptNone(cs[1..], strict);
    }
  }

  /** How many whole characters of `cs` fit in `room` bytes. */
  function Fitting(cs: seq<seq<byte>>, room: nat): (n: nat)
    ensures n <= |cs|
  {
    if cs == [] || |cs[0]| > room then 0 else 1 + Fitting(cs[1..], room - |cs[0]|)
  }

  /** The longest run of leading characters of `cs` that takes at most `room` bytes. */
  function Cut(cs: seq<seq<byte>>, room: nat): (s: seq<byte>) {
    Concat(cs[..Fitting(cs, room)])
  }

  /** Cutting keeps whole characters only, never exceeds the room, and stops
      early only when the next character does not fit. */
  lemma {:induction false} CutIsMaximal(cs: seq<seq<byte>>, room: nat)
    ensures |Cut(cs, room)| <= room
    ensures var n := Fitting(cs, room); n < |cs| ==> |Cut(cs, room)| + |cs[n]| > room
  {
    if cs == [] || |cs[0]| > room {
    } else {
      CutIsMaximal(cs[1..], room - |cs[0]|);
      CutUnfold(cs, room);
    }
  }

  lemma CutUnfold(cs: seq<seq<byte>>, room: nat)
    ensures cs == [] || |cs[0]| > room ==> Cut(cs, room) == []
    ensures cs != [] && |cs[0]| <= room ==> Cut(cs, room) == cs[0] + Cut(cs[1..], room - |cs[0]|)
  {
    if cs != [] && |cs[0]| <= room {
      var n := Fitting(cs[1..], room - |cs[0]|);
      assert cs[..n + 1][1..] == cs[1..][..n];
    }
  }

  // --------------------------------------- the walk both filters perform

  /** After `offset` bytes of `text`, `done` has been written: what is left to
      write completes the cut of the whole. */
  ghost predicate Walked(text: seq<byte>, strict: bool, room: nat, offset: nat, done: seq<byte>) {
    && offset <= |text| && |done| <= room
    && (IsValid(text) <==> IsValid(text[offset..]))
    && var all, cs := Kept(Characters(text), strict), Kept(Characters(text[offset..]), strict);
    && done + Cut(cs, room - |done|) == Cut(all, room)
    && (Fitting(cs, room - |done|) < |cs| <==> Fitting(all, room) < |all|)
  }

  lemma WalkStart(text: seq<byte>, strict: bool, room: nat)
    ensures Walked(text, strict, room, 0, [])
  {
    hide IsChar, DecodeFirst, Characters, Kept, Cut, Fitting;
    assert text[0..] == text;
    var body := Cut(Kept(Characters(text), strict), room);
    assert [] + body == body;
  }

  /** `c` is the character at `offset`. */
  ghost predicate NextIs(text: seq<byte>, offset: nat, c: seq<byte>) {
    && offset + |c| <= |text| && c == text[offset..offset + |c|] && IsChar(c)
    && Characters(text[offset..]) == [c] + Characters(text[offset + |c|..])
    && (IsValid(text[offset..]) <==> IsValid(text[offset + |c|..]))
  }

  /** One step of a walk over `text` by whole characters. */
  lemma FirstCharacter(text: seq<byte>, offset: nat)
    requires offset < |text|
    ensures var d := DecodeFirst(text[offset..]);
            if d.Malformed? then !IsValid(text[offset..]) && Characters(text[offset..]) == []
            else NextIs(text, offset, text[offset..offset + d.size]) &&
                 CodepointOf(text[offset..offset + d.size]) == d.codepoint
  {
    var s := text[offset..];
    DecodedIsChar(s);
    if DecodeFirst(s).Character? {
      var n := DecodeFirst(s).size;
      CharactersStep(s[..n], s[n..]);
      ValidStep(s[..n], s[n..]);
      hide IsChar, DecodeFirst, CodepointOf, Characters, IsValid;
      assert s[..n] == text[offset..offset + n] && s[n..] == text[offset + n..];
      assert s == s[..n] + s[n..];
    }
  }

  /** The four things one turn of the loop can do: meet a byte that starts no
      character, drop a character, find the buffer full, copy a character. */
  lemma WalkStops(text: seq<byte>, strict: bool, room: nat, offset: nat, done: seq<byte>)
    requires Walked(text, strict, room, offset, done) && DecodeFirst(text[offset..]).Malformed?
    requires offset < |text|
    ensures var all := Kept(Characters(text), strict);
            !IsValid(text) && done == Cut(all, room) && Fitting(all, room) == |all|
  {
    FirstCharacter(text, offset);
    hide IsChar, DecodeFirst, CodepointOf, IsValid, Cut, Kept, Fitting, Characters;
    KeptStep([], [], strict);
    CutStep([], [], room - |done|);
    assert done + [] == done;
  }

  lemma WalkDrops(text: seq<byte>, strict: bool, room: nat, offset: nat, done: seq<byte>, c: seq<byte>)
    requires Walked(text, strict, room, offset, done) && NextIs(text, offset, c) && Drops(c, strict)
    ensures Walked(text, strict, room, offset + |c|, done)
  {
    hide IsChar, DecodeFirst, CodepointOf, IsValid, Cut, Kept, Fitting, Characters;
    KeptStep(c, Characters(text[offset + |c|..]), strict);
  }

  lemma WalkFull(text: seq<byte>, strict: bool, room: nat, offset: nat, done: seq<byte>, c: seq<byte>)
    requires Walked(text, strict, room, offset, done) && NextIs(text, offset, c) && !Drops(c, strict)
    requires |done| + |c| > room
    ensures var all := Kept(Characters(text), strict); done == Cut(all, room) && Fitting(all, room) < |all|
  {
    hide IsChar, DecodeFirst, CodepointOf, IsValid, Cut, Kept, Fitting, Characters;
    var rest := Characters(text[offset + |c|..]);
    KeptStep(c, rest, strict);
    CutStep(c, Kept(rest, strict), room - |done|);
    assert done + [] == done;
  }

  lemma WalkCopies(text: seq<byte>, strict: bool, room: nat, offset: nat, done: seq<byte>, c: seq<byte>)
    requires Walked(text, strict, room, offset, done) && NextIs(text, offset, c) && !Drops(c, strict)
    requires |done| + |c| <= room
    ensures Walked(text, strict, room, offset + |c|, done + c)
  {
    hide IsChar, DecodeFirst, CodepointOf, IsValid, Cut, Kept, Fitting, Characters;
    var rest := Characters(text[offset + |c|..]);
    var cs, left := Kept(rest, strict), room - |done|;
    KeptStep(c, rest, strict);
    CutStep(c, cs, left);
    assert done + (c + Cut(cs, left - |c|)) == (done + c) + Cut(cs, left - |c|);
  }

  lemma KeptStep(c: seq<byte>, rest: seq<seq<byte>>, strict: bool)
    requires AllChars(rest)
    ensures Kept([], strict) == []
    ensures IsChar(c) ==> Kept([c] + rest, strict) ==
                          if Drops(c, strict) then Kept(rest, strict) else [c] + Kept(rest, strict)
  {
    assert ([c] + rest)[1..] == rest;
  }

  lemma CutStep(c: seq<byte>, cs: seq<seq<byte>>, room: nat)
    ensures Cut([], room) == [] && Fitting([], room) == 0
    ensures |c| > room ==> Cut([c] + cs, room) == [] && Fitting([c] + cs, room) == 0
    ensures |c| <= room ==>
              && Cut([c] + cs, room) == c + Cut(cs, room - |c|)
              && Fitting([c] + cs, room) == 1 + Fitting(cs, room - |c|)
  {
    assert ([c] + cs)[1..] == cs;
    CutUnfold([c] + cs, room);
  }

  lemma WalkEnd(text: seq<byte>, strict: bool, room: nat, done: seq<byte>)
    requires Walked(text, strict, room, |text|, done)
    ensures var all := Kept(Characters(text), strict);
            IsValid(text) && done == Cut(all, room) && Fitting(all, room) == |all|
  {
    assert text[|text|..] == [];
    CharactersOfNothing();
    assert done + [] == done;
  }

  lemma CharactersOfNothing()
    ensures Characters([]) == [] && IsValid([])
  {
  }

  // --------------------------------------------- what it comes to in bytes

  /** No control: no byte below 0x20, no DEL, and none of U+0080 to U+009F, which
      UTF-8 spells C2 80 to C2 9F. */
  predicate Plain(s: seq<byte>) {
    && (forall i :: 0 <= i < |s| ==> s[i] >= 0x20 && s[i] != 0x7F)
    && (forall i :: 0 <= i < |s| ==> !UpperControlAt(s, i))
  }

  predicate UpperControlAt(s: seq<byte>, i: nat) {
    i + 1 < |s| && s[i] == 0xC2 && s[i + 1] <= 0x9F
  }

  /** No line or paragraph separator: E2 80 A8 and E2 80 A9. */
  predicate Unbroken(s: seq<byte>) { forall i :: 0 <= i < |s| ==> !BreakAt(s, i) }

  predicate BreakAt(s: seq<byte>, i: nat) {
    i + 2 < |s| && s[i] == 0xE2 && s[i + 1] == 0x80 && 0xA8 <= s[i + 2] <= 0xA9
  }

  lemma DropsInBytes(c: seq<byte>)
    requires IsChar(c)
    ensures HelperDrops(c) <==> !Plain(c)
    ensures CompositorDrops(c) <==> !Plain(c) || !Unbroken(c)
  {
    ControlInBytes(c);
    BreakInBytes(c);
    hide CodepointOf;
    assert forall i :: 0 < i < |c| ==> !UpperControlAt(c, i) && !BreakAt(c, i) && c[i] >= 0x80;
  }

  lemma ControlInBytes(c: seq<byte>)
    requires IsChar(c)
    ensures IsControl(CodepointOf(c)) <==> c[0] < 0x20 || c[0] == 0x7F || UpperControlAt(c, 0)
  {
    CodepointInvertsEncode(c);
    hide CodepointOf;
  }

  lemma BreakInBytes(c: seq<byte>)
    requires IsChar(c)
    ensures IsBreak(CodepointOf(c)) <==> BreakAt(c, 0)
  {
    CodepointInvertsEncode(c);
    hide CodepointOf;
  }

  lemma CharJoins(c: seq<byte>, more: seq<byte>)
    requires IsChar(c)
    ensures Plain(c + more) <==> Plain(c) && Plain(more)
    ensures Unbroken(c + more) <==> Unbroken(c) && Unbroken(more)
  {
    assert c[|c| - 1] != 0xC2 && c[|c| - 1] != 0xE2 && (|c| > 1 ==> c[|c| - 2] != 0xE2);
    hide IsChar;
    PlainJoins(c, more);
    UnbrokenJoins(c, more);
  }

  lemma PlainJoins(a: seq<byte>, b: seq<byte>)
    requires a != [] && a[|a| - 1] != 0xC2
    ensures Plain(a + b) <==> Plain(a) && Plain(b)
  {
    var s := a + b;
    assert forall i :: 0 <= i < |a| ==> s[i] == a[i] && UpperControlAt(s, i) == UpperControlAt(a, i);
    assert forall i :: 0 <= i < |b| ==> s[|a| + i] == b[i] && UpperControlAt(s, |a| + i) == UpperControlAt(b, i);
    assert forall i :: |a| <= i < |s| ==> s[i] == b[i - |a|] && UpperControlAt(s, i) == UpperControlAt(b, i - |a|);
  }

  lemma UnbrokenJoins(a: seq<byte>, b: seq<byte>)
    requires a != [] && a[|a| - 1] != 0xE2 && (|a| > 1 ==> a[|a| - 2] != 0xE2)
    ensures Unbroken(a + b) <==> Unbroken(a) && Unbroken(b)
  {
    var s := a + b;
    assert forall i :: 0 <= i < |a| ==> BreakAt(s, i) == BreakAt(a, i);
    assert forall i :: 0 <= i < |b| ==> BreakAt(s, |a| + i) == BreakAt(b, i);
    assert forall i :: |a| <= i < |s| ==> BreakAt(s, i) == BreakAt(b, i - |a|);
  }

  lemma {:induction false} CharsInBytes(cs: seq<seq<byte>>)
    requires AllChars(cs)
    ensures Plain(Concat(cs)) <==> forall i :: 0 <= i < |cs| ==> !HelperDrops(cs[i])
    ensures Plain(Concat(cs)) && Unbroken(Concat(cs)) <==> forall i :: 0 <= i < |cs| ==> !CompositorDrops(cs[i])
  {
    hide IsChar, HelperDrops, CompositorDrops, Plain, Unbroken;
    if cs == [] {
      NothingPlain();
    } else {
      DropsInBytes(cs[0]);
      CharJoins(cs[0], Concat(cs[1..]));
      CharsInBytes(cs[1..]);
      assert forall i :: 0 < i < |cs| ==> cs[i] == cs[1..][i - 1];
      assert forall i :: 0 <= i < |cs[1..]| ==> cs[1..][i] == cs[i + 1];
    }
  }

  lemma NothingPlain()
    ensures Plain([]) && Unbroken([])
  {
  }

  lemma {:induction false} KeptAll(cs: seq<seq<byte>>, strict: bool)
    requires AllChars(cs) && forall i :: 0 <= i < |cs| ==> !Drops(cs[i], strict)
    ensures Kept(cs, strict) == cs
  {
    hide IsChar, Drops;
    if cs == [] {
    } else {
      KeptAll(cs[1..], strict);
    }
  }

  lemma {:induction false} KeptIsShorter(cs: seq<seq<byte>>, strict: bool)
    requires AllChars(cs)
    ensures |Concat(Kept(cs, strict))| <= |Concat(cs)|
  {
    hide IsChar, Drops;
    if cs == [] {
    } else {
      KeptIsShorter(cs[1..], strict);
      var rest := Kept(cs[1..], strict);
      assert ([cs[0]] + rest)[1..] == rest;
    }
  }

  // ------------------------------------------------- the helper's accumulator

  datatype Note = Note(text: seq<byte>, isError: bool)

  /** Both the bytes gathered for the reply in flight and the error flag. */
  datatype Gathered = Gathered(text: seq<byte>, isError: bool)

  const SEPARATOR: seq<byte> := [0x20, 0x7C, 0x20]  // " | "

  /** What one PAM message adds. A message that is not UTF-8, that does not fit
      even after its separator, or that filters away to nothing adds nothing. */
  function Append(g: Gathered, text: seq<byte>, isError: bool): (r: Gathered)
    requires |g.text| <= MESSAGE_MAX
    ensures |r.text| <= MESSAGE_MAX
  {
    var lead := if g.text == [] then [] else SEPARATOR;
    var room := MESSAGE_MAX - |g.text| - |lead|;
    if !IsValid(text) || room < 0 then g
    else
      var body := Cut(Kept(Characters(text), false), room);
      CutIsMaximal(Kept(Characters(text), false), room);
      if body == [] then g else Gathered(g.text + lead + body, g.isError || isError)
  }

  function AppendAll(g: Gathered, notes: seq<Note>): (r: Gathered)
    requires |g.text| <= MESSAGE_MAX
    ensures |r.text| <= MESSAGE_MAX
    decreases notes
  {
    if notes == [] then g
    else AppendAll(Append(g, notes[0].text, notes[0].isError), notes[1..])
  }

  const EMPTY := Gathered([], false)

  /** What is gathered only ever grows, by a separator and at least one whole
      character; it stops short of the filtered text only where one more
      character would pass 500 bytes. */
  lemma AppendIsMaximal(g: Gathered, text: seq<byte>, isError: bool) returns (n: nat)
    requires |g.text| <= MESSAGE_MAX
    ensures var r, kept := Append(g, text, isError), Kept(Characters(text), false);
            var lead := if g.text == [] then [] else SEPARATOR;
            && n <= |kept| && g.text <= r.text
            && (n == 0 ==> r == g)
            && (n > 0 ==> IsValid(text) && r == Gathered(g.text + lead + Concat(kept[..n]), g.isError || isError))
            && (IsValid(text) && n < |kept| ==> |g.text| + |lead| + |Concat(kept[..n + 1])| > MESSAGE_MAX)
  {
    hide IsChar, DecodeFirst, Characters, Kept, Concat, Fitting;
    var lead := if g.text == [] then [] else SEPARATOR;
    var kept := Kept(Characters(text), false);
    var room := MESSAGE_MAX - |g.text| - |lead|;
    n := if IsValid(text) && room >= 0 then Fitting(kept, room) else 0;
    if room >= 0 {
      CutIsMaximal(kept, room);
    }
    if n < |kept| {
      OneLonger(kept, n);
    }
    if n == 0 {
      NothingConcat(kept[..n]);
    } else {
      assert kept[..n][0] == kept[0] && IsChar(kept[0]);
      FrontIsNotEmpty(kept[..n]);
    }
  }

  lemma NothingConcat(cs: seq<seq<byte>>)
    requires cs == []
    ensures Concat(cs) == []
  {
  }

  lemma {:induction false} AppendAllExtends(g: Gathered, notes: seq<Note>)
    requires |g.text| <= MESSAGE_MAX
    ensures g.text <= AppendAll(g, notes).text
    ensures g.isError ==> AppendAll(g, notes).isError
    decreases notes
  {
    if notes == [] {
    } else {
      hide Append;
      var n := AppendIsMaximal(g, notes[0].text, notes[0].isError);
      AppendAllExtends(Append(g, notes[0].text, notes[0].isError), notes[1..]);
    }
  }

  /** Every note gets its turn, in order, and nothing later takes back what it
      has added. */
  lemma {:induction false} NotesArriveInOrder(g: Gathered, before: seq<Note>, x: Note, after: seq<Note>)
    requires |g.text| <= MESSAGE_MAX
    ensures Append(AppendAll(g, before), x.text, x.isError).text <= AppendAll(g, before + [x] + after).text
    ensures x.isError && Append(AppendAll(g, before), x.text, x.isError).text != AppendAll(g, before).text ==>
              AppendAll(g, before + [x] + after).isError
    decreases before
  {
    hide Append;
    var all := before + [x] + after;
    if before == [] {
      assert all[0] == x && all[1..] == after;
      var n := AppendIsMaximal(g, x.text, x.isError);
      AppendAllExtends(Append(g, x.text, x.isError), after);
    } else {
      assert all[0] == before[0] && all[1..] == before[1..] + [x] + after;
      NotesArriveInOrder(Append(g, before[0].text, before[0].isError), before[1..], x, after);
    }
  }

  lemma {:induction false} AppendAllJoins(g: Gathered, a: seq<Note>, b: seq<Note>)
    requires |g.text| <= MESSAGE_MAX
    ensures AppendAll(AppendAll(g, a), b) == AppendAll(g, a + b)
    decreases a
  {
    hide Append;
    if a == [] {
      assert a + b == b;
    } else {
      assert (a + b)[1..] == a[1..] + b;
      AppendAllJoins(Append(g, a[0].text, a[0].isError), a[1..], b);
    }
  }

  /** A first note that fits is there whole, less the controls. */
  lemma FirstNoteIsWhole(note: Note)
    requires IsValid(note.text)
    ensures var kept := Kept(Characters(note.text), false);
            |Concat(kept)| <= MESSAGE_MAX ==> Append(EMPTY, note.text, note.isError).text == Concat(kept)
  {
    hide IsValid, Characters, Kept, Fitting, Concat, Cut;
    var kept := Kept(Characters(note.text), false);
    if |Concat(kept)| <= MESSAGE_MAX {
      CutWhole(kept, MESSAGE_MAX);
      assert [] + [] + Concat(kept) == Concat(kept);
    }
  }

  lemma OneLonger(cs: seq<seq<byte>>, n: nat)
    requires n < |cs|
    ensures Concat(cs[..n + 1]) == Concat(cs[..n]) + cs[n]
  {
    assert cs[..n + 1] == cs[..n] + [cs[n]];
    ConcatAppend(cs[..n], [cs[n]]);
    assert Concat([cs[n]]) == cs[n];
  }

  lemma FrontIsNotEmpty(cs: seq<seq<byte>>)
    requires cs != [] && IsChar(cs[0])
    ensures Concat(cs) != []
  {
  }

  /** Text the compositor may draw as it stands: characters only, none of them
      a control. */
  ghost predicate IsClean(s: seq<byte>) {
    IsValid(s) && forall i :: 0 <= i < |Characters(s)| ==> !HelperDrops(Characters(s)[i])
  }

  lemma CleanAppend(a: seq<byte>, b: seq<byte>)
    requires IsClean(a) && IsClean(b)
    ensures IsClean(a + b)
  {
    ValidAppend(a, b);
  }

  lemma CutIsClean(cs: seq<seq<byte>>, room: nat)
    requires AllChars(cs) && forall i :: 0 <= i < |cs| ==> !HelperDrops(cs[i])
    ensures IsClean(Cut(cs, room))
  {
    var kept := cs[..Fitting(cs, room)];
    ValidIffCut(Concat(kept), kept);
  }

  lemma SeparatorIsClean()
    ensures IsClean(SEPARATOR)
  {
    var cs := [[0x20], [0x7C], [0x20]];
    assert Concat(cs) == SEPARATOR by {
      assert cs[1..] == [[0x7C], [0x20]] && cs[1..][1..] == [[0x20]];
    }
    ValidIffCut(SEPARATOR, cs);
  }

  lemma AppendStaysClean(g: Gathered, text: seq<byte>, isError: bool)
    requires |g.text| <= MESSAGE_MAX && IsClean(g.text)
    ensures IsClean(Append(g, text, isError).text)
  {
    var kept, lead := Kept(Characters(text), false), if g.text == [] then [] else SEPARATOR;
    KeptNone(Characters(text), false);
    CutIsClean(kept, if |g.text + lead| <= MESSAGE_MAX then MESSAGE_MAX - |g.text| - |lead| else 0);
    SeparatorIsClean();
    NothingIsClean();
    hide IsChar, Characters, Kept, Cut, IsClean, HelperDrops;
    CleanAppend(g.text, lead);
    if |g.text + lead| <= MESSAGE_MAX {
      CleanAppend(g.text + lead, Cut(kept, MESSAGE_MAX - |g.text| - |lead|));
    }
  }

  lemma NothingIsClean()
    ensures IsClean([])
  {
    CharactersOfNothing();
  }

  /** Whatever PAM says, in whatever order, the reply carries at most 500 bytes
      of well-formed UTF-8 without a control character. */
  lemma {:induction false} AccumulatorStaysClean(g: Gathered, notes: seq<Note>)
    requires |g.text| <= MESSAGE_MAX && IsClean(g.text)
    ensures IsClean(AppendAll(g, notes).text)
    decreases notes
  {
    hide IsClean, Append;
    if notes == [] {
    } else {
      AppendStaysClean(g, notes[0].text, notes[0].isError);
      AccumulatorStaysClean(Append(g, notes[0].text, notes[0].isError), notes[1..]);
    }
  }

  /** The helper's message_buffer, message_len and message_is_error. */
  class Accumulator {
    const buffer: array<byte>
    var len: nat
    var isError: bool

    ghost predicate Valid()
      reads this
    {
      buffer.Length == MESSAGE_MAX && len <= MESSAGE_MAX
    }

    ghost function Contents(): (g: Gathered)
      reads this, buffer
      requires Valid()
      ensures |g.text| <= MESSAGE_MAX
    {
      Gathered(buffer[..len], isError)
    }

    constructor ()
      ensures Valid() && fresh(buffer) && Contents() == EMPTY
    {
      buffer := new byte[MESSAGE_MAX](_ => 0);
      len := 0;
      isError := false;
    }

    /** check_password starts every attempt with an empty accumulator. */
    method Reset()
      requires Valid()
      modifies this, buffer
      ensures Valid() && Contents() == EMPTY
    {
      for i := 0 to buffer.Length { buffer[i] := 0; }
      len := 0;
      isError := false;
    }

    /** memcpy at the end of the used part. */
    method Copy(s: seq<byte>)
      requires Valid() && len + |s| <= MESSAGE_MAX
      modifies this`len, buffer
      ensures Valid() && isError == old(isError)
      ensures Contents().text == old(Contents().text) + s
    {
      for i := 0 to |s|
        modifies buffer
        invariant buffer[..len] == old(buffer[..len])
        invariant buffer[len..len + i] == s[..i]
      {
        buffer[len + i] := s[i];
      }
      assert buffer[..len + |s|] == buffer[..len] + buffer[len..len + |s|];
      len := len + |s|;
    }

    /** The second loop of append_message: copy what survives the filter a
        character at a time until one does not fit. */
    method CopyKept(text: seq<byte>)
      requires Valid() && IsValid(text)
      modifies this`len, buffer
      ensures Valid() && isError == old(isError)
      ensures Contents().text ==
              old(Contents()).text + Cut(Kept(Characters(text), false), MESSAGE_MAX - |old(Contents()).text|)
    {
      hide Walked, NextIs, IsChar, DecodeFirst, Characters, CodepointOf, IsValid, Cut, Kept;
      ghost var start, room := buffer[..len], MESSAGE_MAX - len;
      ghost var done: seq<byte> := [];
      WalkStart(text, false, room);
      var offset := 0;
      while offset < |text|
        modifies this`len, buffer
        invariant Valid() && offset <= |text| && Walked(text, false, room, offset, done)
        invariant buffer[..len] == start + done
        decreases |text| - offset
      {
        var d := Decode(text, offset, |text| - offset);
        assert text[offset..offset + (|text| - offset)] == text[offset..];
        FirstCharacter(text, offset);
        if d.Malformed? {
          WalkStops(text, false, room, offset, done);
          return;
        }
        var c := text[offset..offset + d.size];
        if IsControl(d.codepoint) {
          WalkDrops(text, false, room, offset, done, c);
          offset := offset + d.size;
          continue;
        }
        if len + d.size > MESSAGE_MAX {
          WalkFull(text, false, room, offset, done, c);
          return;
        }
        WalkCopies(text, false, room, offset, done, c);
        offset := offset + d.size;
        Copy(c);
        done := done + c;
      }
      WalkEnd(text, false, room, done);
    }

    /** append_message: validate the whole text, separate it from what is there,
        and take the separator back when nothing followed it. */
    method AppendMessage(text: seq<byte>, error: bool)
      requires Valid()
      modifies this, buffer
      ensures Valid()
      ensures Contents() == Append(old(Contents()), text, error)
    {
      hide IsChar, DecodeFirst, Characters, CodepointOf, IsValid, Cut;
      var offset := 0;
      assert text[0..] == text;
      while offset < |text|
        modifies {}
        invariant offset <= |text|
        invariant IsValid(text) <==> IsValid(text[offset..])
      {
        var d := Decode(text, offset, |text| - offset);
        assert text[offset..offset + (|text| - offset)] == text[offset..];
        FirstCharacter(text, offset);
        if d.Malformed? {
          return;
        }
        offset := offset + d.size;
      }
      assert text[offset..] == [];
      CharactersOfNothing();
      assert IsValid(text);

      var restoreTo := len;
      ghost var before := buffer[..len];
      if len != 0 {
        if len + |SEPARATOR| > MESSAGE_MAX {
          return;
        }
        Copy(SEPARATOR);
      }
      var bodyStart := len;
      ghost var start := buffer[..len];
      CopyKept(text);
      assert buffer[..restoreTo] == before by {
        assert buffer[..restoreTo] == buffer[..len][..restoreTo];
      }
      if len == bodyStart {
        len := restoreTo;
        return;
      }
      if error {
        isError := true;
      }
    }
  }

  // ------------------------------------------------ the compositor's filter

  /** What sanitize_message leaves of the `len` bytes a reply claims, in a
      buffer of `size` bytes of which one holds the terminator. Ill-formed input
      is rejected as a whole, but only if the walk reaches it before the buffer
      is full. */
  function Sanitized(field: seq<byte>, len: nat, size: nat): (s: seq<byte>)
    requires size > 0
    ensures |s| < size
  {
    var text := field[..if len > |field| then |field| else len];
    var cs := Kept(Characters(text), true);
    CutIsMaximal(cs, size - 1);
    if IsValid(text) || Fitting(cs, size - 1) < |cs| then Cut(cs, size - 1) else []
  }

  /** Whatever 512 bytes arrive, what is drawn is well-formed, free of controls
      and of line and paragraph separators, and fits the 501-byte buffer. */
  lemma SanitizedIsSafe(field: seq<byte>, len: nat, size: nat)
    requires size > 0
    ensures var s := Sanitized(field, len, size);
            && |s| < size && IsClean(s) && Plain(s) && Unbroken(s)
            && forall i :: 0 <= i < |Characters(s)| ==> !CompositorDrops(Characters(s)[i])
  {
    hide IsChar, DecodeFirst, Characters, CodepointOf, Plain, Unbroken;
    var text := field[..if len > |field| then |field| else len];
    var cs := Kept(Characters(text), true);
    var kept := cs[..Fitting(cs, size - 1)];
    KeptNone(Characters(text), true);
    CutIsMaximal(cs, size - 1);
    ValidIffCut(Concat(kept), kept);
    CharactersOfNothing();
    CharsInBytes(kept);
    NothingPlain();
  }

  /** Bytes that are not UTF-8 and could not fill the buffer are not drawn. */
  lemma MalformedIsRejected(field: seq<byte>, len: nat, size: nat)
    requires len <= |field| && len < size && !IsValid(field[..len])
    ensures Sanitized(field, len, size) == []
  {
    hide IsChar, IsValid, Characters, Kept, Cut;
    var all := Characters(field[..len]);
    KeptIsShorter(all, true);
    CharactersArePrefix(field[..len]);
    CutWhole(Kept(all, true), size - 1);
  }

  /** `cs` without the line and paragraph separators. */
  function WithoutBreaks(cs: seq<seq<byte>>): (r: seq<seq<byte>>)
    requires AllChars(cs)
    ensures AllChars(r)
    ensures (forall i :: 0 <= i < |cs| ==> !IsBreak(CodepointOf(cs[i]))) ==> r == cs
  {
    if cs == [] then []
    else if IsBreak(CodepointOf(cs[0])) then WithoutBreaks(cs[1..])
    else [cs[0]] + WithoutBreaks(cs[1..])
  }

  lemma {:induction false} StrictlyKeptOfClean(cs: seq<seq<byte>>)
    requires AllChars(cs) && forall i :: 0 <= i < |cs| ==> !HelperDrops(cs[i])
    ensures Kept(cs, true) == WithoutBreaks(cs)
    ensures |Concat(WithoutBreaks(cs))| <= |Concat(cs)|
  {
    hide IsChar, CodepointOf;
    if cs == [] {
    } else {
      StrictlyKeptOfClean(cs[1..]);
      var rest := WithoutBreaks(cs[1..]);
      if !IsBreak(CodepointOf(cs[0])) {
        assert ([cs[0]] + rest)[1..] == rest;
      }
    }
  }

  lemma {:induction false} CutWhole(cs: seq<seq<byte>>, room: nat)
    requires |Concat(cs)| <= room
    ensures Fitting(cs, room) == |cs| && Cut(cs, room) == Concat(cs)
  {
    assert cs[..|cs|] == cs;
    if cs == [] {
    } else {
      CutWhole(cs[1..], room - |cs[0]|);
    }
  }

  /** The two filters agree across the pipe: the compositor never rejects what
      the helper gathered, and shows all of it but the two separators, whatever
      PAM said and whatever fills the unused tail of the field. */
  lemma DiagnosticArrives(notes: seq<Note>, tail: seq<byte>)
    ensures var text := AppendAll(EMPTY, notes).text;
            && IsClean(text) && Plain(text)
            && Sanitized(text + tail, |text|, MESSAGE_MAX + 1) == Concat(WithoutBreaks(Characters(text)))
  {
    CharactersOfNothing();
    AccumulatorStaysClean(EMPTY, notes);
    var text := AppendAll(EMPTY, notes).text;
    CharsInBytes(Characters(text));
    hide IsChar, DecodeFirst, Characters, CodepointOf, Cut, Plain, Unbroken;
    assert (text + tail)[..|text|] == text;
    StrictlyKeptOfClean(Characters(text));
    CutWhole(WithoutBreaks(Characters(text)), MESSAGE_MAX);
  }

  /** A message of at most 500 bytes with no control in it is gathered as it is,
      and drawn as it is if it has no separator either. */
  lemma PlainTextArrives(text: seq<byte>, isError: bool, tail: seq<byte>)
    requires IsValid(text) && |text| <= 500 && Plain(text)
    ensures Append(EMPTY, text, isError).text == text
    ensures Unbroken(text) ==> Sanitized(text + tail, |text|, 501) == text
  {
    hide IsChar, Characters, Cut, Kept, Plain, Unbroken, Fitting;
    PlainIsKept(text);
    CutWhole(Characters(text), 500);
    assert [] + [] + text == text;
    assert (text + tail)[..|text|] == text;
  }

  lemma PlainIsKept(text: seq<byte>)
    requires IsValid(text) && Plain(text)
    ensures Kept(Characters(text), false) == Characters(text)
    ensures Unbroken(text) ==> Kept(Characters(text), true) == Characters(text)
  {
    hide IsChar, Characters, HelperDrops, CompositorDrops, Plain, Unbroken;
    var cs := Characters(text);
    CharsInBytes(cs);
    KeptAll(cs, false);
    if Unbroken(text) {
      KeptAll(cs, true);
    }
  }

  /** sanitize_message: clamp the claimed length, walk by characters, drop and
      copy, and terminate what was written. Returns the number of bytes. */
  method SanitizeMessage(field: seq<byte>, len: nat, out: array<byte>) returns (written: nat)
    requires out.Length > 0
    modifies out
    ensures written < out.Length && out[written] == 0
    ensures out[..written] == Sanitized(field, len, out.Length)
  {
    hide Walked, NextIs, IsChar, DecodeFirst, Characters, CodepointOf, IsValid, Cut, Kept;
    var size := if len > |field| then |field| else len;
    ghost var text, room := field[..size], out.Length - 1;
    WalkStart(text, true, room);
    written := 0;
    var offset := 0;
    while offset < size
      invariant offset <= size && written <= room
      invariant Walked(text, true, room, offset, out[..written])
    {
      var d := Decode(field, offset, size - offset);
      TakeSlice(field, size, offset, offset + (size - offset));
      assert text[offset..] == text[offset..size];
      FirstCharacter(text, offset);
      if d.Malformed? {
        WalkStops(text, true, room, offset, out[..written]);
        out[0] := 0;
        return 0;
      }
      var c := field[offset..offset + d.size];
      TakeSlice(field, size, offset, offset + d.size);
      if IsControl(d.codepoint) || IsBreak(d.codepoint) {
        WalkDrops(text, true, room, offset, out[..written], c);
        offset := offset + d.size;
        continue;
      }
      if written + d.size + 1 > out.Length {
        WalkFull(text, true, room, offset, out[..written], c);
        out[written] := 0;
        return;
      }
      WalkCopies(text, true, room, offset, out[..written], c);
      offset := offset + d.size;
      CopyInto(out, written, c);
      written := written + d.size;
    }
    WalkEnd(text, true, room, out[..written]);
    out[written] := 0;
  }

  lemma TakeSlice(s: seq<byte>, size: nat, a: nat, b: nat)
    requires a <= b <= size <= |s|
    ensures s[..size][a..b] == s[a..b]
  {
  }

  /** memcpy of a short run of bytes. */
  method CopyInto(out: array<byte>, at: nat, s: seq<byte>)
    requires at + |s| <= out.Length
    modifies out
    ensures out[..at + |s|] == old(out[..at]) + s
  {
    for i := 0 to |s|
      invariant out[..at] == old(out[..at])
      invariant out[at..at + i] == s[..i]
    {
      out[at + i] := s[i];
    }
    assert out[..at + |s|] == out[..at] + out[at..at + |s|];
  }
}
