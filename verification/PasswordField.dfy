/**
  The password being typed on the lock screen (put_char, delete_char and
  clear_buffer in src/lock_mode.c): a fixed array, a cursor, and a length that
  is recovered by scanning for a zero byte rather than read from the cursor.
 */
module PasswordField {
  import opened Utf8

  const BUFFER_SIZE: nat := 1024

  datatype Key = Char(codepoint: nat) | Backspace | Clear

  /** What a key press makes of the bytes typed so far. A codepoint of zero is
      no character; one that would leave no room for the terminator is ignored;
      Backspace takes back one byte, not one character. */
  function Press(typed: seq<byte>, key: Key): (r: seq<byte>)
    requires key.Char? ==> key.codepoint < 0x1_0000_0000
  {
    match key
    case Char(cp) =>
      if cp == 0 || |typed| + CharSize(cp) >= BUFFER_SIZE then typed else typed + Encode(cp)
    case Backspace => if typed == [] then [] else typed[..|typed| - 1]
    case Clear => []
  }

  ghost predicate IsHistory(keys: seq<Key>) {
    forall i :: 0 <= i < |keys| && keys[i].Char? ==> keys[i].codepoint < 0x1_0000_0000
  }

  function Typed(keys: seq<Key>): (r: seq<byte>)
    requires IsHistory(keys)
  {
    if keys == [] then [] else Press(Typed(keys[..|keys| - 1]), keys[|keys| - 1])
  }

  /** A password the protocol can carry: short enough for both buffers and
      without the byte that would end it early as a C string. */
  predicate IsPassword(s: seq<byte>) {
    |s| < BUFFER_SIZE && forall i :: 0 <= i < |s| ==> s[i] != 0
  }

  lemma PressKeepsPassword(typed: seq<byte>, key: Key)
    requires IsPassword(typed) && (key.Char? ==> key.codepoint < 0x1_0000_0000)
    ensures IsPassword(Press(typed, key))
  {
    if key.Char? && key.codepoint != 0 {
      EncodeHasNoZero(key.codepoint);
    }
  }

  /** Any history of typing, deleting and clearing leaves a password. */
  lemma {:induction false} TypedIsPassword(keys: seq<Key>)
    requires IsHistory(keys)
    ensures IsPassword(Typed(keys))
  {
    if keys == [] {
    } else {
      TypedIsPassword(keys[..|keys| - 1]);
      PressKeepsPassword(Typed(keys[..|keys| - 1]), keys[|keys| - 1]);
    }
  }

  /** The UTF-8 of what the character keys among `keys` spell. */
  function Spelled(keys: seq<Key>): seq<seq<byte>>
    requires forall i :: 0 <= i < |keys| ==> keys[i].Char? && keys[i].codepoint < 0x1_0000_0000
  {
    if keys == [] then [] else Spelled(keys[..|keys| - 1]) + [Encode(keys[|keys| - 1].codepoint)]
  }

  /** Real characters, typed one after another. */
  ghost predicate IsText(keys: seq<Key>) {
    forall i :: 0 <= i < |keys| ==> keys[i].Char? && keys[i].codepoint != 0 && IsScalar(keys[i].codepoint)
  }

  lemma {:induction false} TypedIsSpelled(front: seq<Key>, keys: seq<Key>)
    requires IsHistory(front + keys) && (front == [] || front[|front| - 1] == Clear)
    requires IsText(keys) && |Concat(Spelled(keys))| < BUFFER_SIZE
    ensures Typed(front + keys) == Concat(Spelled(keys))
    decreases keys
  {
    hide Encode;
    if keys == [] {
      assert front + keys == front;
    } else {
      var n := |keys| - 1;
      assert (front + keys)[..|front + keys| - 1] == front + keys[..n];
      ConcatAppend(Spelled(keys[..n]), [Encode(keys[n].codepoint)]);
      assert Concat([Encode(keys[n].codepoint)]) == Encode(keys[n].codepoint);
      TypedIsSpelled(front, keys[..n]);
    }
  }

  lemma {:induction false} SpelledAt(keys: seq<Key>)
    requires IsText(keys)
    ensures |Spelled(keys)| == |keys| && AllChars(Spelled(keys))
    ensures forall i :: 0 <= i < |keys| ==> CodepointOf(Spelled(keys)[i]) == keys[i].codepoint
    decreases keys
  {
    if keys == [] {
    } else {
      var n := |keys| - 1;
      SpelledAt(keys[..n]);
      EncodeInvertsCodepoint(keys[n].codepoint);
      hide Encode, IsChar, CodepointOf;
      assert Spelled(keys) == Spelled(keys[..n]) + [Encode(keys[n].codepoint)];
    }
  }

  /** What is typed is what is entered: since the field was last cleared, the
      characters it holds are the codepoints of the keys, one by one. */
  lemma TypedSpells(front: seq<Key>, keys: seq<Key>)
    requires IsHistory(front + keys) && (front == [] || front[|front| - 1] == Clear)
    requires IsText(keys) && |Concat(Spelled(keys))| < BUFFER_SIZE
    ensures var cs := Characters(Typed(front + keys));
            && IsValid(Typed(front + keys)) && |cs| == |keys|
            && forall i :: 0 <= i < |keys| ==> CodepointOf(cs[i]) == keys[i].codepoint
  {
    hide Encode, IsChar, CodepointOf, Spelled, Typed, Concat;
    TypedIsSpelled(front, keys);
    SpelledAt(keys);
    ValidIffCut(Typed(front + keys), Spelled(keys));
  }

  /** Backspace undoes a character by as many presses as it has bytes. */
  function Erase(typed: seq<byte>, times: nat): seq<byte> {
    if times == 0 then typed else Erase(Press(typed, Backspace), times - 1)
  }

  lemma {:induction false} EraseTakesBytes(typed: seq<byte>, times: nat)
    requires times <= |typed|
    ensures Erase(typed, times) == typed[..|typed| - times]
  {
    if times == 0 {
    } else {
      EraseTakesBytes(typed[..|typed| - 1], times - 1);
    }
  }

  lemma EraseUndoesChar(typed: seq<byte>, cp: nat)
    requires 0 < cp < 0x1_0000_0000 && |typed| + CharSize(cp) < BUFFER_SIZE
    ensures Erase(Press(typed, Char(cp)), CharSize(cp)) == typed
    ensures CharSize(cp) > 1 ==> Erase(Press(typed, Char(cp)), 1) != typed
  {
    var after := typed + Encode(cp);
    EraseTakesBytes(after, CharSize(cp));
    EraseTakesBytes(after, 1);
    assert after[..|typed|] == typed;
  }

  /** input_buffer and cursor. */
  class Field {
    const buffer: array<byte>
    var cursor: nat

    ghost predicate Valid()
      reads this, buffer
    {
      && buffer.Length == BUFFER_SIZE && cursor < BUFFER_SIZE
      && (forall i :: 0 <= i < cursor ==> buffer[i] != 0)
      && (forall i :: cursor <= i < BUFFER_SIZE ==> buffer[i] == 0)
    }

    ghost function Contents(): (s: seq<byte>)
      reads this, buffer
      requires Valid()
      ensures IsPassword(s) && |s| == cursor
    {
      buffer[..cursor]
    }

    constructor ()
      ensures Valid() && fresh(buffer) && Contents() == []
    {
      buffer := new byte[BUFFER_SIZE](_ => 0);
      cursor := 0;
    }

    method ClearBuffer()
      requires Valid()
      modifies this, buffer
      ensures Valid() && Contents() == Press(old(Contents()), Clear)
    {
      cursor := 0;
      for i := 0 to BUFFER_SIZE
        modifies buffer
        invariant forall j :: 0 <= j < i ==> buffer[j] == 0
      {
        buffer[i] := 0;
      }
    }

    /** utf8_encode: the continuation bytes from the last one back, then the
        lead byte with whatever is left of the codepoint. */
    method EncodeAt(at: nat, length: nat, codepoint: nat)
      requires buffer.Length == BUFFER_SIZE && codepoint < 0x1_0000_0000
      requires length == CharSize(codepoint) && at + length <= BUFFER_SIZE
      modifies buffer
      ensures buffer[at..at + length] == Encode(codepoint)
      ensures buffer[..at] == old(buffer[..at])
      ensures forall j :: at + length <= j < BUFFER_SIZE ==> buffer[j] == old(buffer[j])
    {
      var cp := codepoint;
      var i := length - 1;
      while i > 0
        invariant 0 <= i < length
        invariant cp == Shifted(codepoint, length - 1 - i)
        invariant forall j :: i < j < length ==> buffer[at + j] == Encode(codepoint)[j]
        invariant buffer[..at] == old(buffer[..at])
        invariant forall j :: at + length <= j < BUFFER_SIZE ==> buffer[j] == old(buffer[j])
      {
        ShiftedDigit(codepoint, i);
        buffer[at + i] := 0x80 + cp % 64;
        cp := cp / 64;
        i := i - 1;
      }
      LeadLeft(codepoint);
      buffer[at] := if length == 1 then cp
                    else if length == 2 then 0xC0 + cp
                    else if length == 3 then 0xE0 + cp
                    else LeadOfFour(cp);
    }

    method PutChar(codepoint: nat)
      requires Valid() && codepoint < 0x1_0000_0000
      modifies this, buffer
      ensures Valid() && Contents() == Press(old(Contents()), Char(codepoint))
      ensures Contents() == if codepoint != 0 && |old(Contents())| + |Encode(codepoint)| < BUFFER_SIZE
                            then old(Contents()) + Encode(codepoint) else old(Contents())
    {
      // key_handler drops a keysym that names no codepoint.
      if codepoint == 0 {
        return;
      }
      var length := CharSize(codepoint);
      if cursor + length < BUFFER_SIZE {
        EncodeHasNoZero(codepoint);
        EncodeAt(cursor, length, codepoint);
        ghost var was := cursor;
        cursor := cursor + length;
        assert buffer[..cursor] == buffer[..was] + buffer[was..cursor];
      }
    }

    method DeleteChar()
      requires Valid()
      modifies this, buffer
      ensures Valid() && Contents() == Press(old(Contents()), Backspace)
      ensures Contents() == if old(Contents()) == [] then [] else old(Contents())[..|old(Contents())| - 1]
    {
      if cursor == 0 {
        return;
      }
      cursor := cursor - 1;
      buffer[cursor] := 0;
    }

    /** strnlen(input_buffer, BUFFER_SIZE - 1): the scan for the terminator
        stops at the cursor and never at its bound. */
    method Length() returns (n: nat)
      requires Valid()
      ensures n == cursor == |Contents()|
    {
      n := 0;
      while n < BUFFER_SIZE - 1 && buffer[n] != 0
        invariant n <= cursor
      {
        n := n + 1;
      }
    }
  }

  /** `cp >> 6 * k`. */
  ghost function Shifted(cp: nat, k: nat): nat {
    if k == 0 then cp else Shifted(cp, k - 1) / 64
  }

  lemma ShiftedDigit(cp: nat, i: nat)
    requires cp < 0x1_0000_0000 && 0 < i < CharSize(cp)
    ensures Encode(cp)[i] == 0x80 + Shifted(cp, CharSize(cp) - 1 - i) % 64
  {
    assert cp / 4096 == cp / 64 / 64;
    assert Shifted(cp, 1) == cp / 64;
    assert Shifted(cp, 2) == Shifted(cp, 1) / 64;
  }

  lemma LeadLeft(cp: nat)
    requires cp < 0x1_0000_0000
    ensures var n, left := CharSize(cp), Shifted(cp, CharSize(cp) - 1);
            && (n == 1 ==> left == cp < 0x80 && Encode(cp)[0] == left)
            && (n == 2 ==> left < 32 && Encode(cp)[0] == 0xC0 + left)
            && (n == 3 ==> left < 16 && Encode(cp)[0] == 0xE0 + left)
            && (n == 4 ==> Encode(cp)[0] == LeadOfFour(left))
  {
    assert cp / 4096 == cp / 64 / 64;
    assert cp / 262144 == cp / 64 / 64 / 64;
    assert Shifted(cp, 1) == Shifted(cp, 0) / 64;
    assert Shifted(cp, 2) == Shifted(cp, 1) / 64;
    assert Shifted(cp, 3) == Shifted(cp, 2) / 64;
  }
}
