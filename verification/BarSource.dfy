/**
  The bar's end of the helper's pipe, src/bar.c: bytes reassembled into lines
  in a bounded buffer, the last complete line parsed into blocks that keep
  their place in the scroll, and the timer that moves them.
 */
module BarSource {
  import opened Options
  import opened Utf8
  import opened BarText
  import opened BarLine
  import Diagnostics

  const MAX_LINE: nat := 65536
  const FIRST_CAPACITY: nat := 8192
  const CHUNK: nat := 4096
  const NEWLINE: byte := 10

  // ---------------------------------------------------------------- blocks

  datatype Block = Block(text: seq<byte>, offset: int)

  /** A block keeps its place as long as its slot holds the same text. */
  function Carry(previous: seq<Block>, texts: seq<seq<byte>>): (blocks: seq<Block>)
    ensures |blocks| == |texts|
    ensures forall i :: 0 <= i < |texts| ==>
              var kept := i < |previous| && previous[i].text == texts[i];
              blocks[i] == Block(texts[i], if kept then previous[i].offset else 0)
  {
    seq(|texts|, i requires 0 <= i < |texts| =>
      Block(texts[i], if i < |previous| && previous[i].text == texts[i] then previous[i].offset else 0))
  }

  /** The blocks after a line; a malformed one changes nothing. */
  function Parsed(blocks: seq<Block>, line: seq<byte>): seq<Block> {
    var texts := LineTexts(line);
    if texts.Some? then Carry(blocks, texts.value) else blocks
  }

  predicate SameTexts(blocks: seq<Block>, texts: seq<seq<byte>>) {
    |texts| == |blocks| && forall i :: 0 <= i < |blocks| ==> texts[i] == blocks[i].text
  }

  /** A slot whose text a line leaves as it was keeps its place in the scroll, a
      changed or new one starts from the beginning; so a line that says nothing
      new changes nothing at all, and neither does the same line twice. */
  lemma SameTextKeepsPlace(blocks: seq<Block>, line: seq<byte>)
    requires LineTexts(line).Some?
    ensures var texts, after := LineTexts(line).value, Parsed(blocks, line);
            && |after| == |texts|
            && (forall i :: 0 <= i < |texts| ==> after[i].text == texts[i])
            && (forall i :: 0 <= i < |texts| && i < |blocks| && blocks[i].text == texts[i] ==> after[i] == blocks[i])
            && (forall i :: 0 <= i < |texts| && (i >= |blocks| || blocks[i].text != texts[i]) ==> after[i].offset == 0)
    ensures SameTexts(blocks, LineTexts(line).value) ==> Parsed(blocks, line) == blocks
    ensures Parsed(Parsed(blocks, line), line) == Parsed(blocks, line)
  {
    hide LineTexts;
    var texts := LineTexts(line).value;
    var after := Carry(blocks, texts);
    assert Carry(after, texts) == after;
    if SameTexts(blocks, texts) {
      assert after == blocks;
    }
  }

  // ----------------------------------------------------------------- lines

  /** Complete lines, and the bytes of the one still coming. */
  datatype Framed = Framed(lines: seq<seq<byte>>, partial: seq<byte>)

  function Take(f: Framed, c: byte): Framed {
    if c == NEWLINE then Framed(f.lines + [f.partial], []) else Framed(f.lines, f.partial + [c])
  }

  function Frame(f: Framed, t: seq<byte>): Framed {
    if t == [] then f else Take(Frame(f, t[..|t| - 1]), t[|t| - 1])
  }

  function FrameOf(t: seq<byte>): Framed { Frame(Framed([], []), t) }

  lemma {:induction false} FrameAppend(f: Framed, a: seq<byte>, b: seq<byte>)
    ensures Frame(f, a + b) == Frame(Frame(f, a), b)
    decreases |b|
  {
    if b == [] {
      assert a + b == a;
    } else {
      assert (a + b)[..|a + b| - 1] == a + b[..|b| - 1];
      FrameAppend(f, a, b[..|b| - 1]);
    }
  }

  /** Lines already complete have no say in what follows. */
  lemma {:induction false} FrameFrom(f: Framed, t: seq<byte>)
    ensures var g := Frame(Framed([], f.partial), t); Frame(f, t) == Framed(f.lines + g.lines, g.partial)
  {
    if t != [] {
      FrameFrom(f, t[..|t| - 1]);
    } else {
      assert f.lines + [] == f.lines;
    }
  }

  lemma {:induction false} FramePlain(p: seq<byte>, t: seq<byte>)
    ensures NEWLINE !in t ==> Frame(Framed([], p), t) == Framed([], p + t)
    ensures NEWLINE in t ==> Frame(Framed([], p), t).lines != []
  {
    if t != [] {
      var front := t[..|t| - 1];
      assert t == front + [t[|t| - 1]];
      FramePlain(p, front);
      assert p + t == p + front + [t[|t| - 1]];
    } else {
      assert p + t == p;
    }
  }

  lemma {:induction false} PartialIsPlain(f: Framed, t: seq<byte>)
    requires NEWLINE !in f.partial
    ensures NEWLINE !in Frame(f, t).partial
  {
    if t == [] {
    } else {
      PartialIsPlain(f, t[..|t| - 1]);
    }
  }

  /** Reading on from the partial line is reading on from everything. */
  lemma Resume(got: seq<byte>, more: seq<byte>)
    ensures var f := FrameOf(got);
            var g := FrameOf(f.partial + more);
            FrameOf(got + more) == Framed(f.lines + g.lines, g.partial)
  {
    var f := FrameOf(got);
    PartialIsPlain(Framed([], []), got);
    FramePlain([], f.partial);
    assert [] + f.partial == f.partial;
    FrameAppend(Framed([], []), got, more);
    FrameAppend(Framed([], []), f.partial, more);
    FrameFrom(f, more);
  }

  /** A C string in a buffer ends at its first zero. */
  function UpToZero(t: seq<byte>): (s: seq<byte>)
    ensures IsString(s) && s <= t
  {
    var z := IndexOf(t, 0);
    if z.Some? then t[..z.value] else t
  }

  // ------------------------------------------------------- the stream's life

  datatype Finale = Again | Eof | Fail

  /** One call of the event loop: a hangup with whatever the pipe still holds, or
      the reads it makes and how the last one ends. */
  datatype Wake = Hangup(unread: seq<seq<byte>>) | Reads(chunks: seq<seq<byte>>, finale: Finale)

  /** `lines` is every line handed to the parser so far. */
  datatype Stream = Stream(open: bool, held: seq<byte>, lines: seq<seq<byte>>)

  datatype Filled = Filled(held: seq<byte>, overflow: bool)

  /** Chunks accumulate until one more would not fit with its terminator; then
      everything held is thrown away and the reading stops. */
  function Fill(held: seq<byte>, chunks: seq<seq<byte>>): Filled
    decreases |chunks|
  {
    if chunks == [] then Filled(held, false)
    else if |held| + |chunks[0]| + 1 > MAX_LINE then Filled([], true)
    else Fill(held + chunks[0], chunks[1..])
  }

  /** Of the complete lines only the last is parsed; the others are stale. */
  function Digest(s: Stream): Stream {
    var f := FrameOf(s.held);
    if f.lines == [] then s
    else s.(held := f.partial, lines := s.lines + [UpToZero(f.lines[|f.lines| - 1])])
  }

  lemma DigestNothing(s: Stream)
    ensures s.held == [] ==> Digest(s) == s
  {
  }

  function Receive(s: Stream, w: Wake): Stream {
    match w
    case Hangup(_) => s.(open := false)
    case Reads(chunks, finale) =>
      var f := Fill(s.held, chunks);
      var t := s.(held := f.held);
      if f.overflow || finale == Again then Digest(t)
      else if finale == Eof then t.(open := false)
      else t
  }

  function Run(s: Stream, ws: seq<Wake>): Stream {
    if ws == [] then s else Receive(Run(s, ws[..|ws| - 1]), ws[|ws| - 1])
  }

  /** Everything these wake-ups find to read. */
  function Sent(ws: seq<Wake>): seq<byte> {
    if ws == [] then []
    else Sent(ws[..|ws| - 1]) + (if ws[|ws| - 1].Reads? then Concat(ws[|ws| - 1].chunks) else [])
  }

  /** The helper stays alive and no wake-up runs into the bound. */
  predicate Flows(s: Stream, ws: seq<Wake>) {
    ws == [] ||
    var w := ws[|ws| - 1];
    && Flows(s, ws[..|ws| - 1])
    && w.Reads? && w.finale == Again && !Fill(Run(s, ws[..|ws| - 1]).held, w.chunks).overflow
  }

  lemma FillNext(held: seq<byte>, chunks: seq<seq<byte>>, i: nat)
    requires i < |chunks|
    ensures Fill(held, chunks[i..]) ==
            if |held| + |chunks[i]| + 1 > MAX_LINE then Filled([], true) else Fill(held + chunks[i], chunks[i + 1..])
  {
    assert chunks[i..][0] == chunks[i] && chunks[i..][1..] == chunks[i + 1..];
  }

  lemma FillEnds(held: seq<byte>, chunks: seq<seq<byte>>)
    ensures Fill(held, chunks[|chunks|..]) == Filled(held, false)
  {
  }

  lemma {:induction false} FillIsConcat(held: seq<byte>, chunks: seq<seq<byte>>)
    requires !Fill(held, chunks).overflow
    ensures Fill(held, chunks).held == held + Concat(chunks)
    decreases |chunks|
  {
    if chunks == [] {
    } else {
      FillIsConcat(held + chunks[0], chunks[1..]);
    }
  }

  lemma WholeLines(t: seq<byte>)
    ensures FrameOf(t).lines == [] ==> FrameOf(t).partial == t
  {
    FramePlain([], t);
    assert [] + t == t;
  }

  lemma OneWake(s: Stream, w: Wake, got: seq<byte>)
    requires w.Reads? && w.finale == Again && !Fill(s.held, w.chunks).overflow && s.held == FrameOf(got).partial
    ensures var before, after := FrameOf(got), FrameOf(got + Concat(w.chunks));
            && Receive(s, w).held == after.partial
            && if after.lines == before.lines then Receive(s, w).lines == s.lines
               else after.lines != [] && Receive(s, w).lines == s.lines + [UpToZero(after.lines[|after.lines| - 1])]
  {
    hide FrameOf, UpToZero, Fill;
    FillIsConcat(s.held, w.chunks);
    Resume(got, Concat(w.chunks));
    WholeLines(s.held + Concat(w.chunks));
  }

  /** What is held back is exactly what follows the last newline received, and
      the line parsed last is exactly the last complete one. */
  predicate Reassembled(s: Stream, t: Stream, sent: seq<byte>) {
    var f := FrameOf(s.held + sent);
    && t.held == f.partial
    && if f.lines == [] then t.lines == s.lines
       else t.lines != [] && t.lines[|t.lines| - 1] == UpToZero(f.lines[|f.lines| - 1])
  }

  lemma ReassembledOn(s: Stream, t: Stream, sent: seq<byte>, w: Wake)
    requires w.Reads? && w.finale == Again && !Fill(t.held, w.chunks).overflow && Reassembled(s, t, sent)
    ensures Reassembled(s, Receive(t, w), sent + Concat(w.chunks))
  {
    hide FrameOf, UpToZero, Fill, Receive;
    assert s.held + (sent + Concat(w.chunks)) == (s.held + sent) + Concat(w.chunks);
    OneWake(t, w, s.held + sent);
  }

  /** However the bytes are split into reads and wake-ups, they are reassembled. */
  lemma {:induction false} Reassembly(s: Stream, ws: seq<Wake>)
    requires NEWLINE !in s.held && Flows(s, ws)
    ensures Reassembled(s, Run(s, ws), Sent(ws))
  {
    if ws == [] {
      WholeLines(s.held);
      FramePlain([], s.held);
      assert s.held + Sent(ws) == s.held;
    } else {
      hide Reassembled, Fill, Receive;
      var w := ws[|ws| - 1];
      Reassembly(s, ws[..|ws| - 1]);
      ReassembledOn(s, Run(s, ws[..|ws| - 1]), Sent(ws[..|ws| - 1]), w);
    }
  }

  /** What the helper sends: each line of blocks and a newline. */
  function Printed(lines: seq<seq<Entry>>): seq<byte> {
    if lines == [] then [] else Printed(lines[..|lines| - 1]) + (PrintLine(lines[|lines| - 1]) + [NEWLINE])
  }

  /** Fields other than the texts that neither end a line nor unbalance one. */
  predicate Printable(es: seq<Entry>) {
    forall i :: 0 <= i < |es| ==> OneLine(es[i].extra) && Plain(es[i])
  }

  lemma EndOfLine(f: Framed, line: seq<byte>)
    requires f.partial == [] && NEWLINE !in line
    ensures Frame(f, line + [NEWLINE]) == Framed(f.lines + [line], [])
  {
    FrameAppend(f, line, [NEWLINE]);
    FrameFrom(f, line);
    FramePlain([], line);
    assert [NEWLINE][..0] == [] && [] + line == line && f.lines + [] == f.lines;
  }

  /** The lines the helper printed are the lines that come out of its bytes, one
      for one, whatever the texts hold. */
  lemma {:induction false} PrintedIsFramed(lines: seq<seq<Entry>>)
    requires forall n :: 0 <= n < |lines| ==> Printable(lines[n])
    ensures var f := FrameOf(Printed(lines));
            && f.partial == [] && |f.lines| == |lines|
            && forall n :: 0 <= n < |lines| ==> f.lines[n] == PrintLine(lines[n])
    decreases |lines|
  {
    hide PrintLine, Printable;
    if lines == [] {
    } else {
      var front, last := lines[..|lines| - 1], lines[|lines| - 1];
      PrintedIsFramed(front);
      hide Frame;
      FrameAppend(Framed([], []), Printed(front), PrintLine(last) + [NEWLINE]);
      assert Printable(last);
      NoLineEnd(last);
      EndOfLine(FrameOf(Printed(front)), PrintLine(last));
    }
  }

  lemma NoLineEnd(es: seq<Entry>)
    requires Printable(es)
    ensures NEWLINE !in PrintLine(es) && UpToZero(PrintLine(es)) == PrintLine(es)
  {
    PrintedIsOneLine(es);
    hide PrintLine;
  }

  lemma LastLineIsParsed(s: Stream, ws: seq<Wake>, lines: seq<seq<Entry>>)
    requires s.held == [] && Flows(s, ws) && Sent(ws) == Printed(lines) && lines != []
    requires forall n :: 0 <= n < |lines| ==> Printable(lines[n])
    ensures var t := Run(s, ws);
            t.held == [] && t.lines != [] && t.lines[|t.lines| - 1] == PrintLine(lines[|lines| - 1])
  {
    Reassembly(s, ws);
    hide PrintLine, LineTexts, Flows, Run, Sent, FrameOf, Printed, UpToZero;
    assert s.held + Sent(ws) == Printed(lines);
    PrintedIsFramed(lines);
    NoLineEnd(lines[|lines| - 1]);
  }

  /** From the helper's texts to the bar's blocks: however the bytes it printed
      are split into reads and wake-ups, nothing is left over, and the line parsed
      last gives the texts of the last line it printed, the first 32 of them; each
      as it was unless it has a control byte. */
  lemma LastLineIsShown(s: Stream, ws: seq<Wake>, lines: seq<seq<Entry>>, blocks: seq<Block>)
    requires s.held == [] && Flows(s, ws) && Sent(ws) == Printed(lines) && lines != []
    requires forall n :: 0 <= n < |lines| ==> Printable(lines[n])
    ensures var t, es := Run(s, ws), lines[|lines| - 1];
            && t.held == [] && t.lines != []
            && var shown := Parsed(blocks, t.lines[|t.lines| - 1]);
            && |shown| == (if |es| < 32 then |es| else 32)
            && forall i :: 0 <= i < |shown| ==> (shown[i].text == es[i].text <==> OneLine(es[i].text))
  {
    LastLineIsParsed(s, ws, lines);
    hide PrintLine, Flows, Run, Sent, Printed, Parsed;
    assert Printable(lines[|lines| - 1]);
    LineIsShown(lines[|lines| - 1], blocks);
  }

  lemma LineIsShown(es: seq<Entry>, blocks: seq<Block>)
    requires Printable(es)
    ensures var shown := Parsed(blocks, PrintLine(es));
            && |shown| == (if |es| < 32 then |es| else 32)
            && forall i :: 0 <= i < |shown| ==> (shown[i].text == es[i].text <==> OneLine(es[i].text))
  {
    LineRoundTrip(es);
    hide PrintLine, LineTexts;
    var shown := Parsed(blocks, PrintLine(es));
    forall i | 0 <= i < |shown|
      ensures shown[i].text == es[i].text <==> OneLine(es[i].text)
    {
      assert TextsOf(es, MAX_BLOCKS)[i] == es[i].text <==>
             forall k :: 0 <= k < |es[i].text| ==> es[i].text[k] >= 0x20;
    }
  }

  /** Two ways of splitting the same bytes end in the same place. */
  lemma SplitDoesNotMatter(s: Stream, a: seq<Wake>, b: seq<Wake>)
    requires NEWLINE !in s.held && Flows(s, a) && Flows(s, b) && Sent(a) == Sent(b)
    ensures Run(s, a).held == Run(s, b).held
    ensures NEWLINE in Sent(a) ==>
              && Run(s, a).lines != [] && Run(s, b).lines != []
              && Run(s, a).lines[|Run(s, a).lines| - 1] == Run(s, b).lines[|Run(s, b).lines| - 1]
  {
    Reassembly(s, a);
    Reassembly(s, b);
    hide UpToZero;
    FramePlain([], s.held + Sent(a));
    assert NEWLINE in Sent(a) ==> NEWLINE in s.held + Sent(a);
  }

  /** When the helper ends in the same wake-up as its last bytes, by an end of
      file behind them or by a hangup before them, what is held and what it sent
      is treated as otherwise exactly if there is no complete line in it. A failed
      read may have left complete lines in what is held. */
  lemma EofLosesLinesIff(s: Stream, chunks: seq<seq<byte>>)
    requires !Fill(s.held, chunks).overflow
    ensures Receive(s, Reads(chunks, Eof)).lines == Receive(s, Reads(chunks, Again)).lines <==>
            NEWLINE !in s.held + Concat(chunks)
    ensures Receive(s, Hangup(chunks)).lines == Receive(s, Reads(chunks, Again)).lines <==>
            NEWLINE !in s.held + Concat(chunks)
  {
    FillIsConcat(s.held, chunks);
    FramePlain([], s.held + Concat(chunks));
    hide UpToZero, Fill;
  }

  // ------------------------------------------- whole lines, over any wake-ups

  /** A stream and every byte read before the ones it holds, parsed or thrown
      away. */
  datatype Traced = Traced(stream: Stream, gone: seq<byte>)

  /** How many chunks a wake-up reads: all, or up to the one that does not fit. */
  function Used(held: seq<byte>, chunks: seq<seq<byte>>): (n: nat)
    ensures n <= |chunks| && (Fill(held, chunks).overflow ==> n > 0)
    decreases |chunks|
  {
    if chunks == [] then 0
    else if |held| + |chunks[0]| + 1 > MAX_LINE then 1
    else 1 + Used(held + chunks[0], chunks[1..])
  }

  function Follow(t: Traced, w: Wake): Traced {
    var s := Receive(t.stream, w);
    match w
    case Hangup(_) => Traced(s, t.gone)
    case Reads(chunks, finale) =>
      var f := Fill(t.stream.held, chunks);
      if f.overflow then Traced(s, t.gone + (t.stream.held + Concat(chunks[..Used(t.stream.held, chunks)])))
      else if finale == Again then Traced(s, t.gone + Complete(f.held))
      else Traced(s, t.gone)
  }

  function FollowAll(ws: seq<Wake>): Traced {
    if ws == [] then Traced(Stream(true, [], []), []) else Follow(FollowAll(ws[..|ws| - 1]), ws[|ws| - 1])
  }

  /** The complete lines of `t`, newlines included. */
  function Complete(t: seq<byte>): seq<byte> {
    TailIsPartial(t);
    t[..|t| - |FrameOf(t).partial|]
  }

  lemma {:induction false} TailIsPartial(t: seq<byte>)
    ensures var f := FrameOf(t); var k := |t| - |f.partial|;
            && 0 <= k && t[k..] == f.partial
            && (f.lines == [] <==> k == 0) && (k > 0 ==> t[k - 1] == NEWLINE)
  {
    if t == [] {
    } else {
      var front := t[..|t| - 1];
      TailIsPartial(front);
      assert t == front + [t[|t| - 1]];
    }
  }

  /** Reads return something. */
  predicate Substantial(ws: seq<Wake>) {
    forall i :: 0 <= i < |ws| && ws[i].Reads? ==> forall j :: 0 <= j < |ws[i].chunks| ==> ws[i].chunks[j] != []
  }

  /** What is held begins where a line of the helper's begins: no bytes were
      thrown away, or they ended in a newline, or a line has been parsed since. */
  predicate AtLineStart(ws: seq<Wake>) {
    ws == [] ||
    var front, w := ws[..|ws| - 1], ws[|ws| - 1];
    var held := FollowAll(front).stream.held;
    if w.Hangup? then AtLineStart(front)
    else if Fill(held, w.chunks).overflow then Ends(w.chunks[Used(held, w.chunks) - 1])
    else (w.finale == Again && FrameOf(Fill(held, w.chunks).held).lines != []) || AtLineStart(front)
  }

  predicate Ends(t: seq<byte>) { t == [] || t[|t| - 1] == NEWLINE }

  lemma EndsIff(t: seq<byte>)
    ensures Ends(t) <==> FrameOf(t).partial == []
  {
  }

  lemma {:induction false} ConcatEnds(cs: seq<seq<byte>>)
    requires cs != [] && cs[|cs| - 1] != []
    ensures var last := cs[|cs| - 1]; Concat(cs) != [] && Concat(cs)[|Concat(cs)| - 1] == last[|last| - 1]
  {
    if |cs| == 1 {
      assert Concat(cs[1..]) == [];
    } else {
      ConcatEnds(cs[1..]);
    }
  }

  lemma {:induction false} AtLineStartIff(ws: seq<Wake>)
    requires Substantial(ws)
    ensures AtLineStart(ws) <==> Ends(FollowAll(ws).gone)
  {
    if ws == [] {
    } else {
      var front, w := ws[..|ws| - 1], ws[|ws| - 1];
      hide FrameOf, Receive, Fill, Used, Concat, Complete, Ends;
      AtLineStartIff(front);
      var t := FollowAll(front);
      if w.Reads? {
        var f := Fill(t.stream.held, w.chunks);
        if f.overflow {
          OverflowEnds(t.gone, t.stream.held, w.chunks);
        } else if w.finale == Again {
          CompleteEnds(t.gone, f.held);
        }
      }
    }
  }

  lemma OverflowEnds(gone: seq<byte>, held: seq<byte>, chunks: seq<seq<byte>>)
    requires Fill(held, chunks).overflow && forall j :: 0 <= j < |chunks| ==> chunks[j] != []
    ensures var n := Used(held, chunks); Ends(gone + (held + Concat(chunks[..n]))) <==> Ends(chunks[n - 1])
  {
    hide Fill, Used, Concat;
    var n := Used(held, chunks);
    assert chunks[..n][n - 1] == chunks[n - 1];
    ConcatEnds(chunks[..n]);
  }

  lemma CompleteEnds(gone: seq<byte>, t: seq<byte>)
    ensures Ends(gone + Complete(t)) <==> FrameOf(t).lines != [] || Ends(gone)
  {
    hide FrameOf;
    TailIsPartial(t);
    if FrameOf(t).lines == [] {
      assert gone + Complete(t) == gone;
    }
  }

  /** The last line of what is held, against the last line of everything read. */
  lemma LastIsWholeIff(gone: seq<byte>, held: seq<byte>)
    requires FrameOf(held).lines != []
    ensures var all, here := FrameOf(gone + held).lines, FrameOf(held).lines;
            all != [] && (all[|all| - 1] == here[|here| - 1] <==> |here| > 1 || Ends(gone))
  {
    EndsIff(gone);
    FrameAppend(Framed([], []), gone, held);
    FrameFrom(FrameOf(gone), held);
    FirstLonger(FrameOf(gone).partial, held);
  }

  /** A partial line in front lengthens the first line and nothing else. */
  lemma {:induction false} FirstLonger(p: seq<byte>, t: seq<byte>)
    ensures var f, g := Frame(Framed([], p), t), FrameOf(t);
            && |f.lines| == |g.lines|
            && (f.lines == [] ==> f.partial == p + g.partial)
            && (f.lines != [] ==> f.partial == g.partial && f.lines[0] == p + g.lines[0])
            && (f.lines != [] ==> f.lines[1..] == g.lines[1..])
  {
    if t == [] {
      assert p + [] == p;
    } else {
      var front, c := t[..|t| - 1], t[|t| - 1];
      FirstLonger(p, front);
      var f, g := Frame(Framed([], p), front), FrameOf(front);
      if f.lines == [] {
        assert p + g.partial + [c] == p + (g.partial + [c]);
      } else {
        assert (f.lines + [f.partial])[1..] == f.lines[1..] + [f.partial];
        assert (g.lines + [g.partial])[1..] == g.lines[1..] + [g.partial];
      }
    }
  }

  /** Over any wake-ups at all: the line a wake-up hands to the parser is a whole
      line the helper sent exactly if another complete line came before it in
      the buffer, or the buffer began where a line begins. After the bound has
      been hit the rest of the over-long line is taken for a line of its own. */
  lemma ParsedIsWholeIff(ws: seq<Wake>, w: Wake)
    requires Substantial(ws) && w.Reads? && w.finale == Again
    requires var f := Fill(FollowAll(ws).stream.held, w.chunks); !f.overflow && FrameOf(f.held).lines != []
    ensures var t := FollowAll(ws);
            var held := Fill(t.stream.held, w.chunks).held;
            var all, here := FrameOf(t.gone + held).lines, FrameOf(held).lines;
            && Follow(t, w).stream.lines == t.stream.lines + [UpToZero(here[|here| - 1])]
            && all != [] && (all[|all| - 1] == here[|here| - 1] <==> |here| > 1 || AtLineStart(ws))
  {
    var t := FollowAll(ws);
    AtLineStartIff(ws);
    LastIsWholeIff(t.gone, Fill(t.stream.held, w.chunks).held);
    hide FrameOf, Fill, UpToZero;
  }

  // ----------------------------------------------------------- the source

  predicate AnyOverlong(blocks: seq<Block>, separator: Option<seq<byte>>, cap: int) {
    exists i :: 0 <= i < |blocks| && Period(Some(blocks[i].text), separator, cap) > 0
  }

  function Scrolled(blocks: seq<Block>, separator: Option<seq<byte>>, cap: int): (after: seq<Block>)
    ensures |after| == |blocks|
    ensures forall i :: 0 <= i < |blocks| ==>
              after[i] == Block(blocks[i].text, NextOffset(blocks[i].text, separator, cap, blocks[i].offset))
  {
    seq(|blocks|, i requires 0 <= i < |blocks| =>
      Block(blocks[i].text, NextOffset(blocks[i].text, separator, cap, blocks[i].offset)))
  }

  predicate AllStrings(blocks: seq<Block>) {
    forall i :: 0 <= i < |blocks| ==> IsString(blocks[i].text)
  }

  predicate IsCapacity(cap: nat) { cap == 0 || cap == 8192 || cap == 16384 || cap == 32768 || cap == 65536 }

  /** Texts read from a string are strings. */
  lemma {:induction false} UnescapedIsString(t: seq<byte>)
    requires IsString(t)
    ensures IsString(Unescaped(t))
    decreases |t|
  {
    if t == [] || t[0] == QUOTE {
    } else {
      UnescapedIsString(if t[0] == BACKSLASH && |t| > 1 then t[2..] else t[1..]);
    }
  }

  /** One object further along the line. */
  lemma TextsUnfold(t: seq<byte>, room: nat)
    requires room > 0
    ensures var obj := IndexOf(t, OPEN);
            if obj.None? then Texts(t, room) == []
            else
              var end := Later(ObjectEnd(t[obj.value + 1..], false), 1);
              if end.None? then Texts(t, room) == []
              else
                var text := StringField(t[obj.value..], end.value, KEY);
                var rest := t[obj.value..][end.value + 1..];
                Texts(t, room) == if text.Some? then [text.value] + Texts(rest, room - 1) else Texts(rest, room)
  {
    hide IndexOf, ObjectEnd, StringField;
  }

  /** Of `all` the texts to be read, those already read and those `t` still holds. */
  ghost predicate Reading(all: seq<seq<byte>>, texts: seq<seq<byte>>, t: seq<byte>) {
    |texts| <= MAX_BLOCKS && all == texts + Texts(t, MAX_BLOCKS - |texts|)
  }

  lemma ReadOn(all: seq<seq<byte>>, texts: seq<seq<byte>>, t: seq<byte>)
    requires Reading(all, texts, t) && |texts| < MAX_BLOCKS
    ensures var obj := IndexOf(t, OPEN);
            if obj.None? then all == texts
            else
              var end := Later(ObjectEnd(t[obj.value + 1..], false), 1);
              if end.None? then all == texts
              else
                var text := StringField(t[obj.value..], end.value, KEY);
                var rest := t[obj.value..][end.value + 1..];
                Reading(all, if text.Some? then texts + [text.value] else texts, rest)
  {
    hide Texts, IndexOf, ObjectEnd, StringField;
    TextsUnfold(t, MAX_BLOCKS - |texts|);
    var obj := IndexOf(t, OPEN);
    if obj.Some? {
      var end := Later(ObjectEnd(t[obj.value + 1..], false), 1);
      if end.Some? {
        var text, rest := StringField(t[obj.value..], end.value, KEY), t[obj.value..][end.value + 1..];
        if text.Some? {
          AppendOne(texts, text.value, Texts(rest, MAX_BLOCKS - |texts| - 1));
        }
      }
    }
  }

  lemma AppendOne<T>(a: seq<T>, x: T, b: seq<T>)
    ensures a + ([x] + b) == a + [x] + b && |a + [x]| == |a| + 1
  {
  }

  lemma CarryOne(previous: seq<Block>, texts: seq<seq<byte>>, text: seq<byte>)
    ensures var n := |texts|;
            var offset := if n < |previous| && previous[n].text == text then previous[n].offset else 0;
            Carry(previous, texts + [text]) == Carry(previous, texts) + [Block(text, offset)]
  {
  }

  class Source {
    var open: bool
    var buf: array?<byte>
    var len: nat
    var cap: nat
    var blocks: seq<Block>
    ghost var lines: seq<seq<byte>>

    // The configuration's cap and separator, and the one-shot scroll timer.
    var maxChars: int
    var separator: Option<seq<byte>>
    var timer: bool
    var armed: bool
    ghost var pending: bool

    /** The buffer holds less than it could, and never more than the bound; the
        armed flag says whether the event loop has a timer pending. */
    ghost predicate Valid()
      reads this
    {
      && IsCapacity(cap) && (buf == null <==> cap == 0)
      && (if buf == null then len == 0 else buf.Length == cap && len < cap)
      && |blocks| <= MAX_BLOCKS && AllStrings(blocks) && IsString(TextOf(separator))
      && (armed ==> timer) && (armed <==> pending)
    }

    ghost function Held(): seq<byte>
      reads this, buf
      requires Valid()
    {
      if buf == null then [] else buf[..len]
    }

    ghost function AsStream(): Stream
      reads this, buf
      requires Valid()
    {
      Stream(open, Held(), lines)
    }

    // -------------------------------------------------------- the blocks

    /** parse_line: the previous blocks are set aside and compared slot by slot. */
    method ParseLine(line: seq<byte>)
      requires Valid() && IsString(line)
      modifies this`blocks
      ensures Valid() && blocks == Parsed(old(blocks), line)
    {
      hide Texts, IndexOf, ObjectEnd, StringField, Carry, Reading, AllStrings;
      var start := IndexOf(line, LINE_OPEN);
      if start.None? {
        return;
      }
      var previous, p := blocks, line[start.value..];
      blocks := [];
      ghost var all := Texts(p, MAX_BLOCKS);
      ghost var texts: seq<seq<byte>> := [];
      ReadNothing(previous, p);
      while |blocks| < MAX_BLOCKS
        invariant IsString(p) && |blocks| == |texts| <= MAX_BLOCKS && AllStrings(blocks)
        invariant Reading(all, texts, p) && blocks == Carry(previous, texts)
        decreases |p|
      {
        ReadOn(all, texts, p);
        var found := IndexOf(p, OPEN);
        if found.None? {
          break;
        }
        var obj := p[found.value..];
        var end := FindObjectEnd(obj);
        assert obj[1..] == p[found.value + 1..];
        if end.None? {
          break;
        }
        var text := JsonStringField(obj, end.value, KEY);
        if text.Some? {
          FieldIsString(obj, end.value);
          var n := |blocks|;
          var offset := if n < |previous| && previous[n].text == text.value then previous[n].offset else 0;
          OneMoreString(blocks, Block(text.value, offset));
          blocks := blocks + [Block(text.value, offset)];
          CarryOne(previous, texts, text.value);
          texts := texts + [text.value];
        }
        p := obj[end.value + 1..];
      }
      if |blocks| == MAX_BLOCKS {
        ReadAllOf(all, texts, p);
      }
    }

    method UpdateScrollTimer(canCreate: bool)
      requires Valid()
      modifies this`timer, this`armed, this`pending
      ensures Valid() && (old(timer) ==> timer)
      ensures armed <==> timer && AnyOverlong(blocks, separator, maxChars)
      ensures AnyOverlong(blocks, separator, maxChars) && canCreate ==> timer
    {
      var wanted := false;
      var i := 0;
      while i < |blocks| && !wanted
        invariant i <= |blocks|
        invariant wanted ==> AnyOverlong(blocks, separator, maxChars)
        invariant !wanted ==> forall k :: 0 <= k < i ==> Period(Some(blocks[k].text), separator, maxChars) == 0
        modifies {}
      {
        var period := ScrollPeriod(Some(blocks[i].text), separator, maxChars);
        wanted := period > 0;
        i := i + 1;
      }
      if !wanted {
        if armed && timer {
          armed, pending := false, false;
        }
        return;
      }
      if !timer {
        if !canCreate {
          return;
        }
        timer := true;
      }
      if !armed {
        armed, pending := true, true;
      }
    }

    /** scroll_timer_handler: the one-shot has fired; only motion sets it again. */
    method ScrollTimer()
      requires Valid() && pending
      modifies this`blocks, this`armed, this`pending
      ensures Valid() && blocks == Scrolled(old(blocks), separator, maxChars)
      ensures armed <==> AnyOverlong(old(blocks), separator, maxChars)
    {
      hide Period, AnyOverlong, Scrolled;
      pending := false;
      ScrolledStrings(blocks, separator, maxChars);
      var moved := StepBlocks();
      if moved {
        pending := true;
      } else {
        armed := false;
      }
    }

    /** Every over-long block one character on, the others back to the start. */
    method StepBlocks() returns (moved: bool)
      requires AllStrings(blocks) && IsString(TextOf(separator))
      modifies this`blocks
      ensures blocks == Scrolled(old(blocks), separator, maxChars)
      ensures moved <==> AnyOverlong(old(blocks), separator, maxChars)
    {
      hide Period, AnyOverlong, Scrolled, NextOffset, Remainder, AllStrings;
      moved := false;
      ghost var before, after := blocks, Scrolled(blocks, separator, maxChars);
      NoneOverlong(before[..0], separator, maxChars);
      for i := 0 to |blocks|
        invariant |blocks| == |before| && forall k :: i <= k < |blocks| ==> blocks[k] == before[k]
        invariant forall k :: 0 <= k < i ==> blocks[k] == after[k]
        invariant moved <==> AnyOverlong(before[..i], separator, maxChars)
      {
        OneIsString(before, i);
        var period := ScrollPeriod(Some(blocks[i].text), separator, maxChars);
        OverlongNext(before, i, separator, maxChars);
        ScrolledAt(before, i, separator, maxChars);
        if period <= 0 {
          blocks := blocks[i := blocks[i].(offset := 0)];
        } else {
          blocks := blocks[i := blocks[i].(offset := Remainder(blocks[i].offset + 1, period))];
          moved := true;
        }
      }
      assert before[..|blocks|] == before && blocks == after;
    }

    // -------------------------------------------------------- the buffer

    /** Doubles the buffer until `n` more bytes and a terminator fit, unless that
        takes it past the bound. */
    method MakeRoom(n: nat) returns (ok: bool)
      requires Valid() && n > 0
      modifies this`buf, this`cap
      ensures Valid() && Held() == old(Held()) && (buf == old(buf) || fresh(buf))
      ensures ok <==> |Held()| + n + 1 <= MAX_LINE
      ensures ok ==> buf != null && len + n < cap
    {
      if len + n + 1 <= cap {
        return true;
      }
      var size := if cap != 0 then cap * 2 else FIRST_CAPACITY;
      while size < len + n + 1
        invariant cap < size && if size <= MAX_LINE then IsCapacity(size) else len + n + 1 > MAX_LINE
      {
        size := size * 2;
      }
      if size > MAX_LINE {
        return false;
      }
      var grown := new byte[size];
      ghost var held := Held();
      if buf != null {
        for i := 0 to len
          invariant grown[..i] == buf[..i]
          modifies grown
        {
          grown[i] := buf[i];
        }
      }
      buf, cap := grown, size;
      assert Held() == held;
      return true;
    }

    /** The reads of one wake-up; true when the bound was run into. */
    method ReadAll(chunks: seq<seq<byte>>) returns (overflow: bool)
      requires Valid() && forall i :: 0 <= i < |chunks| ==> 1 <= |chunks[i]| <= CHUNK
      modifies this`buf, this`cap, this`len, buf
      ensures Valid() && Filled(Held(), overflow) == Fill(old(Held()), chunks)
      ensures buf == old(buf) || fresh(buf)
    {
      hide Fill, AllStrings;
      overflow := false;
      var i := 0;
      ghost var before := Held();
      assert chunks[0..] == chunks;
      while i < |chunks|
        invariant i <= |chunks| && Valid() && (buf == old(buf) || fresh(buf))
        invariant Fill(before, chunks) == Fill(Held(), chunks[i..])
      {
        var n := |chunks[i]|;
        var ok := MakeRoom(n);
        FillNext(Held(), chunks, i);
        if !ok {
          len := 0;
          assert Held() == [];
          return true;
        }
        ghost var held := Held();
        Diagnostics.CopyInto(buf, len, chunks[i]);
        len := len + n;
        assert Held() == held + chunks[i];
        i := i + 1;
      }
      FillEnds(Held(), chunks);
    }

    /** Zeroes every newline; says where the last complete line and the partial
        one start. */
    method SplitLines() returns (last: Option<nat>, start: nat)
      requires Valid() && buf != null
      modifies buf
      ensures Valid() && Marked(buf[..len], FrameOf(old(Held())), last, start)
    {
      hide Marked, Frame;
      last, start := None, 0;
      ghost var h := Held();
      var i := 0;
      NothingMarked(h, buf[..0]);
      while i < len
        invariant i <= len && Valid()
        invariant forall k :: i <= k < len ==> buf[k] == h[k]
        invariant Marked(buf[..i], FrameOf(h[..i]), last, start)
      {
        ghost var before := buf[..i];
        MarkNext(before, FrameOf(h[..i]), last, start, h[i]);
        FrameNext(h, i);
        if buf[i] == NEWLINE {
          buf[i] := 0;
          last, start := Some(start), i + 1;
          assert buf[..i + 1] == before + [0];
        } else {
          assert buf[..i + 1] == before + [h[i]];
        }
        i := i + 1;
      }
      assert h[..len] == h;
    }

    /** The C string that starts at `at`. */
    method StringAt(at: nat, ghost end: nat) returns (s: seq<byte>)
      requires Valid() && buf != null && at <= end < buf.Length && buf[end] == 0
      ensures s == UpToZero(buf[at..end])
    {
      var i := at;
      while buf[i] != 0
        invariant at <= i <= end && 0 !in buf[at..i]
        decreases end - i
      {
        assert buf[at..i + 1] == buf[at..i] + [buf[i]];
        i := i + 1;
      }
      s := buf[at..i];
      assert buf[at..end][..i - at] == s;
      ZeroAt(buf[at..end], i - at);
    }

    /** memmove of the partial line to the front. */
    method Compact(start: nat)
      requires Valid() && buf != null && start <= len
      modifies this`len, buf
      ensures Valid() && Held() == old(buf[start..len])
    {
      var remaining := len - start;
      for i := 0 to remaining
        invariant forall k :: 0 <= k < i ==> buf[k] == old(buf[start + k])
        invariant forall k :: start + i <= k < buf.Length ==> buf[k] == old(buf[k])
      {
        buf[i] := buf[start + i];
      }
      len := remaining;
    }

    /** What follows the reads: split, parse the last complete line, keep the rest. */
    method Process(canCreate: bool)
      requires Valid() && buf != null
      modifies this`len, this`lines, this`blocks, this`timer, this`armed, this`pending, buf
      ensures Valid() && AsStream() == Digest(old(AsStream()))
      ensures blocks == if |lines| > |old(lines)| then Parsed(old(blocks), lines[|lines| - 1]) else old(blocks)
      ensures |lines| > |old(lines)| ==> (armed <==> timer && AnyOverlong(blocks, separator, maxChars))
    {
      hide FrameOf, Parsed, AnyOverlong, UpToZero;
      ghost var f, held := FrameOf(Held()), Held();
      buf[len] := 0;
      assert Held() == held;
      var last, start := SplitLines();
      if last.Some? {
        assert buf[..len][last.value..start - 1] == buf[last.value..start - 1];
        var line := StringAt(last.value, start - 1);
        lines := lines + [line];
        ParseLine(line);
        UpdateScrollTimer(canCreate);
        assert buf[..len][start..] == buf[start..len];
        Compact(start);
      } else {
        WholeLines(held);
        assert buf[..len][start..] == held;
      }
    }

    /** topbar_readable. */
    method Readable(w: Wake, canCreate: bool)
      requires Valid() && open
      requires w.Reads? ==> forall i :: 0 <= i < |w.chunks| ==> 1 <= |w.chunks[i]| <= CHUNK
      modifies this, buf
      ensures Valid() && AsStream() == Receive(old(AsStream()), w)
      ensures blocks == if |lines| > |old(lines)| then Parsed(old(blocks), lines[|lines| - 1]) else old(blocks)
      ensures |lines| > |old(lines)| ==> (armed <==> timer && AnyOverlong(blocks, separator, maxChars))
    {
      hide Parsed, AnyOverlong, UpToZero, Fill, Digest, FrameOf, AllStrings;
      if w.Hangup? {
        open := false;
        return;
      }
      var overflow := ReadAll(w.chunks);
      if !overflow {
        if w.finale == Eof {
          open := false;
          return;
        }
        if w.finale == Fail {
          return;
        }
      }
      if buf == null || len == 0 {
        DigestNothing(AsStream());
        return;
      }
      Process(canCreate);
    }
  }

  /** `b` is what was framed, its newlines zeroed: the partial line is its tail
      and the last complete one the stretch marked before it. */
  ghost predicate Marked(b: seq<byte>, f: Framed, last: Option<nat>, start: nat) {
    && start <= |b| && b[start..] == f.partial
    && (last.None? <==> f.lines == [])
    && (last.None? ==> start == 0)
    && (last.Some? ==> last.value < start && b[start - 1] == 0 && b[last.value..start - 1] == f.lines[|f.lines| - 1])
  }

  lemma NothingMarked(h: seq<byte>, b: seq<byte>)
    requires b == []
    ensures Marked(b, FrameOf(h[..0]), None, 0)
  {
  }

  lemma MarkNext(b: seq<byte>, f: Framed, last: Option<nat>, start: nat, c: byte)
    requires Marked(b, f, last, start)
    ensures if c == NEWLINE then Marked(b + [0], Take(f, c), Some(start), |b| + 1)
            else Marked(b + [c], Take(f, c), last, start)
  {
    if c == NEWLINE {
      assert (b + [0])[start..|b|] == b[start..];
    } else {
      assert (b + [c])[start..] == b[start..] + [c];
      assert last.Some? ==> (b + [c])[last.value..start - 1] == b[last.value..start - 1];
    }
  }

  lemma FrameNext(h: seq<byte>, i: nat)
    requires i < |h|
    ensures FrameOf(h[..i + 1]) == Take(FrameOf(h[..i]), h[i])
  {
    assert h[..i + 1][..i] == h[..i];
  }

  /** The first zero ends the string. */
  lemma {:induction false} ZeroAt(t: seq<byte>, i: nat)
    requires i <= |t| && 0 !in t[..i] && (i < |t| ==> t[i] == 0)
    ensures UpToZero(t) == t[..i]
  {
    if i == 0 {
    } else {
      assert t[..i][0] == t[0] && t[1..][..i - 1] == t[..i][1..];
      ZeroAt(t[1..], i - 1);
      assert t[..i] == [t[0]] + t[1..][..i - 1];
    }
  }

  lemma FieldIsString(t: seq<byte>, end: nat)
    requires IsString(t) && end <= |t|
    ensures StringField(t, end, KEY).Some? ==> IsString(StringField(t, end, KEY).value)
  {
    hide Find, IndexOf, Unescaped;
    var p := Find(t, KEY);
    if StringField(t, end, KEY).Some? {
      var c := Later(IndexOf(t[p.value + |KEY|..], COLON), p.value + |KEY|);
      var q := IndexOf(t[c.value..end], QUOTE);
      UnescapedIsString(t[c.value + q.value + 1..end]);
    }
  }

  lemma OneMoreString(blocks: seq<Block>, block: Block)
    requires AllStrings(blocks) && IsString(block.text)
    ensures AllStrings(blocks + [block])
  {
  }

  lemma ReadNothing(previous: seq<Block>, t: seq<byte>)
    ensures Carry(previous, []) == [] && Reading(Texts(t, MAX_BLOCKS), [], t) && AllStrings([])
  {
    hide Texts;
  }

  lemma ReadAllOf(all: seq<seq<byte>>, texts: seq<seq<byte>>, t: seq<byte>)
    requires Reading(all, texts, t) && |texts| == MAX_BLOCKS
    ensures all == texts
  {
  }

  lemma NoneOverlong(blocks: seq<Block>, separator: Option<seq<byte>>, cap: int)
    requires blocks == []
    ensures !AnyOverlong(blocks, separator, cap)
  {
  }

  lemma OverlongNext(blocks: seq<Block>, i: nat, separator: Option<seq<byte>>, cap: int)
    requires i < |blocks|
    ensures AnyOverlong(blocks[..i + 1], separator, cap) <==>
            AnyOverlong(blocks[..i], separator, cap) || Period(Some(blocks[i].text), separator, cap) > 0
  {
    hide Period;
    assert blocks[..i + 1][i] == blocks[i];
    assert forall k :: 0 <= k < i ==> blocks[..i + 1][k] == blocks[..i][k];
  }

  lemma OneIsString(blocks: seq<Block>, i: nat)
    requires AllStrings(blocks) && i < |blocks|
    ensures IsString(blocks[i].text)
  {
  }

  lemma ScrolledAt(blocks: seq<Block>, i: nat, separator: Option<seq<byte>>, cap: int)
    requires i < |blocks|
    ensures var period := Period(Some(blocks[i].text), separator, cap);
            Scrolled(blocks, separator, cap)[i] ==
            blocks[i].(offset := if period == 0 then 0 else Remainder(blocks[i].offset + 1, period))
  {
    hide Period, Remainder;
  }

  lemma ScrolledStrings(blocks: seq<Block>, separator: Option<seq<byte>>, cap: int)
    ensures AllStrings(blocks) ==> AllStrings(Scrolled(blocks, separator, cap))
  {
  }
}
