/**
  hikari_unlocker.c: the setuid helper that reads framed requests from its
  standard input, asks PAM, and writes one fixed-size reply per request, until
  it accepts a password or meets a fault it cannot retry.
 */
module Unlocker {
  import opened Utf8
  import opened Diagnostics
  import opened PasswordField
  import opened UnlockWire
  import opened Options

  // --------------------------------------------------------------------- PAM

  datatype Status = SUCCESS | AUTH_ERR | NEW_AUTHTOK_REQD | OTHER_FAILURE

  /** One pass through PAM: what authentication and account management answer
      and what they say meanwhile, and the library's own text for the account
      verdict. */
  datatype PamRun = PamRun(auth: Status, authNotes: seq<Note>, acct: Status, acctNotes: seq<Note>, acctText: seq<byte>)

  /** PAM as the helper meets it: whether the n-th pam_start works, and what the
      n-th attempt makes of the string handed to the conversation. */
  datatype Pam = Pam(start: nat -> bool, run: (nat, seq<byte>) -> PamRun)

  datatype Verdict = Accept | Refuse | Fatal

  /** Account management is only asked once the password is proved; an expired
      password still unlocks; a wrong password or a locked tally may be retried;
      everything else ends the helper. */
  function Judge(run: PamRun): Verdict {
    match run.auth
    case AUTH_ERR => Refuse
    case SUCCESS =>
      (match run.acct
       case SUCCESS => Accept
       case NEW_AUTHTOK_REQD => Accept
       case AUTH_ERR => Refuse
       case OTHER_FAILURE => Fatal)
    case _ => Fatal
  }

  /** check_password's own return value. */
  function ResultOf(v: Verdict): int {
    match v case Accept => 1 case Refuse => 0 case Fatal => -1
  }

  /** The explanation gathered during one pass. An account refusal PAM did not
      explain gets the library's own text. */
  function Explained(run: PamRun): (g: Gathered)
    ensures |g.text| <= MESSAGE_MAX
  {
    var g := AppendAll(EMPTY, run.authNotes);
    if run.auth != SUCCESS then g
    else
      var h := AppendAll(g, run.acctNotes);
      if run.acct != SUCCESS && |h.text| == |g.text| then Append(h, run.acctText, true) else h
  }

  // ----------------------------------------------------------------- replies

  datatype Reply = Reply(seqNo: nat, success: bool, isError: bool, message: seq<byte>)

  function Denial(seqNo: nat): Reply { Reply(seqNo, false, false, []) }

  function Answer(seqNo: nat, run: PamRun): Reply {
    Reply(seqNo, Judge(run) == Accept, Explained(run).isError, Explained(run).text)
  }

  /** What PAM says in one pass: account management is only heard once the
      password is proved. */
  function Said(run: PamRun): seq<Note> {
    run.authNotes + if run.auth == SUCCESS then run.acctNotes else []
  }

  /** Everything PAM says goes into the reply, in order; and only a refusal of the
      account about which it says nothing gets the library's own words. */
  lemma ReplyTells(seqNo: nat, run: PamRun, k: nat)
    ensures k < |Said(run)| ==>
              var heard := AppendAll(EMPTY, Said(run)[..k]);
              Append(heard, Said(run)[k].text, Said(run)[k].isError).text <= Answer(seqNo, run).message
    ensures var heard, silent := AppendAll(EMPTY, run.authNotes), AppendAll(EMPTY, Said(run));
            Answer(seqNo, run).message ==
            if run.auth == SUCCESS && run.acct != SUCCESS && |silent.text| == |heard.text|
            then Append(silent, run.acctText, true).text else silent.text
  {
    hide Append;
    var said := Said(run);
    AppendAllJoins(EMPTY, run.authNotes, run.acctNotes);
    assert run.authNotes + [] == run.authNotes;
    if k < |said| {
      assert said[..k] + [said[k]] + said[k + 1..] == said;
      NotesArriveInOrder(EMPTY, said[..k], said[k], said[k + 1..]);
      var n := AppendIsMaximal(AppendAll(EMPTY, said), run.acctText, true);
    }
  }

  /** What PAM is handed: the buffer as a C string. */
  function Presented(body: seq<byte>): seq<byte> {
    if body == [] || body[0] == 0 then [] else [body[0]] + Presented(body[1..])
  }

  lemma PresentedOn(s: seq<byte>, body: seq<byte>, i: nat)
    requires i <= |body|
    ensures i == |body| || body[i] == 0 ==> s + Presented(body[i..]) == s
    ensures i < |body| && body[i] != 0 ==>
              s + Presented(body[i..]) == (s + [body[i]]) + Presented(body[i + 1..])
  {
    if i < |body| {
      assert body[i..][1..] == body[i + 1..];
      assert (s + [body[i]]) + Presented(body[i + 1..]) == s + ([body[i]] + Presented(body[i + 1..]));
    }
  }

  lemma {:induction false} PresentedPassword(pw: seq<byte>)
    requires forall i :: 0 <= i < |pw| ==> pw[i] != 0
    ensures Presented(pw) == pw
  {
    if pw == [] {
    } else {
      PresentedPassword(pw[1..]);
    }
  }

  // --------------------------------------- what the helper does with a stream

  datatype Served = Served(reply: Option<Reply>, result: int, rest: seq<byte>)

  /** One check_password() on the bytes that will arrive before end of file or
      a read error. 1 is success, 0 asks for another attempt, -1 ends the
      helper. */
  function ServeOne(data: seq<byte>, pam: Pam, n: nat): (r: Served)
    ensures -1 <= r.result <= 1 && (r.result == 0 ==> |r.rest| < |data|)
    ensures r.reply.Some? <==> |data| >= HEADER_SIZE
  {
    if |data| < HEADER_SIZE then Served(None, -1, [])
    else
      var h, body := data[..HEADER_SIZE], data[HEADER_SIZE..];
      var seqNo, len := HeaderSeq(h), HeaderLen(h);
      if Overlong(h) || !pam.start(n) then Served(Some(Denial(seqNo)), -1, body)
      else if |body| < len then Served(Some(Denial(seqNo)), -1, [])
      else
        var run := pam.run(n, Presented(body[..len]));
        Served(Some(Answer(seqNo, run)),
               ResultOf(Judge(run)),
               body[len..])
  }

  /** The attempt loop of main. */
  function ServeAll(data: seq<byte>, pam: Pam, n: nat): seq<Reply>
    decreases |data|
  {
    var one := ServeOne(data, pam, n);
    (if one.reply.Some? then [one.reply.value] else []) +
    (if one.result == 0 then ServeAll(one.rest, pam, n + 1) else [])
  }

  lemma ServeAllStep(out: seq<Reply>, data: seq<byte>, pam: Pam, n: nat)
    ensures var one := ServeOne(data, pam, n);
            out + ServeAll(data, pam, n) ==
            (out + if one.reply.Some? then [one.reply.value] else []) +
            if one.result == 0 then ServeAll(one.rest, pam, n + 1) else []
  {
    hide ServeOne;
    var one := ServeOne(data, pam, n);
    Joins(out, if one.reply.Some? then [one.reply.value] else [],
          if one.result == 0 then ServeAll(one.rest, pam, n + 1) else []);
  }

  lemma Joins(a: seq<Reply>, b: seq<Reply>, c: seq<Reply>)
    ensures a + (b + c) == (a + b) + c
  {
  }

  /** What the j-th of the submitted requests is answered with. */
  function Expected(r: Request, pam: Pam, n: nat): Reply {
    if pam.start(n) then Answer(r.seqNo, pam.run(n, r.password)) else Denial(r.seqNo)
  }

  predicate Retryable(r: Request, pam: Pam, n: nat) {
    pam.start(n) && Judge(pam.run(n, r.password)) == Refuse
  }

  lemma FrameParts(r: Request, more: seq<byte>)
    ensures var data := Frame(r) + more;
            && |data| >= HEADER_SIZE && data[..HEADER_SIZE] == Header(r)
            && data[HEADER_SIZE..] == r.password + more
            && (r.password + more)[..|r.password|] == r.password
            && (r.password + more)[|r.password|..] == more
  {
    hide Header;
  }

  lemma ServeFrame(r: Request, more: seq<byte>, pam: Pam, n: nat)
    ensures var one := ServeOne(Frame(r) + more, pam, n);
            && one.reply == Some(Expected(r, pam, n))
            && (one.result == 0 <==> Retryable(r, pam, n))
            && (one.result == 0 ==> one.rest == more)
  {
    HeaderRoundTrip(r);
    PresentedPassword(r.password);
    FrameParts(r, more);
    hide Frame, Header, HeaderSeq, HeaderLen, Answer, Judge, Presented, IsPassword;
  }

  /** Reply j is the expected one for request j; if others follow it was a
      retryable refusal, and if it is the last although requests are left it was
      not. */
  ghost predicate AnswerAt(out: seq<Reply>, rs: seq<Request>, pam: Pam, n: nat, j: nat)
    requires j < |out| <= |rs|
  {
    && out[j] == Expected(rs[j], pam, n + j)
    && (j < |out| - 1 ==> Retryable(rs[j], pam, n + j) && !out[j].success)
    && (j == |out| - 1 && |out| < |rs| ==> !Retryable(rs[j], pam, n + j))
  }

  /** `out` answers `rs` from the front. */
  ghost predicate Answers(out: seq<Reply>, rs: seq<Request>, pam: Pam, n: nat) {
    && |out| <= |rs| && (rs != [] ==> out != [])
    && forall j :: 0 <= j < |out| ==> AnswerAt(out, rs, pam, n, j)
  }

  lemma AnswerLater(first: Reply, rest: seq<Reply>, rs: seq<Request>, pam: Pam, n: nat, j: nat)
    requires rs != [] && j < |rest| <= |rs| - 1 && AnswerAt(rest, rs[1..], pam, n + 1, j)
    ensures AnswerAt([first] + rest, rs, pam, n, j + 1)
  {
    hide Expected, Retryable, IsPassword;
    assert rs[1..][j] == rs[j + 1] && n + 1 + j == n + (j + 1) && ([first] + rest)[j + 1] == rest[j];
  }

  lemma AnswersFirst(rest: seq<Reply>, rs: seq<Request>, pam: Pam, n: nat)
    requires rs != [] && Retryable(rs[0], pam, n) && Answers(rest, rs[1..], pam, n + 1)
    ensures Answers([Expected(rs[0], pam, n)] + rest, rs, pam, n)
  {
    RetryFails(rs[0], pam, n);
    hide AnswerAt, Expected, Retryable, IsPassword;
    var first := Expected(rs[0], pam, n);
    var out := [first] + rest;
    forall j | 0 <= j < |out|
      ensures AnswerAt(out, rs, pam, n, j)
    {
      if j == 0 {
        AnswersInFront(first, rest, rs, pam, n);
      } else {
        AnswerLater(first, rest, rs, pam, n, j - 1);
      }
    }
  }

  lemma AnswersInFront(first: Reply, rest: seq<Reply>, rs: seq<Request>, pam: Pam, n: nat)
    requires |rest| < |rs| && first == Expected(rs[0], pam, n) && Retryable(rs[0], pam, n) && !first.success
    requires |rs| > 1 ==> rest != []
    ensures AnswerAt([first] + rest, rs, pam, n, 0)
  {
    hide Expected, Retryable, IsPassword;
  }

  /** From the bytes of any list of submissions the helper recovers each of
      them: reply j answers request j, echoing its number, judged on exactly its
      password. It stops at the first verdict that cannot be retried, so only
      the last reply can be a success. */
  lemma {:induction false} HelperAnswersInOrder(rs: seq<Request>, pam: Pam, n: nat)
    ensures Answers(ServeAll(Wire(rs), pam, n), rs, pam, n)
    decreases rs
  {
    hide Expected, Retryable, Frame, ServeOne, IsPassword;
    if rs == [] {
      ServeNothing(pam, n);
    } else {
      WireFront(rs);
      ServeFrame(rs[0], Wire(rs[1..]), pam, n);
      HelperAnswersInOrder(rs[1..], pam, n + 1);
      hide Wire;
      var rest := ServeAll(Wire(rs[1..]), pam, n + 1);
      if Retryable(rs[0], pam, n) {
        AnswersFirst(rest, rs, pam, n);
      } else {
        assert ServeAll(Wire(rs), pam, n) == [Expected(rs[0], pam, n)];
      }
    }
  }

  /** A password PAM calls wrong, or an account it refuses for now. */
  predicate MayRetry(run: PamRun) {
    run.auth == AUTH_ERR || (run.auth == SUCCESS && run.acct == AUTH_ERR)
  }

  /** Reply j in PAM's own terms: a success exactly if PAM authenticated the
      password of request j and account management allows the account, with an
      expired password or without; if others follow the pass may be retried, and
      if it is the last although requests are left it may not. */
  ghost predicate TellsPam(out: seq<Reply>, rs: seq<Request>, pam: Pam, j: nat)
    requires j < |out| <= |rs|
  {
    var run := pam.run(j, rs[j].password);
    && out[j].seqNo == rs[j].seqNo
    && (out[j].success <==>
          pam.start(j) && run.auth == SUCCESS && (run.acct == SUCCESS || run.acct == NEW_AUTHTOK_REQD))
    && (j < |out| - 1 ==> pam.start(j) && MayRetry(run))
    && (j == |out| - 1 && |out| < |rs| ==> !(pam.start(j) && MayRetry(run)))
  }

  lemma AnswerTellsPam(out: seq<Reply>, rs: seq<Request>, pam: Pam, j: nat)
    requires j < |out| <= |rs| && AnswerAt(out, rs, pam, 0, j)
    ensures TellsPam(out, rs, pam, j)
  {
    ExpectedTellsPam(rs[j], pam, j);
    hide Expected, Retryable, MayRetry, IsPassword;
    assert 0 + j == j;
  }

  lemma HelperTellsPam(rs: seq<Request>, pam: Pam)
    ensures var out := ServeAll(Wire(rs), pam, 0);
            && |out| <= |rs| && (rs != [] ==> out != [])
            && forall j :: 0 <= j < |out| ==> TellsPam(out, rs, pam, j)
  {
    HelperAnswersInOrder(rs, pam, 0);
    var out := ServeAll(Wire(rs), pam, 0);
    hide ServeAll, Wire, AnswerAt, TellsPam, IsPassword;
    forall j | 0 <= j < |out|
      ensures TellsPam(out, rs, pam, j)
    {
      AnswerTellsPam(out, rs, pam, j);
    }
  }

  lemma ExpectedTellsPam(r: Request, pam: Pam, n: nat)
    ensures var run := pam.run(n, r.password);
            && Expected(r, pam, n).seqNo == r.seqNo
            && (Expected(r, pam, n).success <==>
                  pam.start(n) && run.auth == SUCCESS && (run.acct == SUCCESS || run.acct == NEW_AUTHTOK_REQD))
            && (Retryable(r, pam, n) <==> pam.start(n) && MayRetry(run))
  {
    hide Explained, IsPassword;
  }

  /** Bytes no honest compositor writes: less than a header is not answered at
      all; a header that announces 1024 bytes or more, or more than ever arrive,
      is answered once, with a denial under its own number, and ends the helper
      without PAM being asked. */
  lemma BadFrameEnds(data: seq<byte>, pam: Pam, n: nat)
    ensures |data| < 16 ==> ServeAll(data, pam, n) == []
    ensures |data| >= 16 ==>
              var len := FromBytes(data[8..12]);
              len >= 1024 || |data| - 16 < len ==>
                ServeAll(data, pam, n) == [Reply(FromBytes(data[..8]), false, false, [])]
  {
    if |data| >= 16 {
      assert data[..16][..8] == data[..8] && data[..16][8..12] == data[8..12];
    }
  }

  lemma ServeNothing(pam: Pam, n: nat)
    ensures ServeOne([], pam, n) == Served(None, -1, [])
  {
  }

  lemma RetryFails(r: Request, pam: Pam, n: nat)
    requires Retryable(r, pam, n)
    ensures !Expected(r, pam, n).success
  {
  }

  predicate AllButLastFail(out: seq<Reply>) {
    forall j :: 0 <= j < |out| - 1 ==> !out[j].success
  }

  lemma FailureInFront(first: Reply, rest: seq<Reply>)
    requires !first.success && AllButLastFail(rest)
    ensures AllButLastFail([first] + rest)
  {
    var out := [first] + rest;
    assert forall j :: 0 < j < |out| ==> out[j] == rest[j - 1];
  }

  /** On any stream whatsoever, honest or not, only the last reply succeeds. */
  lemma {:induction false} OnlyLastSucceeds(data: seq<byte>, pam: Pam, n: nat)
    ensures AllButLastFail(ServeAll(data, pam, n))
    decreases |data|
  {
    RetryIsDenied(data, pam, n);
    hide ServeOne;
    var one := ServeOne(data, pam, n);
    if one.result == 0 {
      OnlyLastSucceeds(one.rest, pam, n + 1);
      FailureInFront(one.reply.value, ServeAll(one.rest, pam, n + 1));
    }
  }

  lemma RetryIsDenied(data: seq<byte>, pam: Pam, n: nat)
    ensures ServeOne(data, pam, n).result == 0 ==>
              ServeOne(data, pam, n).reply.Some? && !ServeOne(data, pam, n).reply.value.success
  {
  }

  // ------------------------------------------------------------- the process

  datatype ReadResult = Interrupted | Eof | Got(bytes: seq<byte>)

  /** The read end of the request pipe. `data` is what will be delivered before
      end of file or an error; every read returns any non-empty piece of it that
      fits, or is interrupted, which happens finitely often. */
  class Stdin {
    var data: seq<byte>
    var interruptions: nat

    method Read(max: nat) returns (r: ReadResult)
      requires max > 0
      modifies this
      ensures r.Interrupted? ==> data == old(data) && interruptions < old(interruptions)
      ensures r.Eof? ==> data == old(data) == [] && interruptions == old(interruptions)
      ensures r.Got? ==> 1 <= |r.bytes| <= max && r.bytes + data == old(data) && interruptions == old(interruptions)
    {
      var interrupted: bool := *;
      if interruptions > 0 && interrupted {
        interruptions := interruptions - 1;
        return Interrupted;
      }
      if data == [] {
        return Eof;
      }
      var n: nat :| 1 <= n <= max && n <= |data|;
      r := Got(data[..n]);
      data := data[n..];
    }
  }

  class Process {
    const inputBuffer: array<byte>
    const messages: Accumulator
    const stdin: Stdin
    const pam: Pam
    var stdout: seq<Reply>
    var attempts: nat

    /** Between attempts the password buffer is all zero. */
    ghost predicate Valid()
      reads this, inputBuffer, messages
    {
      && inputBuffer.Length == BUFFER_SIZE && messages.Valid()
      && inputBuffer != messages.buffer
      && forall i :: 0 <= i < BUFFER_SIZE ==> inputBuffer[i] == 0
    }

    constructor (stdin: Stdin, pam: Pam)
      ensures Valid() && fresh(inputBuffer) && fresh(messages) && fresh(messages.buffer)
      ensures this.stdin == stdin && this.pam == pam && stdout == [] && attempts == 0
    {
      inputBuffer := new byte[BUFFER_SIZE](_ => 0);
      messages := new Accumulator();
      this.stdin := stdin;
      this.pam := pam;
      stdout := [];
      attempts := 0;
    }

    /** Accumulate the request header across partial reads. */
    method ReadHeader() returns (header: seq<byte>)
      modifies stdin
      ensures |header| <= HEADER_SIZE && header + stdin.data == old(stdin.data)
      ensures |header| < HEADER_SIZE ==> stdin.data == []
    {
      header := [];
      while |header| < HEADER_SIZE
        invariant |header| <= HEADER_SIZE && header + stdin.data == old(stdin.data)
        decreases HEADER_SIZE - |header|, stdin.interruptions
      {
        var r := stdin.Read(HEADER_SIZE - |header|);
        match r
        case Interrupted =>
        case Eof => return;
        case Got(bytes) =>
          assert header + (bytes + stdin.data) == (header + bytes) + stdin.data;
          header := header + bytes;
      }
    }

    /** Accumulate `len` bytes into the locked buffer across partial reads. */
    method ReadBody(len: nat) returns (complete: bool)
      requires inputBuffer.Length == BUFFER_SIZE && len < BUFFER_SIZE
      modifies stdin, inputBuffer
      ensures complete <==> len <= |old(stdin.data)|
      ensures complete ==> inputBuffer[..len] == old(stdin.data)[..len] && stdin.data == old(stdin.data)[len..]
      ensures !complete ==> stdin.data == []
    {
      var got := 0;
      while got < len
        invariant got <= len && inputBuffer[..got] + stdin.data == old(stdin.data)
        decreases len - got, stdin.interruptions
      {
        var r := stdin.Read(len - got);
        match r
        case Interrupted =>
        case Eof =>
          assert |inputBuffer[..got]| == got;
          return false;
        case Got(bytes) =>
          ghost var before := inputBuffer[..got];
          CopyInto(inputBuffer, got, bytes);
          assert before + (bytes + stdin.data) == (before + bytes) + stdin.data;
          got := got + |bytes|;
      }
      return true;
    }

    method Scrub()
      requires inputBuffer.Length == BUFFER_SIZE
      modifies inputBuffer
      ensures forall i :: 0 <= i < BUFFER_SIZE ==> inputBuffer[i] == 0
    {
      for i := 0 to BUFFER_SIZE
        invariant forall j :: 0 <= j < i ==> inputBuffer[j] == 0
      {
        inputBuffer[i] := 0;
      }
    }

    method WriteReply(seqNo: nat, success: bool)
      requires messages.Valid()
      modifies this`stdout
      ensures stdout == old(stdout) + [Reply(seqNo, success, messages.Contents().isError, messages.Contents().text)]
    {
      stdout := stdout + [Reply(seqNo, success, messages.isError, messages.buffer[..messages.len])];
    }

    /** The part of conversation_handler that relays what PAM says. */
    method Converse(notes: seq<Note>)
      requires messages.Valid()
      modifies messages, messages.buffer
      ensures messages.Valid() && messages.Contents() == AppendAll(old(messages.Contents()), notes)
    {
      for i := 0 to |notes|
        invariant messages.Valid()
        invariant AppendAll(messages.Contents(), notes[i..]) == AppendAll(old(messages.Contents()), notes)
      {
        assert notes[i..][0] == notes[i] && notes[i..][1..] == notes[i + 1..];
        messages.AppendMessage(notes[i].text, notes[i].isError);
      }
    }

    /** strdup(input_buffer): the bytes up to the terminator. */
    method Duplicate() returns (s: seq<byte>)
      requires inputBuffer.Length == BUFFER_SIZE && exists k :: 0 <= k < BUFFER_SIZE && inputBuffer[k] == 0
      ensures s == Presented(inputBuffer[..])
    {
      s := [];
      var i := 0;
      ghost var held := inputBuffer[..];
      assert held[0..] == held;
      while i < BUFFER_SIZE && inputBuffer[i] != 0
        invariant 0 <= i <= BUFFER_SIZE && s + Presented(held[i..]) == Presented(held)
      {
        PresentedOn(s, held, i);
        s := s + [inputBuffer[i]];
        i := i + 1;
      }
      PresentedOn(s, held, i);
    }

    /** What check_password does once the password is read: authenticate, ask
        account management only after success, and classify both verdicts. */
    method Deliberate(seqNo: nat, run: PamRun) returns (result: int)
      requires messages.Valid() && messages.Contents() == EMPTY
      modifies this`stdout, messages, messages.buffer
      ensures messages.Valid() && stdout == old(stdout) + [Answer(seqNo, run)]
      ensures stdout[|stdout| - 1].seqNo == seqNo
      ensures stdout[|stdout| - 1].success <==>
              run.auth == SUCCESS && (run.acct == SUCCESS || run.acct == NEW_AUTHTOK_REQD)
      ensures result == 1 <==> stdout[|stdout| - 1].success
      ensures result == 0 <==> run.auth == AUTH_ERR || (run.auth == SUCCESS && run.acct == AUTH_ERR)
      ensures result == ResultOf(Judge(run))
    {
      hide AppendAll, Append;
      Converse(run.authNotes);
      if run.auth != SUCCESS && run.auth != AUTH_ERR {
        WriteReply(seqNo, false);
        return -1;
      }
      var success := run.auth == SUCCESS;
      if success {
        var lenBefore := messages.len;
        Converse(run.acctNotes);
        if run.acct != SUCCESS {
          if messages.len == lenBefore {
            messages.AppendMessage(run.acctText, true);
          }
          if run.acct == AUTH_ERR {
            success := false;
          } else if run.acct != NEW_AUTHTOK_REQD {
            WriteReply(seqNo, false);
            return -1;
          }
        }
      }
      WriteReply(seqNo, success);
      return if success then 1 else 0;
    }

    /** check_password: one request from header to reply. */
    method CheckPassword() returns (result: int)
      requires Valid()
      modifies this, inputBuffer, messages, messages.buffer, stdin
      ensures Valid() && attempts == old(attempts) + 1
      ensures var one := ServeOne(old(stdin.data), pam, old(attempts));
              && result == one.result && stdin.data == one.rest
              && stdout == old(stdout) + if one.reply.Some? then [one.reply.value] else []
    {
      hide HeaderSeq, HeaderLen, Answer, Judge, Presented;
      ghost var data := stdin.data;
      var n := attempts;
      attempts := attempts + 1;
      messages.Reset();

      var header := ReadHeader();
      if |header| < HEADER_SIZE {
        assert header + [] == data;
        return -1;
      }
      assert data[..HEADER_SIZE] == header && data[HEADER_SIZE..] == stdin.data;
      ghost var body := stdin.data;
      var seqNo, len := HeaderSeq(header), HeaderLen(header);

      if len > BUFFER_SIZE - 1 {
        WriteReply(seqNo, false);
        return -1;
      }
      if !pam.start(n) {
        WriteReply(seqNo, false);
        return -1;
      }
      var complete := ReadBody(len);
      if !complete {
        Scrub();
        WriteReply(seqNo, false);
        return -1;
      }
      inputBuffer[len] := 0;

      var presented := Duplicate();
      PresentedStops(inputBuffer[..], body[..len]);
      var run := pam.run(n, presented);
      Scrub();
      result := Deliberate(seqNo, run);
    }

    /** The attempt loop of main: on any stream, cut into reads in any way, the
        replies written are those of ServeAll. */
    method Run()
      requires Valid()
      modifies this, inputBuffer, messages, messages.buffer, stdin
      ensures Valid() && stdout == old(stdout) + ServeAll(old(stdin.data), pam, old(attempts))
    {
      hide ServeOne, ServeAll, Valid;
      ghost var first := stdout;
      ghost var all := ServeAll(stdin.data, pam, attempts);
      ghost var left := all;
      var success := false;
      while !success
        invariant Valid()
        invariant stdout + left == first + all
        invariant left == if success then [] else ServeAll(stdin.data, pam, attempts)
        decreases !success, |stdin.data|
      {
        ghost var one := ServeOne(stdin.data, pam, attempts);
        ghost var out := stdout;
        ghost var more := if one.result == 0 then ServeAll(one.rest, pam, attempts + 1) else [];
        ServeAllStep(out, stdin.data, pam, attempts);
        var result := CheckPassword();
        left := more;
        if result == -1 {
          break;
        } else if result == 1 {
          success := true;
        }
      }
    }
  }

  /** Behind the body stands a terminator, so what PAM sees ends within it. */
  lemma {:induction false} PresentedStops(buffer: seq<byte>, body: seq<byte>)
    requires body <= buffer && |body| < |buffer| && buffer[|body|] == 0
    ensures Presented(buffer) == Presented(body)
    decreases |body|
  {
    if body == [] || body[0] == 0 {
    } else {
      PresentedStops(buffer[1..], body[1..]);
    }
  }
}
