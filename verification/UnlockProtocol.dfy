/**
  The unlock protocol as a whole: the compositor of LockSession, every helper it
  ever started, the two pipes between it and each of them, and all their
  interleavings. Any helper may read, answer, fail or die at any moment; the
  compositor writes a request piece by piece, is told of replies and hangups
  when its event loop gets to it, restarts helpers, unlocks and locks again.
 */
module UnlockProtocol {
  import opened Utf8
  import opened PasswordField
  import opened UnlockWire
  import opened Unlocker
  import opened LockSession
  import opened Options

  /** One helper process and its two pipes. `sent` and `log` are history: what
      was submitted to it, and every reply it wrote. `unread` is what of the log
      is still in the reply pipe. */
  datatype Helper = Helper(phase: Phase, inbox: seq<byte>, consumed: seq<byte>, sent: seq<Request>,
                           log: seq<Reply>, unread: seq<Reply>)

  const FRESH := Helper(Heading([]), [], [], [], [], [])

  /** `writing` is what the blocked write loop has left to write. `attempts` are
      the passwords submitted so far, the k-th under number k; `asked` records what
      PAM was asked, under which number, and its own two answers. */
  datatype World = World(session: Session, writing: Option<seq<byte>>, helpers: seq<Helper>,
                         attempts: seq<seq<byte>>, asked: set<Asked>)

  /** One pass through PAM: what it was shown, and what authentication and account
      management answered. */
  datatype Asked = Asked(seqNo: nat, password: seq<byte>, auth: Status, acct: Status)

  /** PAM authenticated `pw` under number `n`, and the account may be used, be it
      with a password that has expired. */
  predicate Proved(asked: set<Asked>, n: nat, pw: seq<byte>) {
    Asked(n, pw, SUCCESS, SUCCESS) in asked || Asked(n, pw, SUCCESS, NEW_AUTHTOK_REQD) in asked
  }

  datatype Event =
    | KeyPress(key: Key)
    | Submit(start: Start, exited: set<int>, timerOk: bool, padding: seq<byte>)
    | WriteSome(n: nat)
    | WriteFails
    | WriteDone(sourceOk: bool, exited: set<int>, timerOk: bool)
    | Dispatch(hangup: bool, env: Env)
    | Timer(exited: set<int>)
    | Lock(start: Start)
    | ModeCancelled(exited: set<int>, timerOk: bool)
    | Read(who: nat, n: nat, pamStarts: bool)
    | ReadEnds(who: nat)
    | PamAnswers(who: nat, run: PamRun)
    | Dies(who: nat)

  // --------------------------------------------------------------- the helper

  function Answered(h: Helper, r: Reply, next: Phase): Helper {
    h.(log := h.log + [r], unread := h.unread + [r], phase := next)
  }

  /** read() returns `n` bytes; completing a header is followed by the length
      check and pam_start, either of which may refuse and end the helper. */
  function Take(h: Helper, n: nat, pamStarts: bool): Helper
    requires 1 <= n <= Wanted(h.phase) && n <= |h.inbox|
  {
    var chunk := h.inbox[..n];
    var t := h.(inbox := h.inbox[n..], consumed := h.consumed + chunk);
    if h.phase.Heading? && |h.phase.got + chunk| == HEADER_SIZE &&
       (Overlong(h.phase.got + chunk) || !pamStarts)
    then Answered(t, Denial(HeaderSeq(h.phase.got + chunk)), Gone)
    else t.(phase := Feed(h.phase, chunk))
  }

  /** End of file or a read error: silent in the header, a denial in the body. */
  function EndOfInput(h: Helper): Helper {
    match h.phase
    case Reading(seqNo, _, _) => Answered(h, Denial(seqNo), Gone)
    case _ => h.(phase := Gone)
  }

  function Heard(h: Helper, run: PamRun): Asked
    requires h.phase.Judging?
  {
    Asked(h.phase.seqNo, Presented(h.phase.password), run.auth, run.acct)
  }

  function Decide(h: Helper, run: PamRun): Helper
    requires h.phase.Judging?
  {
    Answered(h, Answer(h.phase.seqNo, run), if Judge(run) == Refuse then Heading([]) else Gone)
  }

  // ---------------------------------------------------------------- the steps

  function Last(w: World): Helper
    requires w.helpers != []
  {
    w.helpers[|w.helpers| - 1]
  }

  function WithLast(w: World, h: Helper): World
    requires w.helpers != []
  {
    w.(helpers := w.helpers[|w.helpers| - 1 := h])
  }

  ghost predicate Enabled(w: World, e: Event) {
    match e
    case KeyPress(key) =>
      w.session.locked && w.writing.None? && (key.Char? ==> key.codepoint < 0x1_0000_0000)
    case Submit(start, exited, timerOk, padding) =>
      && w.session.locked && w.writing.None? && |padding| == 4 && |w.attempts| + 1 < SEQ_LIMIT
      && LegalBegin(w.session, start, exited, timerOk) && IsPassword(w.session.typed)
      && (w.session.reqFd != -1 ==> w.helpers != [])
    case WriteSome(n) => w.writing.Some? && w.helpers != [] && 1 <= n <= |w.writing.value|
    case WriteFails => w.writing.Some? && w.writing.value != [] && w.helpers != [] && Last(w).phase.Gone?
    case WriteDone(_, _, _) => w.writing == Some([])
    case Dispatch(hangup, _) =>
      && w.session.locked && w.writing.None? && w.session.source != -1 && w.helpers != []
      && if hangup then Last(w).phase.Gone? else Last(w).unread != []
    case Timer(_) => w.session.reapTimer && w.writing.None?
    case Lock(start) =>
      !w.session.locked && w.writing.None? && LegalStart(w.session, start)
    // Code outside the lock screen cancels whatever mode is current.
    case ModeCancelled(_, _) => w.session.locked && w.writing.None?
    case Read(who, n, _) =>
      who < |w.helpers| && 1 <= n <= Wanted(w.helpers[who].phase) && n <= |w.helpers[who].inbox|
    case ReadEnds(who) =>
      who < |w.helpers| && (w.helpers[who].phase.Heading? || w.helpers[who].phase.Reading?)
    case PamAnswers(who, _) => who < |w.helpers| && w.helpers[who].phase.Judging?
    case Dies(who) => who < |w.helpers|
  }

  function SubmitStep(w: World, start: Start, exited: set<int>, timerOk: bool, padding: seq<byte>): World
    requires |padding| == 4 && |w.attempts| + 1 < SEQ_LIMIT && IsPassword(w.session.typed)
    requires w.session.reqFd != -1 ==> w.helpers != []
  {
    var b := SubmitBegin(w.session, start, exited, timerOk);
    if !b.proceeds then w.(session := b.session)
    else
      var request: Request := Submission(|w.attempts| + 1, w.session.typed, padding);
      var helpers := if w.session.reqFd == -1 || w.helpers == [] then w.helpers + [FRESH] else w.helpers;
      var last := |helpers| - 1;
      w.(session := b.session, writing := Some(Frame(request)),
         helpers := helpers[last := helpers[last].(sent := helpers[last].sent + [request])],
         attempts := w.attempts + [w.session.typed])
  }

  function DispatchStep(w: World, hangup: bool, env: Env): World
    requires w.helpers != []
  {
    var d := Drain(Last(w).unread, w.session.nextSeq, hangup);
    WithLast(w, Last(w).(unread := d.left)).(
      session := HandleResult(w.session, d.adopted, hangup, env))
  }

  function Step(w: World, e: Event): World
    requires Enabled(w, e)
  {
    match e
    case KeyPress(key) => w.(session := PressKey(w.session, key))
    case Submit(start, exited, timerOk, padding) => SubmitStep(w, start, exited, timerOk, padding)
    case WriteSome(n) =>
      WithLast(w, Last(w).(inbox := Last(w).inbox + w.writing.value[..n])).(writing := Some(w.writing.value[n..]))
    case WriteFails => w.(writing := Some([]))
    case WriteDone(sourceOk, exited, timerOk) =>
      w.(session := SubmitEnd(w.session, sourceOk, exited, timerOk), writing := None)
    case Dispatch(hangup, env) => DispatchStep(w, hangup, env)
    case Timer(exited) => w.(session := TimerFired(w.session, exited))
    case Lock(start) =>
      w.(session := Enter(w.session, start),
         helpers := if start.Started? then w.helpers + [FRESH] else w.helpers)
    case ModeCancelled(exited, timerOk) => w.(session := Leave(w.session, exited, timerOk))
    case Read(who, n, pamStarts) => w.(helpers := w.helpers[who := Take(w.helpers[who], n, pamStarts)])
    case ReadEnds(who) => w.(helpers := w.helpers[who := EndOfInput(w.helpers[who])])
    case PamAnswers(who, run) =>
      var h := w.helpers[who];
      w.(helpers := w.helpers[who := Decide(h, run)],
         asked := w.asked + {Heard(h, run)})
    case Dies(who) => w.(helpers := w.helpers[who := w.helpers[who].(phase := Gone)])
  }

  // ------------------------------------------------------------ the invariant

  /** What was submitted is what the attempts say, in ascending order; every
      reply answers the submission of the same rank; a success was proved to PAM
      by exactly that password; what is unread is the end of the log. */
  ghost predicate HistoryOk(h: Helper, attempts: seq<seq<byte>>, asked: set<Asked>) {
    && |h.log| <= |h.sent|
    && (forall j :: 0 <= j < |h.sent| ==>
          1 <= h.sent[j].seqNo <= |attempts| && attempts[h.sent[j].seqNo - 1] == h.sent[j].password)
    && (forall j, k :: 0 <= j < k < |h.sent| ==> h.sent[j].seqNo < h.sent[k].seqNo)
    && (forall j :: 0 <= j < |h.log| ==> ReplyOk(h, j, asked))
    && |h.unread| <= |h.log| && h.unread == h.log[|h.log| - |h.unread|..]
  }

  ghost predicate ReplyOk(h: Helper, j: nat, asked: set<Asked>)
    requires j < |h.log| <= |h.sent|
  {
    && h.log[j].seqNo == h.sent[j].seqNo
    && (h.log[j].success ==> Proved(asked, h.sent[j].seqNo, h.sent[j].password))
  }

  /** While a helper lives, what it has read, what is in its pipe and what is
      still to be written to it make up the frames submitted to it. */
  ghost predicate StreamOk(h: Helper, rest: seq<byte>) {
    !h.phase.Gone? ==>
      && |h.log| <= |h.sent| && InStep(h.phase, h.sent, |h.log|, h.consumed)
      && h.consumed + h.inbox + rest == Wire(h.sent)
  }

  /** A helper in good order, given that `rest` is still to be written to it. */
  ghost predicate HelperOk(h: Helper, attempts: seq<seq<byte>>, asked: set<Asked>, rest: seq<byte>) {
    HistoryOk(h, attempts, asked) && StreamOk(h, rest)
  }

  function Rest(w: World, i: nat): seq<byte> {
    if i + 1 == |w.helpers| && w.writing.Some? then w.writing.value else []
  }

  /** While an attempt is being written or its reply is watched for, no reply to
      it has been taken out of the pipe. */
  ghost predicate Awaited(w: World) {
    w.session.source != -1 || w.writing.Some? ==>
      && w.helpers != []
      && forall j :: 0 <= j < |Last(w).log| - |Last(w).unread| ==> Last(w).log[j].seqNo != w.session.nextSeq
  }

  ghost predicate Inv(w: World) {
    && Books(w.session) && IsPassword(w.session.typed)
    && w.session.nextSeq == |w.attempts| < SEQ_LIMIT
    && (w.session.reqFd != -1 ==> w.helpers != [])
    && (w.writing.Some? ==> w.session.locked && w.session.reqFd != -1)
    && HelpersOk(w) && Awaited(w)
  }

  ghost predicate HelpersOk(w: World) {
    forall i :: 0 <= i < |w.helpers| ==> HelperOk(w.helpers[i], w.attempts, w.asked, Rest(w, i))
  }

  /** Attempt `n` was accepted, on exactly the password submitted as attempt n. */
  ghost predicate AcceptedAs(w: World, n: nat) {
    1 <= n <= |w.attempts| && Proved(w.asked, n, w.attempts[n - 1])
  }

  /** The statics before the first lock. */
  ghost predicate Initial(w: World) {
    && w.session == Session([], 0, -1, seq(MAX_PENDING, _ => 0), -1, -1, -1, false, false, Idle, [], {}, {})
    && w.writing.None? && w.helpers == [] && w.attempts == [] && w.asked == {}
  }

  lemma InitialInv(w: World)
    requires Initial(w)
    ensures Inv(w)
  {
  }

  // ------------------------------------------------- what one helper step keeps

  lemma TakeKeeps(h: Helper, n: nat, pamStarts: bool, attempts: seq<seq<byte>>,
        asked: set<Asked>, rest: seq<byte>)
    requires HelperOk(h, attempts, asked, rest) && 1 <= n <= Wanted(h.phase) && n <= |h.inbox|
    ensures HelperOk(Take(h, n, pamStarts), attempts, asked, rest)
  {
    var chunk, more := h.inbox[..n], h.inbox[n..];
    assert h.inbox == chunk + more;
    StreamMoves(h.consumed, chunk, more, rest);
    MoreToCome(h.phase, h.sent, |h.log|, h.consumed, chunk, more + rest);
    FeedStaysInStep(h.phase, h.sent, |h.log|, h.consumed, chunk, more + rest);
    var t := Take(h, n, pamStarts);
    if t.phase.Gone? {
      var base := Wire(h.sent[..|h.log|]);
      WireSplit(h.sent, |h.log|);
      Regroup(base, h.phase.got, chunk, more + rest);
      CompleteHeader(base, h.phase.got + chunk, more + rest, h.sent[|h.log|], Wire(h.sent));
      hide HistoryOk, Wire;
      HistoryOfSame(h, h.(inbox := more, consumed := h.consumed + chunk), attempts, asked);
      AnsweredKeeps(h.(inbox := more, consumed := h.consumed + chunk), t.log[|h.log|], Gone, attempts, asked);
    } else {
      hide InStep, Feed, Wire;
      HistoryOfSame(h, t, attempts, asked);
    }
  }

  lemma StreamMoves(consumed: seq<byte>, chunk: seq<byte>, more: seq<byte>, rest: seq<byte>)
    ensures consumed + chunk + (more + rest) == consumed + (chunk + more) + rest
    ensures (consumed + chunk) + more + rest == consumed + (chunk + more) + rest
  {
  }

  lemma HistoryOfSame(h: Helper, t: Helper, attempts: seq<seq<byte>>, asked: set<Asked>)
    requires HistoryOk(h, attempts, asked) && t.sent == h.sent && t.log == h.log && t.unread == h.unread
    ensures HistoryOk(t, attempts, asked)
  {
    forall j | 0 <= j < |t.log|
      ensures ReplyOk(t, j, asked)
    {
      assert ReplyOk(h, j, asked);
    }
  }

  /** A completed header is that of the next request in line. */
  lemma CompleteHeader(base: seq<byte>, header: seq<byte>, rest: seq<byte>, r: Request, all: seq<byte>)
    requires |header| == HEADER_SIZE && base + header + rest == all && base + Frame(r) <= all
    ensures HeaderSeq(header) == r.seqNo && !Overlong(header)
  {
    HeaderRoundTrip(r);
    hide Header, HeaderSeq, HeaderLen;
    HeadAgrees(base, header, rest, r, all);
    assert header == Header(r);
  }

  /** Answering the next request in line. */
  lemma AnsweredKeeps(h: Helper, r: Reply, next: Phase, attempts: seq<seq<byte>>, asked: set<Asked>)
    requires HistoryOk(h, attempts, asked) && |h.log| < |h.sent|
    requires r.seqNo == h.sent[|h.log|].seqNo
    requires r.success ==> Proved(asked, r.seqNo, h.sent[|h.log|].password)
    ensures HistoryOk(Answered(h, r, next), attempts, asked)
  {
    var t := Answered(h, r, next);
    forall j | 0 <= j < |t.log|
      ensures ReplyOk(t, j, asked)
    {
      if j < |h.log| {
        assert ReplyOk(h, j, asked);
      }
    }
    assert t.log[|t.log| - |t.unread|..] == h.log[|h.log| - |h.unread|..] + [r];
  }

  lemma EndKeeps(h: Helper, attempts: seq<seq<byte>>, asked: set<Asked>)
    requires HistoryOk(h, attempts, asked) && (h.phase.Heading? || h.phase.Reading?)
    requires h.phase.Reading? ==> |h.log| < |h.sent| && h.phase.seqNo == h.sent[|h.log|].seqNo
    ensures HistoryOk(EndOfInput(h), attempts, asked) && EndOfInput(h).phase.Gone?
  {
    hide HistoryOk;
    if h.phase.Reading? {
      AnsweredKeeps(h, Denial(h.phase.seqNo), Gone, attempts, asked);
    } else {
      HistoryOfSame(h, h.(phase := Gone), attempts, asked);
    }
  }

  /** PAM is asked about exactly the submitted password, so what it accepts is
      that password under that number. */
  lemma DecideKeeps(h: Helper, run: PamRun, attempts: seq<seq<byte>>, asked: set<Asked>, rest: seq<byte>)
    requires HelperOk(h, attempts, asked, rest) && h.phase.Judging?
    ensures HelperOk(Decide(h, run), attempts, asked + {Heard(h, run)}, rest)
  {
    hide HistoryOk, Answer, Judge, Presented, Wire;
    var now := asked + {Heard(h, run)};
    AnswerFields(h.phase.seqNo, run);
    PresentedPassword(h.phase.password);
    MoreAccepted(h, attempts, asked, now);
    AnsweredKeeps(h, Answer(h.phase.seqNo, run), Decide(h, run).phase, attempts, now);
    NextRequest(h);
  }

  lemma AnswerFields(seqNo: nat, run: PamRun)
    ensures Answer(seqNo, run).seqNo == seqNo
    ensures Answer(seqNo, run).success <==>
            run.auth == SUCCESS && (run.acct == SUCCESS || run.acct == NEW_AUTHTOK_REQD)
  {
    hide Explained;
  }

  lemma NextRequest(h: Helper)
    requires |h.log| <= |h.sent| && h.phase.Judging? && InStep(h.phase, h.sent, |h.log|, h.consumed)
    ensures InStep(Heading([]), h.sent, |h.log| + 1, h.consumed)
  {
    hide Wire;
    assert Wire(h.sent[..|h.log| + 1]) + [] == Wire(h.sent[..|h.log| + 1]);
  }

  lemma MoreAccepted(h: Helper, attempts: seq<seq<byte>>, asked: set<Asked>, now: set<Asked>)
    requires HistoryOk(h, attempts, asked) && asked <= now
    ensures HistoryOk(h, attempts, now)
  {
    forall j | 0 <= j < |h.log|
      ensures ReplyOk(h, j, now)
    {
      assert ReplyOk(h, j, asked);
    }
  }

  // ---------------------------------------------- what each world step keeps

  /** A helper acted: one entry changed, the rest of the world did not. */
  lemma HelperActed(w: World, who: nat, h: Helper, now: set<Asked>)
    requires Inv(w) && who < |w.helpers| && w.asked <= now
    requires HelperOk(h, w.attempts, now, Rest(w, who))
    requires LogsOn(w.helpers[who], h)
    ensures Inv(w.(helpers := w.helpers[who := h], asked := now))
  {
    var v := w.(helpers := w.helpers[who := h], asked := now);
    hide HelperOk;
    forall i | 0 <= i < |v.helpers|
      ensures HelperOk(v.helpers[i], v.attempts, v.asked, Rest(v, i))
    {
      assert Rest(v, i) == Rest(w, i);
      if i != who {
        assert HelperOk(w.helpers[i], w.attempts, w.asked, Rest(w, i));
        MoreAcceptedOk(w.helpers[i], w.attempts, w.asked, now, Rest(w, i));
      }
    }
    assert HelpersOk(v);
    forall j | 0 <= j < |Last(v).log| - |Last(v).unread|
      ensures Last(v).log[j] == Last(w).log[j]
    {
    }
    assert Awaited(v);
  }

  lemma MoreAcceptedOk(h: Helper, attempts: seq<seq<byte>>, asked: set<Asked>,
        now: set<Asked>, rest: seq<byte>)
    requires HelperOk(h, attempts, asked, rest) && asked <= now
    ensures HelperOk(h, attempts, now, rest)
  {
    MoreAccepted(h, attempts, asked, now);
  }

  lemma HelperStepKeeps(w: World, e: Event)
    requires Inv(w) && Enabled(w, e) && (e.Read? || e.ReadEnds? || e.PamAnswers? || e.Dies?)
    ensures Inv(Step(w, e)) && Step(w, e).session == w.session
  {
    hide Inv, HelperOk, Enabled, Rest, Take, EndOfInput, Decide, SubmitStep, DispatchStep;
    hide Enter, Leave, TimerFired, SubmitEnd, PressKey, Judge, Presented;
    EnabledWho(w, e);
    HelperIsOk(w, e.who);
    var h, rest := w.helpers[e.who], Rest(w, e.who);
    match e {
      case Read(who, n, pamStarts) =>
        EnabledRead(w, who, n, pamStarts);
        TakeKeeps(h, n, pamStarts, w.attempts, w.asked, rest);
        TakeLogs(h, n, pamStarts);
        HelperActed(w, who, Take(h, n, pamStarts), w.asked);
      case ReadEnds(who) =>
        EnabledEnds(w, who);
        EndIsOk(h, w.attempts, w.asked, rest);
        EndLogs(h);
        HelperActed(w, who, EndOfInput(h), w.asked);
      case PamAnswers(who, run) =>
        EnabledPam(w, who, run);
        DecideKeeps(h, run, w.attempts, w.asked, rest);
        DecideLogs(h, run);
        HelperActed(w, who, Decide(h, run), w.asked + {Heard(h, run)});
      case Dies(who) =>
        DiesKeeps(h, w.attempts, w.asked, rest);
        HelperActed(w, who, h.(phase := Gone), w.asked);
    }
  }

  /** What is logged is logged, and what is new is unread. */
  predicate LogsOn(h: Helper, t: Helper) {
    |t.log| - |t.unread| == |h.log| - |h.unread| && h.log <= t.log
  }

  lemma TakeLogs(h: Helper, n: nat, pamStarts: bool)
    requires 1 <= n <= Wanted(h.phase) && n <= |h.inbox|
    ensures LogsOn(h, Take(h, n, pamStarts))
  {
    hide Feed, Overlong, HeaderSeq;
  }

  lemma EndLogs(h: Helper)
    ensures LogsOn(h, EndOfInput(h))
  {
  }

  lemma DecideLogs(h: Helper, run: PamRun)
    requires h.phase.Judging?
    ensures LogsOn(h, Decide(h, run))
  {
    hide Answer, Judge;
  }

  lemma EndIsOk(h: Helper, attempts: seq<seq<byte>>, asked: set<Asked>, rest: seq<byte>)
    requires HelperOk(h, attempts, asked, rest) && (h.phase.Heading? || h.phase.Reading?)
    ensures HelperOk(EndOfInput(h), attempts, asked, rest)
  {
    hide HistoryOk, Wire, EndOfInput;
    EndKeeps(h, attempts, asked);
  }

  lemma EnabledWho(w: World, e: Event)
    requires Enabled(w, e) && (e.Read? || e.ReadEnds? || e.PamAnswers? || e.Dies?)
    ensures e.who < |w.helpers|
  {
  }

  lemma HelperIsOk(w: World, i: nat)
    requires Inv(w) && i < |w.helpers|
    ensures HelperOk(w.helpers[i], w.attempts, w.asked, Rest(w, i))
  {
    hide HelperOk;
  }

  lemma EnabledRead(w: World, who: nat, n: nat, pamStarts: bool)
    requires Enabled(w, Read(who, n, pamStarts))
    ensures who < |w.helpers| && 1 <= n <= Wanted(w.helpers[who].phase) && n <= |w.helpers[who].inbox|
  {
  }

  lemma EnabledEnds(w: World, who: nat)
    requires Enabled(w, ReadEnds(who))
    ensures who < |w.helpers| && (w.helpers[who].phase.Heading? || w.helpers[who].phase.Reading?)
  {
  }

  lemma EnabledPam(w: World, who: nat, run: PamRun)
    requires Enabled(w, PamAnswers(who, run))
    ensures who < |w.helpers| && w.helpers[who].phase.Judging?
  {
  }

  lemma DiesKeeps(h: Helper, attempts: seq<seq<byte>>, asked: set<Asked>, rest: seq<byte>)
    requires HelperOk(h, attempts, asked, rest)
    ensures HelperOk(h.(phase := Gone), attempts, asked, rest)
  {
    HistoryOfSame(h, h.(phase := Gone), attempts, asked);
  }

  /** Steps that only touch the session. */
  lemma SessionOnly(w: World, s: Session)
    requires Inv(w) && Books(s) && IsPassword(s.typed) && s.nextSeq == w.session.nextSeq
    requires s.reqFd != -1 ==> w.session.reqFd != -1
    requires w.writing.None? && (s.source != -1 ==> w.session.source != -1)
    ensures Inv(w.(session := s))
  {
    var v := w.(session := s);
    hide HelperOk, Books, Lost;
    forall i | 0 <= i < |v.helpers|
      ensures HelperOk(v.helpers[i], v.attempts, v.asked, Rest(v, i))
    {
      assert HelperOk(w.helpers[i], w.attempts, w.asked, Rest(w, i));
    }
    assert HelpersOk(v);
    if v.helpers != [] {
      assert Last(v) == Last(w);
    }
    assert Awaited(v);
  }

  lemma KeyKeeps(w: World, key: Key)
    requires Inv(w) && Enabled(w, KeyPress(key))
    ensures Inv(Step(w, KeyPress(key)))
  {
    PressKeepsPassword(w.session.typed, key);
    PressKeepsLedger(w.session, key);
    SessionOnly(w, PressKey(w.session, key));
  }

  lemma TimerKeeps(w: World, exited: set<int>)
    requires Inv(w) && Enabled(w, Timer(exited))
    ensures Inv(Step(w, Timer(exited)))
  {
    TimerKeepsLedger(w.session, exited);
    SessionOnly(w, TimerFired(w.session, exited));
  }

  /** A longer list of submissions leaves what was in line in line. */
  lemma InStepLonger(p: Phase, rs: seq<Request>, r: Request, served: nat, consumed: seq<byte>)
    requires InStep(p, rs, served, consumed)
    ensures InStep(p, rs + [r], served, consumed)
  {
    assert (rs + [r])[..served] == rs[..served];
    if served < |rs| {
      assert (rs + [r])[..served + 1] == rs[..served + 1];
    }
  }

  /** Submitting to a helper whose pipe holds everything sent before. */
  lemma SentKeeps(h: Helper, r: Request, attempts: seq<seq<byte>>, asked: set<Asked>)
    requires HelperOk(h, attempts, asked, []) && r.seqNo == |attempts| + 1
    ensures HelperOk(h.(sent := h.sent + [r]), attempts + [r.password], asked, Frame(r))
  {
    SentHistory(h, r, attempts, asked);
    hide HistoryOk;
    SentStream(h, r);
  }

  lemma SentHistory(h: Helper, r: Request, attempts: seq<seq<byte>>, asked: set<Asked>)
    requires HistoryOk(h, attempts, asked) && r.seqNo == |attempts| + 1
    ensures HistoryOk(h.(sent := h.sent + [r]), attempts + [r.password], asked)
  {
    var t := h.(sent := h.sent + [r]);
    forall j | 0 <= j < |t.log|
      ensures ReplyOk(t, j, asked)
    {
      assert ReplyOk(h, j, asked);
    }
  }

  lemma SentStream(h: Helper, r: Request)
    requires StreamOk(h, [])
    ensures StreamOk(h.(sent := h.sent + [r]), Frame(r))
  {
    if !h.phase.Gone? {
      InStepLonger(h.phase, h.sent, r, |h.log|, h.consumed);
      assert (h.sent + [r])[..|h.sent|] == h.sent;
      assert Wire(h.sent + [r]) == Wire(h.sent) + Frame(r);
      hide InStep, Frame, Wire;
      assert h.consumed + h.inbox + [] == h.consumed + h.inbox;
    }
  }

  lemma MoreAttempts(h: Helper, attempts: seq<seq<byte>>, pw: seq<byte>, asked: set<Asked>)
    requires HelperOk(h, attempts, asked, [])
    ensures HelperOk(h, attempts + [pw], asked, [])
  {
    hide InStep;
    forall j | 0 <= j < |h.log|
      ensures ReplyOk(h, j, asked)
    {
    }
  }

  lemma FreshOk(attempts: seq<seq<byte>>, asked: set<Asked>)
    ensures HelperOk(FRESH, attempts, asked, [])
  {
  }

  lemma SubmitKeeps(w: World, start: Start, exited: set<int>, timerOk: bool, padding: seq<byte>)
    requires Inv(w) && Enabled(w, Submit(start, exited, timerOk, padding))
    ensures Inv(Step(w, Submit(start, exited, timerOk, padding)))
  {
    hide SubmitBegin, LegalBegin, Books, Lost, HelperOk, Frame;
    assert LegalBegin(w.session, start, exited, timerOk) && |padding| == 4 && |w.attempts| + 1 < SEQ_LIMIT
           && w.session.locked && w.writing.None?;
    assert Step(w, Submit(start, exited, timerOk, padding)) == SubmitStep(w, start, exited, timerOk, padding);
    hide Enabled, Step;
    SubmitBeginKeepsLedger(w.session, start, exited, timerOk);
    BeginKeepsSource(w.session, start, exited, timerOk);
    var b := SubmitBegin(w.session, start, exited, timerOk);
    if !b.proceeds {
      SessionOnly(w, b.session);
    } else {
      var helpers := if w.session.reqFd == -1 || w.helpers == [] then w.helpers + [FRESH] else w.helpers;
      WithFresh(w, helpers);
      Sent(w, b.session, helpers, padding);
    }
  }

  lemma WithFresh(w: World, helpers: seq<Helper>)
    requires HelpersOk(w) && w.writing.None? && (helpers == w.helpers || helpers == w.helpers + [FRESH])
    ensures forall i :: 0 <= i < |helpers| ==> HelperOk(helpers[i], w.attempts, w.asked, [])
  {
    FreshOk(w.attempts, w.asked);
    hide HelperOk;
    forall i | 0 <= i < |helpers|
      ensures HelperOk(helpers[i], w.attempts, w.asked, [])
    {
      if i < |w.helpers| {
        assert HelperOk(w.helpers[i], w.attempts, w.asked, Rest(w, i));
      }
    }
  }

  lemma Sent(w: World, s: Session, helpers: seq<Helper>, padding: seq<byte>)
    requires Inv(w) && w.session.locked && w.writing.None? && |padding| == 4 && |w.attempts| + 1 < SEQ_LIMIT
    requires helpers != [] && forall i :: 0 <= i < |helpers| ==> HelperOk(helpers[i], w.attempts, w.asked, [])
    requires Books(s) && s.locked && s.typed == w.session.typed && s.nextSeq == |w.attempts| + 1 && s.reqFd != -1
    ensures var last := |helpers| - 1;
            var r: Request := Submission(|w.attempts| + 1, w.session.typed, padding);
            Inv(w.(session := s, writing := Some(Frame(r)), attempts := w.attempts + [w.session.typed],
                   helpers := helpers[last := helpers[last].(sent := helpers[last].sent + [r])]))
  {
    var last := |helpers| - 1;
    var r: Request := Submission(|w.attempts| + 1, w.session.typed, padding);
    var v := w.(session := s, writing := Some(Frame(r)), attempts := w.attempts + [w.session.typed],
                helpers := helpers[last := helpers[last].(sent := helpers[last].sent + [r])]);
    SentKeeps(helpers[last], r, w.attempts, w.asked);
    OldNumbers(helpers[last], w.attempts, w.asked);
    hide HelperOk, Books, Lost;
    forall i | 0 <= i < |v.helpers|
      ensures HelperOk(v.helpers[i], v.attempts, v.asked, Rest(v, i))
    {
      if i < last {
        MoreAttempts(helpers[i], w.attempts, w.session.typed, w.asked);
      }
    }
    assert HelpersOk(v);
    assert Awaited(v) by {
      assert Last(v).log == helpers[last].log;
    }
  }

  lemma OldNumbers(h: Helper, attempts: seq<seq<byte>>, asked: set<Asked>)
    requires HelperOk(h, attempts, asked, [])
    ensures forall j :: 0 <= j < |h.log| ==> h.log[j].seqNo <= |attempts|
  {
    forall j | 0 <= j < |h.log|
      ensures h.log[j].seqNo <= |attempts|
    {
      assert ReplyOk(h, j, asked);
    }
  }

  // ---------------------------------------------------------- writing it out

  lemma WriteSomeKeeps(w: World, n: nat)
    requires Inv(w) && Enabled(w, WriteSome(n))
    ensures Inv(Step(w, WriteSome(n)))
  {
    var last := |w.helpers| - 1;
    var h, buf := Last(w), w.writing.value;
    var v := Step(w, WriteSome(n));
    assert HelperOk(h, w.attempts, w.asked, buf);
    WrittenKeeps(h, w.attempts, w.asked, buf, n);
    hide HelperOk, Books, Lost;
    forall i | 0 <= i < |v.helpers|
      ensures HelperOk(v.helpers[i], v.attempts, v.asked, Rest(v, i))
    {
      if i < last {
        assert HelperOk(w.helpers[i], w.attempts, w.asked, Rest(w, i));
      }
    }
    SameLogs(w, v);
  }

  lemma WrittenKeeps(h: Helper, attempts: seq<seq<byte>>, asked: set<Asked>, buf: seq<byte>, n: nat)
    requires HelperOk(h, attempts, asked, buf) && n <= |buf|
    ensures HelperOk(h.(inbox := h.inbox + buf[..n]), attempts, asked, buf[n..])
  {
    HistoryOfSame(h, h.(inbox := h.inbox + buf[..n]), attempts, asked);
    hide HistoryOk, InStep, Wire;
    assert buf == buf[..n] + buf[n..];
    assert h.consumed + (h.inbox + buf[..n]) + buf[n..] == h.consumed + h.inbox + (buf[..n] + buf[n..]);
  }

  /** Nothing Awaited depends on has changed. */
  lemma SameLogs(w: World, v: World)
    requires Inv(w) && HelpersOk(v) && v.session == w.session && v.attempts == w.attempts
    requires v.asked == w.asked
    requires v.helpers != [] && w.helpers != [] && Last(v).log == Last(w).log && Last(v).unread == Last(w).unread
    requires w.writing.Some? && v.writing.Some?
    ensures Inv(v)
  {
    hide HelpersOk, Books, Lost;
    assert Awaited(v);
  }

  lemma GoneWantsNothing(h: Helper, attempts: seq<seq<byte>>, asked: set<Asked>, rest: seq<byte>)
    requires h.phase.Gone? && HelperOk(h, attempts, asked, rest)
    ensures HelperOk(h, attempts, asked, [])
  {
  }

  lemma NothingWanted(w: World)
    requires HelpersOk(w) && w.helpers != [] && Last(w).phase.Gone? && w.writing.Some?
    ensures HelpersOk(w.(writing := Some([])))
  {
    var v := w.(writing := Some([]));
    hide HelperOk;
    forall i | 0 <= i < |v.helpers|
      ensures HelperOk(v.helpers[i], v.attempts, v.asked, Rest(v, i))
    {
      assert HelperOk(w.helpers[i], w.attempts, w.asked, Rest(w, i));
      if i == |v.helpers| - 1 {
        GoneWantsNothing(w.helpers[i], w.attempts, w.asked, Rest(w, i));
      }
    }
  }

  lemma WriteFailsKeeps(w: World)
    requires Inv(w) && Enabled(w, WriteFails)
    ensures Inv(Step(w, WriteFails))
  {
    hide HelpersOk, Books, Lost;
    NothingWanted(w);
    SameLogs(w, w.(writing := Some([])));
  }

  lemma WriteDoneKeeps(w: World, sourceOk: bool, exited: set<int>, timerOk: bool)
    requires Inv(w) && Enabled(w, WriteDone(sourceOk, exited, timerOk))
    ensures Inv(Step(w, WriteDone(sourceOk, exited, timerOk)))
  {
    var v := Step(w, WriteDone(sourceOk, exited, timerOk));
    SubmitEndKeepsLedger(w.session, sourceOk, exited, timerOk);
    EndFields(w.session, sourceOk, exited, timerOk);
    hide HelperOk, Books, Lost, SubmitEnd;
    forall i | 0 <= i < |v.helpers|
      ensures HelperOk(v.helpers[i], v.attempts, v.asked, Rest(v, i))
    {
      assert HelperOk(w.helpers[i], w.attempts, w.asked, Rest(w, i));
      assert Rest(v, i) == Rest(w, i);
    }
    assert HelpersOk(v);
    assert Last(v) == Last(w);
    assert Awaited(v);
  }

  lemma EndFields(s: Session, sourceOk: bool, exited: set<int>, timerOk: bool)
    ensures var t := SubmitEnd(s, sourceOk, exited, timerOk);
            t.typed == [] && t.nextSeq == s.nextSeq && t.locked == s.locked && (t.reqFd != -1 ==> s.reqFd != -1)
  {
  }

  // ------------------------------------------------------------- dispatching

  lemma {:induction false} DrainIsSuffix(replies: seq<Reply>, current: nat, hangup: bool)
    ensures var d := Drain(replies, current, hangup);
            && |d.left| <= |replies| && d.left == replies[|replies| - |d.left|..]
            && (d.adopted.Some? ==> d.adopted.value in replies && d.adopted.value.seqNo == current)
            && (!hangup && d.adopted.None? ==>
                  forall j :: 0 <= j < |replies| - |d.left| ==> replies[j].seqNo != current)
    decreases replies
  {
    if replies == [] || !hangup {
    } else {
      DrainIsSuffix(replies[1..], current, true);
    }
  }

  /** The reply the result handler adopts carries the current number and, if it
      succeeds, PAM accepted the current attempt's own password. */
  lemma AdoptedIsCurrent(w: World, hangup: bool)
    requires Inv(w) && w.helpers != []
    ensures var d := Drain(Last(w).unread, w.session.nextSeq, hangup);
            IsSuccess(d.adopted) ==> AcceptedAs(w, w.session.nextSeq)
  {
    var h := Last(w);
    var d := Drain(h.unread, w.session.nextSeq, hangup);
    DrainIsSuffix(h.unread, w.session.nextSeq, hangup);
    if IsSuccess(d.adopted) {
      var k :| 0 <= k < |h.unread| && h.unread[k] == d.adopted.value;
      var j := |h.log| - |h.unread| + k;
      assert HelperOk(h, w.attempts, w.asked, Rest(w, |w.helpers| - 1));
      assert h.log[j] == d.adopted.value;
      assert ReplyOk(h, j, w.asked);
      assert h.sent[j].seqNo == w.session.nextSeq;
    }
  }

  lemma DispatchKeeps(w: World, hangup: bool, env: Env)
    requires Inv(w) && Enabled(w, Dispatch(hangup, env))
    ensures Inv(Step(w, Dispatch(hangup, env)))
  {
    assert w.session.locked && w.writing.None? && w.session.source != -1 && w.helpers != [];
    assert Step(w, Dispatch(hangup, env)) == DispatchStep(w, hangup, env);
    var h := Last(w);
    var d := Drain(h.unread, w.session.nextSeq, hangup);
    assert HelperOk(h, w.attempts, w.asked, Rest(w, |w.helpers| - 1));
    hide Enabled, Step, Drain;
    DrainIsSuffix(h.unread, w.session.nextSeq, hangup);
    HandleResultKeepsLedger(w.session, d.adopted, hangup, env);
    ResultFields(w.session, d.adopted, hangup, env);
    DrainedKeeps(h, d.left, w.attempts, w.asked);
    hide HelperOk, Books, Lost, HandleResult;
    if d.adopted.None? && !hangup {
      AwaitedAfterStale(h, d.left, w.session.nextSeq);
    }
    Dispatched(w, HandleResult(w.session, d.adopted, hangup, env), d.left);
  }

  lemma Dispatched(w: World, s: Session, left: seq<Reply>)
    requires Inv(w) && w.helpers != [] && w.writing.None?
    requires HelperOk(Last(w).(unread := left), w.attempts, w.asked, [])
    requires Books(s) && s.typed == w.session.typed && s.nextSeq == w.session.nextSeq
    requires s.reqFd != -1 ==> w.session.reqFd != -1
    requires s.source != -1 ==>
               forall j :: 0 <= j < |Last(w).log| - |left| ==> Last(w).log[j].seqNo != w.session.nextSeq
    ensures Inv(WithLast(w, Last(w).(unread := left)).(session := s))
  {
    var v := WithLast(w, Last(w).(unread := left)).(session := s);
    hide HelperOk, Books, Lost;
    forall i | 0 <= i < |v.helpers|
      ensures HelperOk(v.helpers[i], v.attempts, v.asked, Rest(v, i))
    {
      if i < |w.helpers| - 1 {
        assert HelperOk(w.helpers[i], w.attempts, w.asked, Rest(w, i));
      }
    }
    assert HelpersOk(v);
    assert Last(v).log == Last(w).log && Last(v).unread == left;
    assert Awaited(v);
  }

  lemma DrainedKeeps(h: Helper, left: seq<Reply>, attempts: seq<seq<byte>>, asked: set<Asked>)
    requires HelperOk(h, attempts, asked, []) && |left| <= |h.unread| && left == h.unread[|h.unread| - |left|..]
    ensures HelperOk(h.(unread := left), attempts, asked, [])
  {
    var t := h.(unread := left);
    forall j | 0 <= j < |t.log|
      ensures ReplyOk(t, j, asked)
    {
      assert ReplyOk(h, j, asked);
    }
  }

  lemma AwaitedAfterStale(h: Helper, left: seq<Reply>, current: nat)
    requires |h.unread| <= |h.log| && h.unread == h.log[|h.log| - |h.unread|..] && |left| <= |h.unread|
    requires forall j :: 0 <= j < |h.log| - |h.unread| ==> h.log[j].seqNo != current
    requires forall j :: 0 <= j < |h.unread| - |left| ==> h.unread[j].seqNo != current
    ensures forall j :: 0 <= j < |h.log| - |left| ==> h.log[j].seqNo != current
  {
    forall j | |h.log| - |h.unread| <= j < |h.log| - |left|
      ensures h.log[j].seqNo != current
    {
      assert h.log[j] == h.unread[j - (|h.log| - |h.unread|)];
    }
  }

  lemma ResultFields(s: Session, adopted: Option<Reply>, hangup: bool, env: Env)
    ensures var t := HandleResult(s, adopted, hangup, env);
            && t.typed == s.typed && t.nextSeq == s.nextSeq && (t.reqFd != -1 ==> s.reqFd != -1)
            && (adopted.Some? || hangup ==> t.source == -1)
            && (adopted.None? && !hangup ==> t == s)
  {
    var t := s.(source := -1);
    ReapFields(t, env.exited, env.timerOk);
    var u := if IsTerminal(adopted, hangup) then CloseBoth(ReapDeferred(t, env.exited, env.timerOk)) else t;
    ReapFields(CloseBoth(u.(source := -1)), env.exitedAfter, env.timerOkAfter);
    hide ReapDeferred, Drawn;
  }

  /** Lock entry, whatever helper it started. */
  lemma LockedKeeps(w: World, s: Session, helpers: seq<Helper>)
    requires Inv(w) && w.writing.None? && (helpers == w.helpers || helpers == w.helpers + [FRESH])
    requires Books(s) && s.typed == [] && s.nextSeq == w.session.nextSeq && s.source == -1
    requires s.reqFd != -1 ==> helpers != []
    ensures Inv(w.(session := s, helpers := helpers))
  {
    hide HelperOk, Books, Lost;
    var v := w.(session := s, helpers := helpers);
    WithFresh(w, helpers);
    forall i | 0 <= i < |v.helpers|
      ensures HelperOk(v.helpers[i], v.attempts, v.asked, Rest(v, i))
    {
      assert Rest(v, i) == [];
    }
    assert HelpersOk(v) && Awaited(v);
  }

  lemma EnterFields(s: Session, start: Start)
    requires Books(s) && !s.locked
    ensures var t := Enter(s, start);
            && t.typed == [] && t.nextSeq == s.nextSeq && t.source == -1
            && (!start.Started? ==> t.reqFd == -1)
  {
  }

  lemma CancelKeeps(w: World, exited: set<int>, timerOk: bool)
    requires Inv(w) && Enabled(w, ModeCancelled(exited, timerOk))
    ensures Inv(Step(w, ModeCancelled(exited, timerOk)))
  {
    LeaveKeepsLedger(w.session, exited, timerOk);
    LeaveFields(w.session, exited, timerOk);
    hide Leave;
    SessionOnly(w, Leave(w.session, exited, timerOk));
  }

  lemma LeaveFields(s: Session, exited: set<int>, timerOk: bool)
    ensures var t := Leave(s, exited, timerOk);
            t.typed == s.typed && t.nextSeq == s.nextSeq && t.reqFd == -1 && t.source == -1
  {
    ReapFields(CloseBoth(s.(source := -1)), exited, timerOk);
    hide ReapDeferred;
  }

  /** Every step of the protocol keeps the invariant. */
  lemma StepKeeps(w: World, e: Event)
    requires Inv(w) && Enabled(w, e)
    ensures Inv(Step(w, e))
  {
    if e.Lock? {
      hide HelpersOk, Awaited, Lost, Enter, LegalStart;
      EnterKeepsBooks(w.session, e.start);
      EnterFields(w.session, e.start);
      hide Inv, Books;
      LockedKeeps(w, Enter(w.session, e.start), if e.start.Started? then w.helpers + [FRESH] else w.helpers);
    } else {
      hide Inv, Step, Enabled;
      match e {
        case KeyPress(key) => KeyKeeps(w, key);
        case Submit(start, exited, timerOk, padding) => SubmitKeeps(w, start, exited, timerOk, padding);
        case WriteSome(n) => WriteSomeKeeps(w, n);
        case WriteFails => WriteFailsKeeps(w);
        case WriteDone(sourceOk, exited, timerOk) => WriteDoneKeeps(w, sourceOk, exited, timerOk);
        case Dispatch(hangup, env) => DispatchKeeps(w, hangup, env);
        case Timer(exited) => TimerKeeps(w, exited);
        case ModeCancelled(exited, timerOk) => CancelKeeps(w, exited, timerOk);
        case _ => HelperStepKeeps(w, e);
      }
    }
  }

  // ------------------------------------------------------------- whole runs

  /** `ws` is a run: it starts before the first lock and every step was enabled. */
  ghost predicate IsRun(ws: seq<World>, es: seq<Event>) {
    && |ws| == |es| + 1 && Initial(ws[0])
    && forall i :: 0 <= i < |es| ==> Follows(ws[i], es[i], ws[i + 1])
  }

  ghost predicate Follows(w: World, e: Event, v: World) {
    Enabled(w, e) && v == Step(w, e)
  }

  lemma {:induction false} RunInv(ws: seq<World>, es: seq<Event>, i: nat)
    requires IsRun(ws, es) && i < |ws|
    ensures Inv(ws[i])
    decreases i
  {
    hide Inv, Step, Enabled;
    if i == 0 {
      InitialInv(ws[0]);
    } else {
      RunInv(ws, es, i - 1);
      assert Follows(ws[i - 1], es[i - 1], ws[i]);
      StepKeeps(ws[i - 1], es[i - 1]);
    }
  }

  /** A dispatch would adopt a success. */
  predicate Adopts(w: World, hangup: bool) {
    w.helpers != [] && IsSuccess(Drain(Last(w).unread, w.session.nextSeq, hangup).adopted)
  }

  /** Safety over whole runs, however submissions, partial writes, verdicts,
      deaths, restarts and dispatches interleave. The result handler leaves lock
      mode exactly when it adopts a success, and then PAM was asked about exactly
      the password of the most recently submitted attempt under that attempt's
      number, authenticated it and let the account be used. No other step of the
      lock screen leaves it; what does is code elsewhere that cancels the current
      mode, whatever PAM has said. */
  lemma UnlocksOnlyOnCurrentPassword(ws: seq<World>, es: seq<Event>, i: nat)
    requires IsRun(ws, es) && i < |es| && ws[i].session.locked
    ensures !ws[i + 1].session.locked <==>
            es[i].ModeCancelled? || (es[i].Dispatch? && Adopts(ws[i], es[i].hangup))
    ensures es[i].Dispatch? && !ws[i + 1].session.locked ==>
              var w := ws[i];
              w.attempts != [] &&
              exists a :: a in w.asked && a.seqNo == |w.attempts| && a.password == w.attempts[|w.attempts| - 1] &&
                          a.auth == SUCCESS && (a.acct == SUCCESS || a.acct == NEW_AUTHTOK_REQD)
  {
    RunInv(ws, es, i);
    var w, e := ws[i], es[i];
    assert Follows(w, e, ws[i + 1]);
    if e.Dispatch? {
      AdoptedIsCurrent(w, e.hangup);
      var d := Drain(Last(w).unread, w.session.nextSeq, e.hangup);
      HandleResultKeepsLedger(w.session, d.adopted, e.hangup, e.env);
      assert AcceptedAs(w, |w.attempts|) <== IsSuccess(d.adopted);
    } else {
      StaysLocked(w, e);
    }
  }

  lemma StaysLocked(w: World, e: Event)
    requires Inv(w) && Enabled(w, e) && !e.Dispatch? && w.session.locked
    ensures Step(w, e).session.locked <==> !e.ModeCancelled?
  {
    match e {
      case Submit(start, exited, timerOk, padding) => SubmitBeginKeepsLedger(w.session, start, exited, timerOk);
      case WriteDone(sourceOk, exited, timerOk) => EndFields(w.session, sourceOk, exited, timerOk);
      case _ =>
    }
  }

  /** Cancelled from elsewhere: nothing submitted, nothing accepted, and the lock
      is left. */
  lemma CancelLeavesUnasked() returns (ws: seq<World>, es: seq<Event>)
    ensures IsRun(ws, es) && |es| == 2 && ws[1].session.locked && !ws[2].session.locked
    ensures ws[2].attempts == [] && ws[2].asked == {}
  {
    var w0 := World(Session([], 0, -1, seq(MAX_PENDING, _ => 0), -1, -1, -1, false, false, Idle, [], {}, {}),
                    None, [], [], {});
    var lock, cancel := Lock(NoPipe), ModeCancelled({}, false);
    var w1 := Step(w0, lock);
    var w2 := Step(w1, cancel);
    ws, es := [w0, w1, w2], [lock, cancel];
    assert Follows(ws[0], es[0], ws[1]) && Follows(ws[1], es[1], ws[2]);
    assert IsRun(ws, es);
  }

  /** The children a step loses. */
  ghost function LostBy(w: World, e: Event): set<int> {
    if e.Lock? then Overwritten(w.session, e.start) else {}
  }

  lemma StepLoses(w: World, e: Event)
    requires Inv(w) && Enabled(w, e)
    ensures Lost(Step(w, e).session) == Lost(w.session) + LostBy(w, e)
  {
    hide Lost, HelpersOk, Awaited, SubmitBegin, SubmitEnd, HandleResult, TimerFired, Enter, Leave, PressKey;
    hide Drain, Take, EndOfInput, Decide, Frame, Overwritten, Judge, Presented, IsPassword;
    match e {
      case KeyPress(key) => PressKeepsLedger(w.session, key);
      case Submit(start, exited, timerOk, padding) => SubmitBeginKeepsLedger(w.session, start, exited, timerOk);
      case WriteDone(sourceOk, exited, timerOk) => SubmitEndKeepsLedger(w.session, sourceOk, exited, timerOk);
      case Dispatch(hangup, env) =>
        HandleResultKeepsLedger(w.session, Drain(Last(w).unread, w.session.nextSeq, hangup).adopted, hangup, env);
      case Timer(exited) => TimerKeepsLedger(w.session, exited);
      case Lock(start) => EnterKeepsBooks(w.session, start);
      case ModeCancelled(exited, timerOk) => LeaveKeepsLedger(w.session, exited, timerOk);
      case _ =>
    }
  }

  /** Descriptors and children over whole runs: the books are always right, and
      every child is held in exactly one place as long as, and only as long as,
      no lock entry has overwritten an outstanding one. */
  lemma {:induction false} LedgerHolds(ws: seq<World>, es: seq<Event>, i: nat)
    requires IsRun(ws, es) && i < |ws|
    ensures Books(ws[i].session) && (ws[i].session.reqFd != -1 <==> ws[i].session.repFd != -1)
    ensures Ledger(ws[i].session) <==> forall k :: 0 <= k < i ==> LostBy(ws[k], es[k]) == {}
    decreases i
  {
    RunInv(ws, es, i);
    if i == 0 {
      InitialInv(ws[0]);
    } else {
      LedgerHolds(ws, es, i - 1);
      RunInv(ws, es, i - 1);
      assert Follows(ws[i - 1], es[i - 1], ws[i]);
      StepLoses(ws[i - 1], es[i - 1]);
    }
  }

  // ------------------------------------------------- dispatch is complete

  /** Replies to one attempt are unique, so draining after a hangup adopts the
      current attempt's reply exactly when it is in the pipe, whatever precedes
      it; a plain dispatch takes exactly one reply. */
  lemma {:induction false} DrainFinds(replies: seq<Reply>, current: nat, k: nat)
    requires k < |replies| && replies[k].seqNo == current
    requires forall i, j :: 0 <= i < j < |replies| ==> replies[i].seqNo < replies[j].seqNo
    ensures Drain(replies, current, true) == Drained(Some(replies[k]), [])
    decreases replies
  {
    if k == 0 {
      DrainMisses(replies[1..], current);
    } else {
      DrainFinds(replies[1..], current, k - 1);
    }
  }

  lemma {:induction false} DrainMisses(replies: seq<Reply>, current: nat)
    requires forall j :: 0 <= j < |replies| ==> replies[j].seqNo != current
    ensures Drain(replies, current, true) == Drained(None, [])
    decreases replies
  {
    if replies == [] {
    } else {
      DrainMisses(replies[1..], current);
    }
  }

  lemma UnreadAscends(h: Helper, attempts: seq<seq<byte>>, asked: set<Asked>)
    requires HistoryOk(h, attempts, asked)
    ensures forall i, j :: 0 <= i < j < |h.unread| ==> h.unread[i].seqNo < h.unread[j].seqNo
  {
    var base := |h.log| - |h.unread|;
    forall i, j | 0 <= i < j < |h.unread|
      ensures h.unread[i].seqNo < h.unread[j].seqNo
    {
      assert ReplyOk(h, base + i, asked) && ReplyOk(h, base + j, asked);
      assert h.unread[i] == h.log[base + i] && h.unread[j] == h.log[base + j];
    }
  }

  /** An accepted current attempt is never shown as denied: if the helper has
      answered it with success, a hangup dispatch unlocks however many stale
      replies come first, and a plain dispatch either unlocks or throws one
      stale reply away and leaves the session as it was. */
  lemma AcceptedIsNeverDenied(ws: seq<World>, es: seq<Event>, i: nat, j: nat)
    requires IsRun(ws, es) && i < |es| && es[i].Dispatch? && ws[i].helpers != [] && j < |Last(ws[i]).log|
    requires Last(ws[i]).log[j].success && Last(ws[i]).log[j].seqNo == ws[i].session.nextSeq
    ensures es[i].hangup ==> !ws[i + 1].session.locked
    ensures !es[i].hangup ==>
              || !ws[i + 1].session.locked
              || (ws[i + 1].session == ws[i].session && Last(ws[i + 1]).unread == Last(ws[i]).unread[1..])
  {
    RunInv(ws, es, i);
    var w, e, h := ws[i], es[i], Last(ws[i]);
    assert Follows(w, e, ws[i + 1]);
    assert HelperOk(h, w.attempts, w.asked, Rest(w, |w.helpers| - 1));
    UnreadAscends(h, w.attempts, w.asked);
    var k := j - (|h.log| - |h.unread|);
    assert h.unread[k] == h.log[j];
    var d := Drain(h.unread, w.session.nextSeq, e.hangup);
    HandleResultKeepsLedger(w.session, d.adopted, e.hangup, e.env);
    if e.hangup {
      DrainFinds(h.unread, w.session.nextSeq, k);
    } else if k > 0 {
      assert h.unread[0].seqNo < h.unread[k].seqNo;
      assert d == Drained(None, h.unread[1..]);
    }
  }

  /** What turns the screen to denied: the event loop refuses to watch for the
      reply, or a submission gets nowhere. */
  predicate Denies(w: World, e: Event) {
    match e
    case WriteDone(sourceOk, _, _) => !sourceOk
    case Submit(start, exited, timerOk, _) => !SubmitBegin(w.session, start, exited, timerOk).proceeds
    case _ => false
  }

  /** Over all events: with a success for the current attempt written by the
      helper, exactly those two turn the screen to denied. */
  lemma AcceptedIsDeniedIff(ws: seq<World>, es: seq<Event>, i: nat, j: nat)
    requires IsRun(ws, es) && i < |es| && ws[i].session.locked && ws[i].helpers != [] && j < |Last(ws[i]).log|
    requires Last(ws[i]).log[j].success && Last(ws[i]).log[j].seqNo == ws[i].session.nextSeq
    requires ws[i].session.shown != Denied
    ensures ws[i + 1].session.locked && ws[i + 1].session.shown == Denied <==> Denies(ws[i], es[i])
  {
    RunInv(ws, es, i);
    assert Follows(ws[i], es[i], ws[i + 1]);
    if es[i].Dispatch? {
      AcceptedIsNeverDenied(ws, es, i, j);
    } else {
      hide Leave, TimerFired, Books, Lost, HelpersOk, Awaited;
      DeniedBy(ws[i], es[i]);
    }
  }

  lemma DeniedBy(w: World, e: Event)
    requires Inv(w) && Enabled(w, e) && !e.Dispatch? && w.session.locked && w.session.shown != Denied
    ensures Step(w, e).session.locked && Step(w, e).session.shown == Denied <==> Denies(w, e)
  {
    hide HelpersOk, Awaited, Take, EndOfInput, Decide, Frame, ReapDeferred, Books, Lost;
    match e {
      case Submit(start, exited, timerOk, padding) =>
        SubmitBeginKeepsLedger(w.session, start, exited, timerOk);
      case WriteDone(sourceOk, exited, timerOk) =>
        EndFields(w.session, sourceOk, exited, timerOk);
      case ModeCancelled(exited, timerOk) =>
        LeaveKeepsLedger(w.session, exited, timerOk);
      case _ =>
    }
  }
}
