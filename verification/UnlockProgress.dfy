/**
  The lock screen is never wedged: whatever has happened before, there is a way
  on from every locked state that ends unlocked once PAM accepts, without any
  help from outside the lock screen.
 */
module UnlockProgress {
  import opened Utf8
  import opened PasswordField
  import opened UnlockWire
  import opened Unlocker
  import opened LockSession
  import opened UnlockProtocol
  import opened Options

  /** `es` can happen one after another from `w`, and leave `v`. */
  ghost predicate Leads(w: World, es: seq<Event>, v: World)
    decreases |es|
  {
    if es == [] then v == w else Enabled(w, es[0]) && Leads(Step(w, es[0]), es[1..], v)
  }

  /** Nothing outside the lock screen takes it down. */
  ghost predicate Undisturbed(es: seq<Event>) {
    forall i :: 0 <= i < |es| ==> !es[i].ModeCancelled?
  }

  ghost predicate Onward(w: World, es: seq<Event>, v: World) {
    Leads(w, es, v) && Undisturbed(es)
  }

  lemma OneStep(w: World, e: Event)
    requires Enabled(w, e) && !e.ModeCancelled?
    ensures Onward(w, [e], Step(w, e))
  {
    hide Enabled, Step;
    assert Leads(Step(w, e), [e][1..], Step(w, e));
  }

  lemma NoStep(w: World)
    ensures Onward(w, [], w)
  {
  }

  lemma {:induction false} FurtherLeads(w: World, es: seq<Event>, v: World, more: seq<Event>, u: World)
    requires Leads(w, es, v) && Leads(v, more, u)
    ensures Leads(w, es + more, u)
    decreases |es|
  {
    hide Enabled, Step;
    if es == [] {
      assert es + more == more;
    } else {
      FurtherLeads(Step(w, es[0]), es[1..], v, more, u);
      assert (es + more)[1..] == es[1..] + more;
    }
  }

  lemma Further(w: World, es: seq<Event>, v: World, more: seq<Event>, u: World)
    requires Onward(w, es, v) && Onward(v, more, u)
    ensures Onward(w, es + more, u)
  {
    hide Leads;
    FurtherLeads(w, es, v, more, u);
  }

  lemma AndThen(w: World, es: seq<Event>, v: World, e: Event)
    requires Onward(w, es, v) && Enabled(v, e) && !e.ModeCancelled?
    ensures Onward(w, es + [e], Step(v, e))
  {
    hide Onward, Enabled, Step;
    OneStep(v, e);
    Further(w, es, v, [e], Step(v, e));
  }

  lemma {:induction false} InvLater(w: World, es: seq<Event>, v: World)
    ensures Inv(w) && Leads(w, es, v) ==> Inv(v)
    decreases |es|
  {
    hide Inv, Enabled, Step;
    if es == [] || !Inv(w) || !Leads(w, es, v) {
    } else {
      StepKeeps(w, es[0]);
      InvLater(Step(w, es[0]), es[1..], v);
    }
  }

  lemma OnwardInv(w: World, es: seq<Event>, v: World)
    ensures Inv(w) && Onward(w, es, v) ==> Inv(v)
  {
    hide Inv, Leads;
    InvLater(w, es, v);
  }

  // ------------------------------------------------------ clearing the way

  /** Locked, and the event loop is not inside the write loop. */
  ghost predicate AtRest(w: World) { Inv(w) && w.session.locked && w.writing.None? }

  lemma FinishWriting(w: World) returns (es: seq<Event>, v: World)
    requires Inv(w) && w.session.locked
    ensures Onward(w, es, v) && AtRest(v) && v.attempts == w.attempts
  {
    es, v := [], w;
    NoStep(w);
    if w.writing.Some? {
      if w.writing.value != [] {
        es, v := WriteItAll(w);
      }
      var e := WriteDone(true, {}, false);
      hide Onward, Inv;
      AndThen(w, es, v, e);
      EndFields(v.session, true, {}, false);
      es, v := es + [e], Step(v, e);
      OnwardInv(w, es, v);
    }
  }

  lemma WriteItAll(w: World) returns (es: seq<Event>, v: World)
    requires w.writing.Some? && w.writing.value != [] && w.helpers != []
    ensures Onward(w, es, v) && v.writing == Some([])
    ensures v == WithLast(w, Last(w).(inbox := Last(w).inbox + w.writing.value)).(writing := Some([]))
  {
    var e := WriteSome(|w.writing.value|);
    es, v := [e], Step(w, e);
    OneStep(w, e);
    var buf := w.writing.value;
    assert buf[..|buf|] == buf && buf[|buf|..] == [];
  }

  /** Whatever pipes are open come down: the helper dies, the next attempt finds
      nobody reading, and its hangup is dispatched. */
  lemma DropPipes(w: World) returns (es: seq<Event>, v: World)
    requires AtRest(w) && |w.attempts| + 1 < SEQ_LIMIT
    ensures Onward(w, es, v) && AtRest(v) && v.session.reqFd == -1
    ensures |w.attempts| <= |v.attempts| <= |w.attempts| + 1
  {
    es, v := [], w;
    NoStep(w);
    if w.session.reqFd != -1 {
      var v1, v2;
      es, v1 := DieUnread(w);
      v2 := v1.(writing := Some([]));
      hide Onward, Inv;
      AndThen(w, es, v1, WriteFails);
      es := es + [WriteFails];
      var before := es;
      var done := WriteDone(true, {}, false);
      AndThen(w, es, v2, done);
      es := es + [done];
      OnwardInv(w, before, v2);
      HangsUp(v2);
      var v3 := Step(v2, done);
      var hung := Dispatch(true, Env(v3.session.children, false, {}, false));
      AndThen(w, es, v3, hung);
      es, v := es + [hung], Step(v3, hung);
      OnwardInv(w, es, v);
    }
  }

  /** A helper that is gone has answered none of what is sent to it afterwards. */
  ghost predicate Orphaned(w: World) {
    && w.session.locked && w.writing.Some? && w.helpers != [] && Last(w).phase.Gone? && w.session.reqFd != -1
    && forall j :: 0 <= j < |Last(w).log| ==> Last(w).log[j].seqNo != w.session.nextSeq
  }

  const RETRY := Submit(NoPipe, {}, false, [0, 0, 0, 0])

  lemma DieUnread(w: World) returns (es: seq<Event>, v: World)
    requires AtRest(w) && w.session.reqFd != -1 && |w.attempts| + 1 < SEQ_LIMIT
    ensures Onward(w, es, v) && Orphaned(v) && v.writing.value != [] && |v.attempts| == |w.attempts| + 1
  {
    hide Onward, Inv, Step, Enabled, Orphaned;
    OpenHasHelper(w);
    var dies := Dies(|w.helpers| - 1);
    LastDies(w);
    NoStep(w);
    AndThen(w, [], w, dies);
    OnwardInv(w, [] + [dies], Step(w, dies));
    SubmitsUnread(Step(w, dies));
    AndThen(w, [] + [dies], Step(w, dies), RETRY);
    es, v := [] + [dies] + [RETRY], Step(Step(w, dies), RETRY);
  }

  lemma OpenHasHelper(w: World)
    requires Inv(w) && w.session.reqFd != -1
    ensures w.helpers != [] && w.session.repFd != -1
  {
  }

  lemma LastDies(w: World)
    requires w.helpers != []
    ensures var last := |w.helpers| - 1;
            && Enabled(w, Dies(last))
            && Step(w, Dies(last)) == w.(helpers := w.helpers[last := Last(w).(phase := Gone)])
  {
  }

  lemma SubmitsUnread(w: World)
    requires AtRest(w) && w.session.reqFd != -1 && w.helpers != [] && Last(w).phase.Gone?
    requires |w.attempts| + 1 < SEQ_LIMIT
    ensures Enabled(w, RETRY)
    ensures var v := Step(w, RETRY); Orphaned(v) && v.writing.value != [] && |v.attempts| == |w.attempts| + 1
  {
    hide HelperOk, InStep;
    NoPipeIsLegal(Parked(w.session, {}, false));
    OpenHasHelper(w);
    HelperIsOk(w, |w.helpers| - 1);
    OldNumbers(Last(w), w.attempts, w.asked);
    var v := Step(w, RETRY);
    assert v == SubmitStep(w, NoPipe, {}, false, [0, 0, 0, 0]);
    assert Last(v).log == Last(w).log && Last(v).phase == Last(w).phase;
  }

  /** Its hangup closes both pipes, collects what has exited and stays locked. */
  lemma HangsUp(w: World)
    requires Inv(w) && Orphaned(w) && w.writing == Some([])
    ensures Enabled(w, WriteDone(true, {}, false))
    ensures var v := Step(w, WriteDone(true, {}, false));
            var hung := Dispatch(true, Env(v.session.children, false, {}, false));
            && Enabled(v, hung) && Step(v, hung).session.locked && Step(v, hung).writing.None?
            && Step(v, hung).session.reqFd == -1 && Step(v, hung).attempts == w.attempts
  {
    hide HelperOk;
    OpenHasHelper(w);
    HelperIsOk(w, |w.helpers| - 1);
    var v := Step(w, WriteDone(true, {}, false));
    assert v == w.(session := ClearBuffer(w.session).(source := w.session.repFd), writing := None);
    hide Inv, Step, Enabled;
    HangupOf(v, Env(v.session.children, false, {}, false));
  }

  lemma HangupOf(w: World, env: Env)
    requires w.session.locked && w.writing.None? && w.session.source != -1 && w.helpers != [] && Last(w).phase.Gone?
    requires exists rest :: HelperOk(Last(w), w.attempts, w.asked, rest)
    requires forall j :: 0 <= j < |Last(w).log| ==> Last(w).log[j].seqNo != w.session.nextSeq
    ensures Enabled(w, Dispatch(true, env))
    ensures var v := Step(w, Dispatch(true, env));
            v.session.locked && v.writing.None? && v.session.reqFd == -1 && v.attempts == w.attempts
  {
    var rest :| HelperOk(Last(w), w.attempts, w.asked, rest);
    UnreadFromLog(Last(w), w.attempts, w.asked);
    DrainMisses(Last(w).unread, w.session.nextSeq);
    hide HandleResult, HelperOk, Drain;
    HangupCloses(w.session, env);
    assert Step(w, Dispatch(true, env)) == DispatchStep(w, true, env);
  }

  lemma HangupCloses(s: Session, env: Env)
    requires s.locked
    ensures var t := HandleResult(s, None, true, env); t.locked && t.reqFd == -1
  {
    hide ReapDeferred;
    ReapFields(s.(source := -1), env.exited, env.timerOk);
  }

  lemma UnreadFromLog(h: Helper, attempts: seq<seq<byte>>, asked: set<Asked>)
    requires HistoryOk(h, attempts, asked)
    ensures forall j :: 0 <= j < |h.unread| ==> h.unread[j] == h.log[|h.log| - |h.unread| + j]
  {
  }

  /** With the pending table full one more attempt is denied, which collects what
      has exited: the next one finds room. */
  lemma FindRoom(w: World) returns (es: seq<Event>, v: World)
    requires AtRest(w) && w.session.reqFd == -1 && |w.attempts| + 1 < SEQ_LIMIT
    ensures Onward(w, es, v) && AtRest(v) && v.session.reqFd == -1 && v.attempts == w.attempts
    ensures v.session.lockerPid <= 0 || Defer(v.session) != v.session
  {
    es, v := [], w;
    NoStep(w);
    var s := w.session;
    if s.lockerPid > 0 && Defer(s) == s {
      var submit := Submit(NoPipe, s.children, false, [0, 0, 0, 0]);
      NoPipeIsLegal(Parked(s, s.children, false));
      AndThen(w, [], w, submit);
      es, v := [] + [submit], Step(w, submit);
      assert Held(s, s.lockerPid);
      hide Inv, Onward;
      OnwardInv(w, es, v);
      ReapFields(ClearBuffer(s), s.children, false);
    }
  }

  // ------------------------------------------------------- one more attempt

  /** Of a world, all that key presses leave alone. */
  predicate SameButTyped(w: World, v: World) {
    v == w.(session := w.session.(typed := v.session.typed, shown := v.session.shown, message := v.session.message))
  }

  lemma {:induction false} Retype(w: World, keys: seq<Key>) returns (es: seq<Event>, v: World)
    requires AtRest(w) && IsHistory(keys)
    ensures Onward(w, es, v) && AtRest(v) && SameButTyped(w, v) && v.session.typed == Typed(keys)
    decreases |keys|
  {
    hide Onward, Inv;
    var v0;
    if keys == [] {
      es, v0 := [], w;
      NoStep(w);
      OneKey(v0, Clear);
      AndThen(w, es, v0, KeyPress(Clear));
      es, v := es + [KeyPress(Clear)], Step(v0, KeyPress(Clear));
    } else {
      var front, key := keys[..|keys| - 1], keys[|keys| - 1];
      es, v0 := Retype(w, front);
      OneKey(v0, key);
      AndThen(w, es, v0, KeyPress(key));
      es, v := es + [KeyPress(key)], Step(v0, KeyPress(key));
    }
    OnwardInv(w, es, v);
  }

  lemma OneKey(w: World, key: Key)
    requires w.session.locked && w.writing.None? && (key.Char? ==> key.codepoint < 0x1_0000_0000)
    ensures Enabled(w, KeyPress(key))
    ensures var v := Step(w, KeyPress(key)); SameButTyped(w, v) && v.session.typed == Press(w.session.typed, key)
  {
  }

  lemma {:induction false} FreshPid(children: set<int>) returns (pid: int)
    ensures pid > 0 && forall c :: c in children ==> c < pid
  {
    if c :| c in children {
      var q := FreshPid(children - {c});
      pid := if c < q then q else c + 1;
      forall d | d in children
        ensures d < pid
      {
        assert d == c || d in children - {c};
      }
    } else {
      pid := 1;
    }
  }

  const GRANT := PamRun(SUCCESS, [], SUCCESS, [], [])

  /** With no pipes and room for the last child, an attempt starts a helper. */
  lemma SubmitsAfresh(w: World, pid: int)
    requires AtRest(w) && w.session.reqFd == -1 && |w.attempts| + 1 < SEQ_LIMIT
    requires w.session.lockerPid <= 0 || Defer(w.session) != w.session
    requires pid > 0 && pid !in w.session.children
    ensures var e := Submit(Started(pid, 0, 1), {}, false, [0, 0, 0, 0]);
            && Enabled(w, e) && IsPassword(w.session.typed)
            && var v, r: Request := Step(w, e), Submission(|w.attempts| + 1, w.session.typed, [0, 0, 0, 0]);
            && v.session.locked && v.session.reqFd == 0 && v.session.repFd == 1 && v.session.nextSeq == r.seqNo
            && v.writing == Some(Frame(r)) && v.helpers == w.helpers + [FRESH.(sent := [r])]
            && v.attempts == w.attempts + [w.session.typed]
  {
    hide HelperOk, InStep, IsPassword, ReapDeferred, Defer, Header;
    var s := w.session;
    NoPipesOpen(s);
    ParkedFields(s);
    assert w.session.nextSeq == |w.attempts|;
    var e := Submit(Started(pid, 0, 1), {}, false, [0, 0, 0, 0]);
    var v := Step(w, e);
    assert v == SubmitStep(w, Started(pid, 0, 1), {}, false, [0, 0, 0, 0]);
    var r: Request := Submission(|w.attempts| + 1, s.typed, [0, 0, 0, 0]);
    assert FRESH.sent + [r] == [r];
    assert (w.helpers + [FRESH])[|w.helpers| := FRESH.(sent := [r])] == w.helpers + [FRESH.(sent := [r])];
  }

  lemma ParkedFields(s: Session)
    requires Books(s) && s.locked && s.reqFd == -1 && (s.lockerPid <= 0 || Defer(s) != s)
    ensures var t := Parked(s, {}, false);
            t.children <= s.children && t.open == s.open && t.locked && t.nextSeq == s.nextSeq && t.typed == s.typed
  {
    ParkedKeepsLedger(s, {}, false);
  }

  /** The helper on its own: it reads the one frame in its pipe and is asked. */
  lemma HelperReads(h: Helper, r: Request)
    requires h == FRESH.(sent := [r], inbox := Frame(r))
    ensures var t := Take(h, HEADER_SIZE, true);
            && |t.inbox| == |r.password| && t.log == t.unread == []
            && if r.password == [] then t.phase == Judging(r.seqNo, [])
               else t.phase == Reading(r.seqNo, |r.password|, []) && Asked(Take(t, |r.password|, true), r)
  {
    HeaderRoundTrip(r);
    hide HeaderSeq, HeaderLen, Header;
    assert Frame(r)[..HEADER_SIZE] == Header(r) && Frame(r)[HEADER_SIZE..] == r.password;
    assert [] + Header(r) == Header(r) && [] + r.password == r.password;
    assert r.password[..|r.password|] == r.password;
  }

  predicate Asked(h: Helper, r: Request) {
    h.phase == Judging(r.seqNo, r.password) && h.log == h.unread == []
  }

  lemma ReadsItAll(w: World, r: Request) returns (es: seq<Event>, v: World)
    requires w.helpers != [] && Last(w) == FRESH.(sent := [r], inbox := Frame(r))
    ensures Onward(w, es, v) && v.helpers != [] && Asked(Last(v), r)
    ensures v == w.(helpers := v.helpers)
  {
    hide Onward, Take, Frame;
    var last := |w.helpers| - 1;
    HelperReads(Last(w), r);
    NoStep(w);
    var head := Read(last, HEADER_SIZE, true);
    AndThen(w, [], w, head);
    es, v := [] + [head], Step(w, head);
    if r.password != [] {
      var body := Read(last, |r.password|, true);
      AndThen(w, es, v, body);
      es, v := es + [body], Step(v, body);
    }
  }

  /** PAM has accepted the attempt under way, and the event loop does not know
      yet: the write loop has just written its last byte. */
  ghost predicate Granted(w: World, pw: seq<byte>) {
    && w.session.locked && w.writing == Some([]) && w.session.reqFd != -1 && w.session.repFd != -1
    && w.helpers != [] && |Last(w).unread| == 1
    && Last(w).unread[0].success && Last(w).unread[0].seqNo == w.session.nextSeq
    && w.attempts != [] && w.attempts[|w.attempts| - 1] == pw && Proved(w.asked, |w.attempts|, pw)
  }

  lemma Grants(w: World, r: Request)
    requires w.session.locked && w.writing == Some([]) && w.helpers != [] && Asked(Last(w), r)
    requires w.session.reqFd != -1 && w.session.repFd != -1 && w.session.nextSeq == r.seqNo == |w.attempts|
    requires w.attempts != [] && w.attempts[|w.attempts| - 1] == r.password
    ensures var e := PamAnswers(|w.helpers| - 1, GRANT);
            Enabled(w, e) && Granted(Step(w, e), r.password) && Step(w, e).attempts == w.attempts
  {
    hide Answer, Presented, Judge;
    PresentedPassword(r.password);
    AnswerFields(r.seqNo, GRANT);
    GrantAccepts();
    Deciding(w, |w.helpers| - 1, GRANT);
  }

  lemma GrantAccepts()
    ensures Judge(GRANT) == Accept
  {
  }

  lemma Deciding(w: World, who: nat, run: PamRun)
    requires who < |w.helpers| && w.helpers[who].phase.Judging?
    ensures Enabled(w, PamAnswers(who, run))
    ensures var h := w.helpers[who];
            Step(w, PamAnswers(who, run)) ==
            w.(helpers := w.helpers[who := Decide(h, run)], asked := w.asked + {Heard(h, run)})
  {
  }

  lemma AttemptGranted(w: World) returns (es: seq<Event>, v: World)
    requires AtRest(w) && w.session.reqFd == -1 && |w.attempts| + 1 < SEQ_LIMIT
    requires w.session.lockerPid <= 0 || Defer(w.session) != w.session
    ensures Onward(w, es, v) && Granted(v, w.session.typed) && |v.attempts| == |w.attempts| + 1
  {
    hide Onward, Inv, Step, Enabled, Frame, Defer;
    var pid := FreshPid(w.session.children);
    var submit := Submit(Started(pid, 0, 1), {}, false, [0, 0, 0, 0]);
    SubmitsAfresh(w, pid);
    var r: Request := Submission(|w.attempts| + 1, w.session.typed, [0, 0, 0, 0]);
    NoStep(w);
    AndThen(w, [], w, submit);
    var w1 := Step(w, submit);
    var es2, w2 := WriteItAll(w1);
    Further(w, [] + [submit], w1, es2, w2);
    assert [] + Frame(r) == Frame(r) && Last(w2) == FRESH.(sent := [r], inbox := Frame(r));
    var es3, w3 := ReadsItAll(w2, r);
    Further(w, [] + [submit] + es2, w2, es3, w3);
    Grants(w3, r);
    var grant := PamAnswers(|w3.helpers| - 1, GRANT);
    AndThen(w, [] + [submit] + es2 + es3, w3, grant);
    es, v := [] + [submit] + es2 + es3 + [grant], Step(w3, grant);
  }

  lemma Unlocks(w: World, pw: seq<byte>) returns (es: seq<Event>, v: World)
    requires Granted(w, pw)
    ensures Onward(w, es, v) && !v.session.locked && v.attempts == w.attempts && v.asked == w.asked
  {
    hide Onward;
    var done, news := WriteDone(true, {}, false), Dispatch(false, Env({}, true, {}, true));
    NoStep(w);
    AndThen(w, [], w, done);
    var w1 := Step(w, done);
    Dispatched(w, pw);
    AndThen(w, [] + [done], w1, news);
    es, v := [] + [done] + [news], Step(w1, news);
  }

  lemma Dispatched(w: World, pw: seq<byte>)
    requires Granted(w, pw)
    ensures var v, news := Step(w, WriteDone(true, {}, false)), Dispatch(false, Env({}, true, {}, true));
            && Enabled(v, news) && !Step(v, news).session.locked
            && Step(v, news).attempts == w.attempts && Step(v, news).asked == w.asked
  {
    hide ReapDeferred, Drawn;
  }

  // ------------------------------------------------------------ the theorem

  /** From every locked state of every run, whatever the helper and the pipes
      have been through, the user can type any password at all and be let in if
      PAM accepts it. At most two attempts are used up. */
  lemma NeverWedged(ws: seq<World>, past: seq<Event>, i: nat, keys: seq<Key>) returns (es: seq<Event>, v: World)
    requires IsRun(ws, past) && i < |ws| && ws[i].session.locked && |ws[i].attempts| + 2 < SEQ_LIMIT && IsHistory(keys)
    ensures Onward(ws[i], es, v) && !v.session.locked
    ensures |ws[i].attempts| < |v.attempts| <= |ws[i].attempts| + 2
    ensures v.attempts[|v.attempts| - 1] == Typed(keys) && Proved(v.asked, |v.attempts|, Typed(keys))
  {
    hide Onward, AtRest, Inv, Granted, Defer;
    RunInv(ws, past, i);
    var w := ws[i];
    var es1, w1 := FinishWriting(w);
    var es2, w2 := DropPipes(w1);
    Further(w, es1, w1, es2, w2);
    var es3, w3 := FindRoom(w2);
    Further(w, es1 + es2, w2, es3, w3);
    var es4, w4 := Retype(w3, keys);
    Further(w, es1 + es2 + es3, w3, es4, w4);
    RoomStays(w3, w4);
    var es5, w5 := AttemptGranted(w4);
    Further(w, es1 + es2 + es3 + es4, w4, es5, w5);
    var es6;
    es6, v := Unlocks(w5, Typed(keys));
    Further(w, es1 + es2 + es3 + es4 + es5, w5, es6, v);
    es := es1 + es2 + es3 + es4 + es5 + es6;
    GrantedFields(w5, Typed(keys));
  }

  lemma RoomStays(w: World, v: World)
    requires SameButTyped(w, v)
    ensures Defer(w.session) != w.session ==> Defer(v.session) != v.session
  {
  }

  lemma GrantedFields(w: World, pw: seq<byte>)
    requires Granted(w, pw)
    ensures w.attempts != [] && w.attempts[|w.attempts| - 1] == pw && Proved(w.asked, |w.attempts|, pw)
  {
  }

  /** An accepted attempt can be shown as denied: PAM is quicker than the event
      loop, which then refuses to watch for the reply. */
  lemma AcceptedThenDenied() returns (w: World, es: seq<Event>, v: World)
    ensures Initial(w) && Onward(w, es, v) && Granted(v, [])
    ensures var e := WriteDone(false, {}, true);
            Enabled(v, e) && Step(v, e).session.locked && Step(v, e).session.shown == Denied
  {
    w := World(Session([], 0, -1, seq(MAX_PENDING, _ => 0), -1, -1, -1, false, false, Idle, [], {}, {}),
               None, [], [], {});
    var lock := Lock(NoPipe);
    InitialInv(w);
    NoStep(w);
    AndThen(w, [], w, lock);
    var w1 := Step(w, lock);
    StepKeeps(w, lock);
    var es2;
    es2, v := AttemptGranted(w1);
    Further(w, [] + [lock], w1, es2, v);
    es := [] + [lock] + es2;
    hide Onward, ReapDeferred, Inv;
    RefusalDenies(v);
  }

  lemma RefusalDenies(w: World)
    requires w.session.locked && w.writing == Some([])
    ensures var e := WriteDone(false, {}, true);
            Enabled(w, e) && Step(w, e).session.locked && Step(w, e).session.shown == Denied
  {
    EndFields(w.session, false, {}, true);
    hide ReapDeferred;
  }
}
