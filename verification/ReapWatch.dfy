/**
  Who still looks for a helper that has lost its pipes? Over every run of the
  protocol, the retry timer of src/lock_mode.c is armed for each child left
  behind, unless the event loop has refused to make one.
 */
module ReapWatch {
  import opened PasswordField
  import opened Unlocker
  import opened LockSession
  import opened UnlockProtocol
  import opened Options

  predicate HasParked(pending: seq<int>) { exists i :: 0 <= i < |pending| && pending[i] > 0 }

  /** A child without pipes is held, and no timer is there to collect it. */
  predicate Forgotten(s: Session) {
    !s.reapTimer && (HasParked(s.pending) || (s.lockerPid > 0 && s.reqFd == -1))
  }

  /** reap_locker_deferred finds a child left and no timer, and gets none. */
  predicate Refused(s: Session, exited: set<int>, timerOk: bool) {
    !s.reapTimer && !timerOk && !NoneHeld(TryReap(s, exited))
  }

  /** The refusals that matter of the result handler: on success it reaps twice,
      and the second time decides. */
  predicate ResultRefused(s: Session, adopted: Option<Reply>, hangup: bool, env: Env) {
    if IsSuccess(adopted) then Refused(ReapDeferred(s, env.exited, env.timerOk), env.exitedAfter, env.timerOkAfter)
    else hangup && Refused(s, env.exited, env.timerOk)
  }

  /** In this step a reap was refused its timer. */
  predicate TimerRefused(w: World, e: Event) {
    match e
    case Submit(_, exited, timerOk, _) =>
      w.session.reqFd == -1 && w.session.lockerPid > 0 && Refused(Defer(w.session), exited, timerOk)
    case WriteDone(sourceOk, exited, timerOk) => !sourceOk && Refused(w.session, exited, timerOk)
    case Dispatch(hangup, env) =>
      w.helpers != [] && ResultRefused(w.session, Drain(Last(w).unread, w.session.nextSeq, hangup).adopted, hangup, env)
    case ModeCancelled(exited, timerOk) => Refused(w.session, exited, timerOk)
    case _ => false
  }

  // ---------------------------------------------------------- one reap

  /** Reaping looks at three fields only. */
  lemma SameReap(s: Session, t: Session, exited: set<int>)
    requires s.pending == t.pending && s.lockerPid == t.lockerPid && s.children == t.children
    ensures TryReap(s, exited).pending == TryReap(t, exited).pending
    ensures TryReap(s, exited).lockerPid == TryReap(t, exited).lockerPid
  {
    var a, b := TryReap(s, exited).pending, TryReap(t, exited).pending;
    assert forall i :: 0 <= i < |a| ==> a[i] == b[i];
  }

  lemma NoneParked(s: Session)
    ensures NoneHeld(s) <==> s.lockerPid <= 0 && !HasParked(s.pending)
  {
  }

  /** A reap leaves a child held and no timer exactly if it was refused one. */
  lemma ReapForgets(s: Session, t: Session, exited: set<int>, timerOk: bool)
    requires s.pending == t.pending && s.lockerPid == t.lockerPid
    requires s.children == t.children && s.reapTimer == t.reapTimer
    ensures var u := ReapDeferred(t, exited, timerOk);
            (!u.reapTimer && !NoneHeld(u)) <==> Refused(s, exited, timerOk)
    ensures ReapDeferred(s, exited, timerOk).pending == ReapDeferred(t, exited, timerOk).pending
    ensures ReapDeferred(s, exited, timerOk).lockerPid == ReapDeferred(t, exited, timerOk).lockerPid
    ensures ReapDeferred(s, exited, timerOk).reapTimer == ReapDeferred(t, exited, timerOk).reapTimer
    ensures ReapDeferred(s, exited, timerOk).children == ReapDeferred(t, exited, timerOk).children
  {
    SameReap(s, t, exited);
    assert NoneHeld(TryReap(s, exited)) <==> NoneHeld(TryReap(t, exited));
  }

  lemma ForgottenIs(s: Session)
    ensures s.reqFd == -1 ==> (Forgotten(s) <==> !s.reapTimer && !NoneHeld(s))
  {
    NoneParked(s);
  }

  // ---------------------------------------------------------- each handler

  lemma BeginForgets(s: Session, start: Start, exited: set<int>, timerOk: bool)
    requires Books(s) && s.locked && LegalBegin(s, start, exited, timerOk)
    ensures var refused := s.reqFd == -1 && s.lockerPid > 0 && Refused(Defer(s), exited, timerOk);
            var after := Forgotten(SubmitBegin(s, start, exited, timerOk).session);
            (after ==> Forgotten(s) || refused) && (refused ==> after)
  {
    hide ReapDeferred, Defer, NoneHeld, HasParked;
    if s.reqFd == -1 {
      if s.lockerPid > 0 {
        ReapForgets(Defer(s), Defer(s), exited, timerOk);
        ReapForgets(s, ClearBuffer(s), exited, timerOk);
        ReapFields(Defer(s), exited, timerOk);
        ReapFields(ClearBuffer(s), exited, timerOk);
        if Defer(s) == s {
          ForgottenIs(ReapDeferred(ClearBuffer(s), exited, timerOk));
        } else {
          RestartForgets(s, start, exited, timerOk);
        }
      } else {
        StartForgets(s, start);
      }
    }
  }

  lemma StartForgets(s: Session, a: Start)
    requires s.lockerPid <= 0 && s.reqFd == -1 && (a.Started? ==> a.reqFd >= 0)
    ensures Forgotten(StartUnlocker(s, a)) <==> Forgotten(s)
  {
  }

  lemma RestartForgets(s: Session, start: Start, exited: set<int>, timerOk: bool)
    requires Books(s) && s.locked && LegalBegin(s, start, exited, timerOk)
    requires s.reqFd == -1 && s.lockerPid > 0 && Defer(s) != s
    ensures Forgotten(SubmitBegin(s, start, exited, timerOk).session) <==> Refused(Defer(s), exited, timerOk)
  {
    ParkedKeepsLedger(s, exited, timerOk);
    ReapForgets(Defer(s), Defer(s), exited, timerOk);
    var t := Parked(s, exited, timerOk);
    ForgottenIs(t);
    StartForgets(t, start);
    hide ReapDeferred, Defer, NoneHeld, HasParked, Refused, Books;
  }

  lemma EndForgets(s: Session, sourceOk: bool, exited: set<int>, timerOk: bool)
    ensures var refused := !sourceOk && Refused(s, exited, timerOk);
            var after := Forgotten(SubmitEnd(s, sourceOk, exited, timerOk));
            (after ==> Forgotten(s) || refused) && (refused ==> after)
  {
    hide ReapDeferred, NoneHeld, HasParked;
    if !sourceOk {
      var t := ClearBuffer(s).(source := -1);
      ReapForgets(s, t, exited, timerOk);
      ForgottenIs(SubmitEnd(s, false, exited, timerOk));
      SameHeld(ReapDeferred(t, exited, timerOk), SubmitEnd(s, false, exited, timerOk));
    }
  }

  lemma SameHeld(s: Session, t: Session)
    requires s.pending == t.pending && s.lockerPid == t.lockerPid
    ensures NoneHeld(s) <==> NoneHeld(t)
  {
  }

  lemma LeaveForgets(s: Session, exited: set<int>, timerOk: bool)
    ensures Forgotten(Leave(s, exited, timerOk)) <==> Refused(s, exited, timerOk)
  {
    hide ReapDeferred, NoneHeld, HasParked;
    var t := CloseBoth(s.(source := -1));
    ReapForgets(s, t, exited, timerOk);
    ReapFields(t, exited, timerOk);
    ForgottenIs(Leave(s, exited, timerOk));
    SameHeld(ReapDeferred(t, exited, timerOk), Leave(s, exited, timerOk));
  }

  lemma ResultForgets(s: Session, adopted: Option<Reply>, hangup: bool, env: Env)
    ensures var refused := ResultRefused(s, adopted, hangup, env);
            var after := Forgotten(HandleResult(s, adopted, hangup, env));
            (after ==> Forgotten(s) || refused) && (refused ==> after)
  {
    hide ReapDeferred, NoneHeld, HasParked, Leave, Drawn, Refused;
    var t := s.(source := -1);
    ReapForgets(s, t, env.exited, env.timerOk);
    var r := ReapDeferred(t, env.exited, env.timerOk);
    if IsSuccess(adopted) {
      var u := CloseBoth(r);
      LeaveForgets(u, env.exitedAfter, env.timerOkAfter);
      ReapForgets(ReapDeferred(s, env.exited, env.timerOk), u, env.exitedAfter, env.timerOkAfter);
      ReapForgets(u, u, env.exitedAfter, env.timerOkAfter);
    } else if hangup {
      var v := HandleResult(s, adopted, hangup, env);
      ForgottenIs(v);
      SameHeld(r, v);
    }
  }

  // ------------------------------------------------------------- every run

  /** A step leaves a child forgotten only if one was or the timer was refused,
      and then it does. */
  lemma StepForgets(w: World, e: Event)
    requires Inv(w) && Enabled(w, e)
    ensures Forgotten(Step(w, e).session) ==> Forgotten(w.session) || TimerRefused(w, e)
    ensures TimerRefused(w, e) ==> Forgotten(Step(w, e).session)
  {
    hide HelpersOk, Awaited, Forgotten, Refused, ResultRefused, Books, SubmitBegin, SubmitEnd, HandleResult, Leave;
    hide Enter, TimerFired, PressKey, Drain, Take, EndOfInput, Decide, IsPassword;
    match e {
      case KeyPress(key) => KeyForgets(w.session, key);
      case Submit(start, exited, timerOk, padding) => BeginForgets(w.session, start, exited, timerOk);
      case WriteDone(sourceOk, exited, timerOk) => EndForgets(w.session, sourceOk, exited, timerOk);
      case Dispatch(hangup, env) =>
        ResultForgets(w.session, Drain(Last(w).unread, w.session.nextSeq, hangup).adopted, hangup, env);
      case Timer(exited) => TimerForgets(w.session, exited);
      case Lock(start) => EnterForgets(w.session, start);
      case ModeCancelled(exited, timerOk) => LeaveForgets(w.session, exited, timerOk);
      case _ =>
    }
  }

  lemma KeyForgets(s: Session, key: Key)
    requires key.Char? ==> key.codepoint < 0x1_0000_0000
    ensures Forgotten(PressKey(s, key)) <==> Forgotten(s)
  {
  }

  lemma TimerForgets(s: Session, exited: set<int>)
    requires s.reapTimer
    ensures !Forgotten(TimerFired(s, exited))
  {
    var t := TryReap(s, exited);
    NoneParked(t);
  }

  lemma EnterForgets(s: Session, start: Start)
    requires Books(s) && !s.locked && LegalStart(s, start)
    ensures Forgotten(Enter(s, start)) ==> Forgotten(s)
  {
    NoPipesOpen(s);
    hide HasParked, Books;
  }

  /** At every point of a run each child without pipes has the timer looking for
      it, exactly if no reap of that run was refused one. */
  lemma WatchedIff(ws: seq<World>, es: seq<Event>)
    requires IsRun(ws, es)
    ensures (forall i :: 0 <= i < |ws| ==> !Forgotten(ws[i].session)) <==>
            (forall k :: 0 <= k < |es| ==> !TimerRefused(ws[k], es[k]))
  {
    hide Forgotten, TimerRefused;
    forall k | 0 <= k < |es|
      ensures TimerRefused(ws[k], es[k]) ==> Forgotten(ws[k + 1].session)
    {
      RunInv(ws, es, k);
      assert Follows(ws[k], es[k], ws[k + 1]);
      StepForgets(ws[k], es[k]);
    }
    if forall k :: 0 <= k < |es| ==> !TimerRefused(ws[k], es[k]) {
      forall i | 0 <= i < |ws|
        ensures !Forgotten(ws[i].session)
      {
        WatchedUpTo(ws, es, i);
      }
    } else {
      var k :| 0 <= k < |es| && TimerRefused(ws[k], es[k]);
      assert Forgotten(ws[k + 1].session);
    }
  }

  lemma {:induction false} WatchedUpTo(ws: seq<World>, es: seq<Event>, i: nat)
    requires IsRun(ws, es) && i < |ws| && forall k :: 0 <= k < i ==> !TimerRefused(ws[k], es[k])
    ensures !Forgotten(ws[i].session)
    decreases i
  {
    hide TimerRefused;
    if i == 0 {
      assert !HasParked(ws[0].session.pending);
    } else {
      WatchedUpTo(ws, es, i - 1);
      RunInv(ws, es, i - 1);
      assert Follows(ws[i - 1], es[i - 1], ws[i]);
      StepForgets(ws[i - 1], es[i - 1]);
    }
  }

  /** The timer collects every held child that has exited and goes on until none
      is held. */
  lemma TimerCollects(s: Session, exited: set<int>)
    requires Books(s) && s.reapTimer
    ensures var t := TimerFired(s, exited);
            && (forall pid :: Held(s, pid) && pid in exited ==> pid !in t.children && !Held(t, pid))
            && (t.reapTimer <==> exists pid :: Held(t, pid))
  {
    TimerKeepsLedger(s, exited);
    var t := TimerFired(s, exited);
    NoneParked(TryReap(s, exited));
    if t.lockerPid > 0 {
      assert Held(t, t.lockerPid);
    }
    if HasParked(t.pending) {
      var i :| 0 <= i < |t.pending| && t.pending[i] > 0;
      assert Held(t, t.pending[i]);
    }
  }

  /** It happens: the lock is taken down while the helper lives, and no timer can
      be had. */
  lemma RefusedTimerForgets() returns (ws: seq<World>, es: seq<Event>)
    ensures IsRun(ws, es) && |es| == 2 && TimerRefused(ws[1], es[1]) && Forgotten(ws[2].session)
  {
    var s := Session([], 0, -1, seq(MAX_PENDING, _ => 0), -1, -1, -1, false, false, Idle, [], {}, {});
    var w0 := World(s, None, [], [], {});
    var lock, cancel := Lock(Started(1, 5, 6)), ModeCancelled({}, false);
    var w1 := Step(w0, lock);
    var w2 := Step(w1, cancel);
    ws, es := [w0, w1, w2], [lock, cancel];
    assert Follows(ws[0], es[0], ws[1]) && Follows(ws[1], es[1], ws[2]);
    assert IsRun(ws, es);
    assert w1.session.lockerPid == 1 && AfterReap(w1.session, 1, {}) == 1;
    LeaveForgets(w1.session, {}, false);
  }
}
