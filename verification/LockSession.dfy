/**
  The compositor's side of the lock screen as a state and the steps its event
  handlers take (src/lock_mode.c): the ledger of descriptors and children, the
  password submission, the dispatch of replies, and leaving.
 */
module LockSession {
  import opened Utf8
  import opened Diagnostics
  import opened PasswordField
  import opened Unlocker
  import opened Options

  const MAX_PENDING: nat := 8

  datatype Shown = Idle | Typing | Verifying | Denied

  /** The statics of lock_mode.c and the lock mode's own fields. `reqFd` and
      `repFd` are the parent's ends, locker_pipe[0][1] and locker_pipe[1][0];
      `source` is the descriptor the reply event source watches. `open` and
      `children` are the kernel's half of the ledger: this process's open pipe
      ends, and the helpers it forked and has not waited for. */
  datatype Session = Session(
    typed: seq<byte>,
    nextSeq: nat,
    lockerPid: int,
    pending: seq<int>,
    reqFd: int,
    repFd: int,
    source: int,
    reapTimer: bool,
    locked: bool,
    shown: Shown,
    message: seq<byte>,
    open: set<int>,
    children: set<int>)

  // --------------------------------------------------------------- the ledger

  /** `pid` is held in exactly one place if it is held at all. */
  ghost predicate HeldOnce(s: Session) {
    && |s.pending| == MAX_PENDING
    && (forall i, j :: 0 <= i < j < |s.pending| && s.pending[i] > 0 ==> s.pending[i] != s.pending[j])
    && (s.lockerPid > 0 ==> s.lockerPid !in s.pending)
  }

  predicate Held(s: Session, pid: int) {
    pid > 0 && (pid == s.lockerPid || pid in s.pending)
  }

  /** Both pipe ends are open or both are closed and no other is open; an event
      source watches an open descriptor; what locker_pid and the pending slots
      hold are distinct children not yet waited for. */
  ghost predicate Books(s: Session) {
    && HeldOnce(s)
    && (forall pid :: Held(s, pid) ==> pid in s.children)
    && (s.reqFd == -1 <==> s.repFd == -1)
    && (s.reqFd != -1 ==> s.reqFd != s.repFd)
    && s.open == Ends(s)
    && (s.source == -1 || s.source == s.repFd)
    && (!s.locked ==> s.reqFd == -1)
  }

  /** Children nobody will ever wait for. */
  ghost function Lost(s: Session): set<int> {
    set pid | pid in s.children && !Held(s, pid)
  }

  /** The books are right and every child is in exactly one place. */
  ghost predicate Ledger(s: Session) { Books(s) && Lost(s) == {} }

  function Ends(s: Session): set<int> {
    (if s.reqFd == -1 then {} else {s.reqFd}) + (if s.repFd == -1 then {} else {s.repFd})
  }

  // ------------------------------------------------------------------ reaping

  /** waitpid(WNOHANG) collects a child that has exited, and reports one it does
      not know as gone. */
  predicate Collectable(s: Session, pid: int, exited: set<int>) {
    pid in exited || pid !in s.children
  }

  function AfterReap(s: Session, pid: int, exited: set<int>): int {
    if pid > 0 && Collectable(s, pid, exited) then -1 else pid
  }

  /** try_reap_locker: the parked children and the current one. */
  function TryReap(s: Session, exited: set<int>): Session {
    s.(pending := seq(|s.pending|, i requires 0 <= i < |s.pending| => AfterReap(s, s.pending[i], exited)),
       lockerPid := AfterReap(s, s.lockerPid, exited),
       children := set pid | pid in s.children && !(pid in exited && Held(s, pid)))
  }

  predicate NoneHeld(s: Session) {
    s.lockerPid <= 0 && forall i :: 0 <= i < |s.pending| ==> s.pending[i] <= 0
  }

  /** reap_locker_deferred: try once, and arm the retry timer if one can be had. */
  function ReapDeferred(s: Session, exited: set<int>, timerOk: bool): Session {
    var t := TryReap(s, exited);
    if NoneHeld(t) then t else t.(reapTimer := t.reapTimer || timerOk)
  }

  /** reap_locker_handler: the timer disarms itself once nothing is left. */
  function TimerFired(s: Session, exited: set<int>): Session {
    var t := TryReap(s, exited);
    if NoneHeld(t) then t.(reapTimer := false) else t
  }

  /** The first free pending slot. */
  function FreeSlot(pending: seq<int>): (n: nat)
    ensures n <= |pending|
    ensures n < |pending| ==> pending[n] <= 0
    ensures forall i :: 0 <= i < n ==> pending[i] > 0
  {
    if pending == [] || pending[0] <= 0 then 0 else 1 + FreeSlot(pending[1..])
  }

  /** defer_locker_pid on a live pid; unchanged when the table is full. */
  function Defer(s: Session): Session {
    var n := FreeSlot(s.pending);
    if s.lockerPid <= 0 || n == |s.pending| then s
    else s.(pending := s.pending[n := s.lockerPid], lockerPid := -1)
  }

  // ------------------------------------------------------------------- helper

  datatype Start = NoPipe | NoSecondPipe | NoFork | Started(pid: int, reqFd: int, repFd: int)

  /** The kernel hands out a pid no living or unreaped child has, and
      descriptors that are not open. */
  ghost predicate LegalStart(s: Session, a: Start) {
    a.Started? ==>
      && a.pid > 0 && a.pid !in s.children
      && a.reqFd >= 0 && a.repFd >= 0 && a.reqFd != a.repFd
      && a.reqFd !in s.open && a.repFd !in s.open
  }

  function StartUnlocker(s: Session, a: Start): Session {
    match a
    case NoPipe => s
    case NoSecondPipe => s.(reqFd := -1)
    case NoFork => s.(reqFd := -1, repFd := -1, lockerPid := -1)
    case Started(pid, reqFd, repFd) =>
      s.(reqFd := reqFd, repFd := repFd, lockerPid := pid,
         open := s.open + {reqFd, repFd}, children := s.children + {pid})
  }

  function CloseBoth(s: Session): Session {
    s.(reqFd := -1, repFd := -1, open := s.open - Ends(s))
  }

  // --------------------------------------------------------------- submission

  function ClearBuffer(s: Session): Session { s.(typed := [], message := []) }

  datatype Begun = Begun(session: Session, proceeds: bool)

  /** submit_password up to the point where the request is built. */
  function SubmitBegin(s: Session, start: Start, exited: set<int>, timerOk: bool): Begun {
    if s.reqFd != -1 && s.repFd != -1 then
      Begun(s.(shown := Verifying, nextSeq := s.nextSeq + 1), true)
    else if s.lockerPid > 0 && Defer(s) == s then
      Begun(ReapDeferred(ClearBuffer(s), exited, timerOk).(shown := Denied), false)
    else
      var t := Parked(s, exited, timerOk);
      var u := StartUnlocker(t, start);
      if start.Started? then Begun(u.(shown := Verifying, nextSeq := u.nextSeq + 1), true)
      else Begun(u.(shown := Denied), false)
  }

  /** The state start_unlocker is called in. */
  function Parked(s: Session, exited: set<int>, timerOk: bool): Session {
    if s.lockerPid > 0 then ReapDeferred(Defer(s), exited, timerOk) else s
  }

  /** submit_password after the write loop: clear, and watch for the reply. */
  function SubmitEnd(s: Session, sourceOk: bool, exited: set<int>, timerOk: bool): Session {
    var t := ClearBuffer(s);
    if sourceOk then t.(source := t.repFd)
    else CloseBoth(ReapDeferred(t.(source := -1), exited, timerOk)).(shown := Denied)
  }

  // ----------------------------------------------------------------- dispatch

  datatype Drained = Drained(adopted: Option<Reply>, left: seq<Reply>)

  /** The read loop of locker_result_handler over the whole replies in the pipe:
      one read without a hangup, all of them with one; the last reply carrying
      the current number is adopted. */
  function Drain(replies: seq<Reply>, current: nat, hangup: bool): (d: Drained)
    decreases replies
  {
    if replies == [] then Drained(None, [])
    else
      var mine := if replies[0].seqNo == current then Some(replies[0]) else None;
      if !hangup then Drained(mine, replies[1..])
      else
        var rest := Drain(replies[1..], current, true);
        Drained(if rest.adopted.Some? then rest.adopted else mine, [])
  }

  predicate IsSuccess(adopted: Option<Reply>) { adopted.Some? && adopted.value.success }

  predicate IsTerminal(adopted: Option<Reply>, hangup: bool) {
    IsSuccess(adopted) || adopted.None? || hangup
  }

  /** cancel(), run by entering normal mode. */
  function Leave(s: Session, exited: set<int>, timerOk: bool): Session {
    ReapDeferred(CloseBoth(s.(source := -1)), exited, timerOk).(locked := false, shown := Idle)
  }

  datatype Env = Env(exited: set<int>, timerOk: bool, exitedAfter: set<int>, timerOkAfter: bool)

  /** locker_result_handler after its read loop. */
  function HandleResult(s: Session, adopted: Option<Reply>, hangup: bool, env: Env): Session {
    if adopted.None? && !hangup then s
    else
      var t := s.(source := -1);
      var u := if IsTerminal(adopted, hangup) then CloseBoth(ReapDeferred(t, env.exited, env.timerOk)) else t;
      var text := if adopted.Some? then Drawn(adopted.value) else [];
      if IsSuccess(adopted) then Leave(u, env.exitedAfter, env.timerOkAfter)
      else u.(shown := Denied, message := if text == [] then u.message else text)
  }

  /** The explanation as it is drawn. */
  function Drawn(r: Reply): seq<byte> {
    Sanitized(r.message, |r.message|, MESSAGE_MAX + 1)
  }

  /** hikari_lock_mode_enter, as far as the password and the helper go. */
  function Enter(s: Session, start: Start): Session {
    StartUnlocker(ClearBuffer(s).(locked := true, shown := Idle), start)
  }

  /** What an editing key does to the session. */
  function PressKey(s: Session, key: Key): Session
    requires key.Char? ==> key.codepoint < 0x1_0000_0000
  {
    var t := s.(typed := Press(s.typed, key));
    match key
    case Char(_) => if t.typed == s.typed then t else t.(shown := Typing)
    case Backspace => if s.typed == [] then t else t.(shown := if t.typed == [] then Idle else Typing)
    case Clear => t.(shown := Idle, message := [])
  }

  // ------------------------------------------------------ the ledger is kept

  lemma NoPipesOpen(s: Session)
    requires Books(s) && s.reqFd == -1
    ensures s.repFd == -1 && s.open == {}
  {
  }

  lemma PipesOpen(s: Session)
    requires Books(s) && s.reqFd != -1
    ensures s.reqFd in s.open
  {
  }

  lemma BooksHoldOnce(s: Session)
    requires Books(s)
    ensures HeldOnce(s)
  {
  }

  lemma PressKeepsLedger(s: Session, key: Key)
    requires Books(s) && (key.Char? ==> key.codepoint < 0x1_0000_0000)
    ensures Books(PressKey(s, key)) && Lost(PressKey(s, key)) == Lost(s)
  {
    hide Press, IsPassword;
    assert forall pid :: Held(PressKey(s, key), pid) <==> Held(s, pid);
  }

  lemma TryReapKeepsLedger(s: Session, exited: set<int>)
    requires Books(s)
    ensures Books(TryReap(s, exited)) && Lost(TryReap(s, exited)) == Lost(s)
    ensures TryReap(s, exited).children == s.children - (exited - Lost(s))
    ensures forall pid :: Held(TryReap(s, exited), pid) ==> Held(s, pid)
  {
    var t := TryReap(s, exited);
    forall pid
      ensures Held(t, pid) <==> Held(s, pid) && pid !in exited
    {
      if Held(s, pid) && pid !in exited {
        assert pid in s.children;
        if pid in s.pending {
          var i :| 0 <= i < |s.pending| && s.pending[i] == pid;
          assert t.pending[i] == pid;
        }
      }
      if pid > 0 && pid in t.pending {
        var i :| 0 <= i < |t.pending| && t.pending[i] == pid;
        assert s.pending[i] == pid;
      }
    }
    forall i, j | 0 <= i < j < |t.pending| && t.pending[i] > 0
      ensures t.pending[i] != t.pending[j]
    {
      assert s.pending[i] == t.pending[i];
    }
  }

  lemma DeferKeepsLedger(s: Session)
    requires Books(s)
    ensures Books(Defer(s)) && Defer(s).children == s.children && Lost(Defer(s)) == Lost(s)
    ensures s.lockerPid > 0 ==> (Defer(s) == s <==> forall i :: 0 <= i < |s.pending| ==> s.pending[i] > 0)
    ensures Defer(s) != s ==> Defer(s).lockerPid == -1
  {
    var n := FreeSlot(s.pending);
    if s.lockerPid > 0 && n < |s.pending| {
      var t := Defer(s);
      assert t.pending[n] == s.lockerPid;
      forall pid
        ensures Held(t, pid) <==> Held(s, pid)
      {
        if pid > 0 && pid in s.pending {
          var i :| 0 <= i < |s.pending| && s.pending[i] == pid;
          assert t.pending[i] == pid;
        }
      }
    }
  }

  /** The child a start loses: whichever locker_pid still held when fork() was
      reached. */
  ghost function Overwritten(s: Session, a: Start): set<int> {
    if s.lockerPid > 0 && (a.NoFork? || a.Started?) then {s.lockerPid} else {}
  }

  lemma StartKeepsLedger(s: Session, a: Start)
    requires Books(s) && s.reqFd == -1 && LegalStart(s, a) && s.locked
    ensures var t := StartUnlocker(s, a); Books(t) && Lost(t) == Lost(s) + Overwritten(s, a)
  {
    var t := StartUnlocker(s, a);
    if a.Started? {
      assert a.pid !in s.pending by {
        assert !Held(s, a.pid);
      }
    }
    forall pid
      ensures Held(t, pid) <==> (Held(s, pid) && pid !in Overwritten(s, a)) || (a.Started? && pid == a.pid)
    {
    }
  }

  lemma ReapDeferredKeepsLedger(s: Session, exited: set<int>, timerOk: bool)
    requires Books(s)
    ensures var t := ReapDeferred(s, exited, timerOk);
            && Books(t) && Lost(t) == Lost(s) && t.open == s.open
            && (s.lockerPid <= 0 ==> t.lockerPid == s.lockerPid)
  {
    TryReapKeepsLedger(s, exited);
    var t := TryReap(s, exited);
    var u := t.(reapTimer := t.reapTimer || timerOk);
    assert forall pid :: Held(u, pid) <==> Held(t, pid);
  }

  lemma TimerKeepsLedger(s: Session, exited: set<int>)
    requires Books(s)
    ensures Books(TimerFired(s, exited)) && Lost(TimerFired(s, exited)) == Lost(s)
  {
    TryReapKeepsLedger(s, exited);
    var t := TryReap(s, exited);
    assert forall pid :: Held(t.(reapTimer := false), pid) <==> Held(t, pid);
  }

  lemma CloseKeepsLedger(s: Session)
    requires Books(s) && s.source == -1
    ensures Books(CloseBoth(s)) && Lost(CloseBoth(s)) == Lost(s) && CloseBoth(s).open == {}
  {
    var t := CloseBoth(s);
    assert forall pid :: Held(t, pid) <==> Held(s, pid);
  }

  /** What the kernel and the event loop may answer during one submission. */
  ghost predicate LegalBegin(s: Session, start: Start, exited: set<int>, timerOk: bool) {
    LegalStart(Parked(s, exited, timerOk), start)
  }

  lemma NoPipeIsLegal(s: Session)
    ensures LegalStart(s, NoPipe)
  {
  }

  ghost predicate WellBegun(s: Session, b: Begun) {
    && Books(b.session) && Lost(b.session) == Lost(s) && b.session.locked
    && (b.proceeds ==> b.session.reqFd != -1 && b.session.nextSeq == s.nextSeq + 1 && b.session.typed == s.typed)
    && (!b.proceeds ==> b.session.reqFd == -1 && b.session.nextSeq == s.nextSeq && b.session.shown == Denied)
  }

  lemma SubmitBeginKeepsLedger(s: Session, start: Start, exited: set<int>, timerOk: bool)
    requires Books(s) && s.locked && LegalBegin(s, start, exited, timerOk)
    ensures WellBegun(s, SubmitBegin(s, start, exited, timerOk))
  {
    if s.reqFd != -1 {
      Relabel(s, s.nextSeq + 1, Verifying);
    } else if s.lockerPid > 0 && Defer(s) == s {
      BeginRefused(s, exited, timerOk);
    } else {
      BeginRestarts(s, start, exited, timerOk);
    }
  }

  /** The pending table is full: the attempt is denied, nothing is started. */
  lemma BeginRefused(s: Session, exited: set<int>, timerOk: bool)
    requires Books(s) && s.locked && s.reqFd == -1
    ensures WellBegun(s, Begun(ReapDeferred(ClearBuffer(s), exited, timerOk).(shown := Denied), false))
  {
    var c := ClearBuffer(s);
    ClearKeepsLedger(s);
    ReapDeferredKeepsLedger(c, exited, timerOk);
    hide Books, Lost;
    Relabel(ReapDeferred(c, exited, timerOk), s.nextSeq, Denied);
  }

  lemma ParkedKeepsLedger(s: Session, exited: set<int>, timerOk: bool)
    requires Books(s) && s.locked && s.reqFd == -1
    requires s.lockerPid <= 0 || Defer(s) != s
    ensures var t := Parked(s, exited, timerOk);
            && Books(t) && Lost(t) == Lost(s) && t.lockerPid <= 0 && t.locked && t.reqFd == -1
            && t.nextSeq == s.nextSeq && t.typed == s.typed
  {
    if s.lockerPid > 0 {
      DeferKeepsLedger(s);
      ReapDeferredKeepsLedger(Defer(s), exited, timerOk);
    }
  }

  lemma BeginRestarts(s: Session, start: Start, exited: set<int>, timerOk: bool)
    requires Books(s) && s.locked && s.reqFd == -1 && LegalBegin(s, start, exited, timerOk)
    requires s.lockerPid <= 0 || Defer(s) != s
    ensures WellBegun(s, SubmitBegin(s, start, exited, timerOk))
  {
    hide Books, Lost, Parked, Defer, StartUnlocker, LegalStart;
    var t := Parked(s, exited, timerOk);
    ParkedKeepsLedger(s, exited, timerOk);
    StartKeepsLedger(t, start);
    StartFields(t, start);
    var u := StartUnlocker(t, start);
    Relabel(u, u.nextSeq + 1, Verifying);
    Relabel(u, u.nextSeq, Denied);
  }

  lemma StartFields(s: Session, a: Start)
    requires LegalStart(s, a) && s.reqFd == -1
    ensures var t := StartUnlocker(s, a);
            t.locked == s.locked && t.nextSeq == s.nextSeq && t.typed == s.typed && (t.reqFd != -1 <==> a.Started?)
  {
  }

  /** Reaping touches the children and the timer only. */
  lemma ReapFields(s: Session, exited: set<int>, timerOk: bool)
    ensures var t := ReapDeferred(s, exited, timerOk);
            t == s.(pending := t.pending, lockerPid := t.lockerPid, children := t.children, reapTimer := t.reapTimer)
  {
  }

  /** Beginning a submission never registers a source. */
  lemma BeginKeepsSource(s: Session, start: Start, exited: set<int>, timerOk: bool)
    ensures var t := SubmitBegin(s, start, exited, timerOk).session;
            t.source == s.source && (IsPassword(s.typed) ==> IsPassword(t.typed))
  {
    hide ReapDeferred, Defer, StartUnlocker, IsPassword;
    RoomIffSlot(s);
    ReapFields(ClearBuffer(s), exited, timerOk);
    ReapFields(Defer(s), exited, timerOk);
    StartLeaves(Parked(s, exited, timerOk), start);
    NothingIsPassword();
  }

  lemma NothingIsPassword()
    ensures IsPassword([])
  {
  }

  lemma Relabel(s: Session, nextSeq: nat, shown: Shown)
    requires Books(s)
    ensures var t := s.(nextSeq := nextSeq, shown := shown); Books(t) && Lost(t) == Lost(s)
  {
    var t := s.(nextSeq := nextSeq, shown := shown);
    assert forall pid :: Held(t, pid) <==> Held(s, pid);
  }

  lemma ClearKeepsLedger(s: Session)
    requires Books(s)
    ensures Books(ClearBuffer(s)) && Lost(ClearBuffer(s)) == Lost(s)
  {
    assert forall pid :: Held(ClearBuffer(s), pid) <==> Held(s, pid);
  }

  lemma UnwatchKeepsLedger(s: Session)
    requires Books(s)
    ensures Books(s.(source := -1)) && Lost(s.(source := -1)) == Lost(s)
  {
    assert forall pid :: Held(s.(source := -1), pid) <==> Held(s, pid);
  }

  lemma SubmitEndKeepsLedger(s: Session, sourceOk: bool, exited: set<int>, timerOk: bool)
    requires Books(s) && s.locked && s.reqFd != -1
    ensures var t := SubmitEnd(s, sourceOk, exited, timerOk); Books(t) && Lost(t) == Lost(s)
  {
    var t := ClearBuffer(s).(source := if sourceOk then s.repFd else -1);
    assert forall pid :: Held(t, pid) <==> Held(s, pid);
    if !sourceOk {
      ReapDeferredKeepsLedger(t, exited, timerOk);
      var u := ReapDeferred(t, exited, timerOk);
      CloseKeepsLedger(u);
      Relabel(CloseBoth(u), u.nextSeq, Denied);
    }
  }

  lemma LeaveKeepsLedger(s: Session, exited: set<int>, timerOk: bool)
    requires Books(s) && s.locked
    ensures var t := Leave(s, exited, timerOk); Books(t) && Lost(t) == Lost(s) && !t.locked
  {
    var t := s.(source := -1);
    UnwatchKeepsLedger(s);
    CloseKeepsLedger(t);
    ReapDeferredKeepsLedger(CloseBoth(t), exited, timerOk);
    ReapFields(CloseBoth(t), exited, timerOk);
    ClosedFields(t);
    hide CloseBoth, ReapDeferred;
    var u := ReapDeferred(CloseBoth(t), exited, timerOk);
    var v := u.(locked := false, shown := Idle);
    assert forall pid :: Held(v, pid) <==> Held(u, pid);
    assert Lost(v) == Lost(u);
  }

  lemma HandleResultKeepsLedger(s: Session, adopted: Option<Reply>, hangup: bool, env: Env)
    requires Books(s) && s.locked && s.source != -1
    ensures var t := HandleResult(s, adopted, hangup, env); Books(t) && Lost(t) == Lost(s)
    ensures HandleResult(s, adopted, hangup, env).locked <==> !IsSuccess(adopted)
  {
    if adopted.Some? || hangup {
      var t := s.(source := -1);
      UnwatchKeepsLedger(s);
      ReapDeferredKeepsLedger(t, env.exited, env.timerOk);
      ReapFields(t, env.exited, env.timerOk);
      var r := ReapDeferred(t, env.exited, env.timerOk);
      CloseKeepsLedger(r);
      var u := if IsTerminal(adopted, hangup) then CloseBoth(r) else t;
      hide Books, Lost, ReapDeferred, Leave, Drawn, CloseBoth;
      assert CloseBoth(r).locked by { ClosedFields(r); }
      if IsSuccess(adopted) {
        LeaveKeepsLedger(u, env.exitedAfter, env.timerOkAfter);
      } else {
        DeniedKeepsLedger(u, HandleResult(s, adopted, hangup, env).message);
      }
    }
  }

  /** A submission goes on exactly if both pipe ends are there, or a helper can be
      started and the previous child, if there is one, has a free slot to go to.
      Then it takes the next number for the password as typed. If it does not go
      on it is denied, with no number used up; the password is only cleared when
      it is for want of a slot. */
  lemma SubmitShows(s: Session, start: Start, exited: set<int>, timerOk: bool)
    ensures var b := SubmitBegin(s, start, exited, timerOk);
            b.proceeds <==>
              (s.reqFd != -1 && s.repFd != -1) || (start.Started? && (s.lockerPid <= 0 || HasRoom(s.pending)))
    ensures var b := SubmitBegin(s, start, exited, timerOk);
            b.proceeds ==>
              b.session.shown == Verifying && b.session.nextSeq == s.nextSeq + 1 && b.session.typed == s.typed
    ensures var b := SubmitBegin(s, start, exited, timerOk);
            !b.proceeds ==>
              && b.session.shown == Denied && b.session.nextSeq == s.nextSeq
              && b.session.typed == (if s.lockerPid > 0 && !HasRoom(s.pending) then [] else s.typed)
    ensures SubmitBegin(s, start, exited, timerOk).session.locked == s.locked
  {
    RoomIffSlot(s);
    ReapFields(ClearBuffer(s), exited, timerOk);
    ReapFields(Defer(s), exited, timerOk);
    StartLeaves(Parked(s, exited, timerOk), start);
    hide ReapDeferred, Defer, StartUnlocker, HasRoom;
  }

  lemma StartLeaves(s: Session, a: Start)
    ensures var t := StartUnlocker(s, a);
            && t.typed == s.typed && t.nextSeq == s.nextSeq && t.locked == s.locked && t.source == s.source
  {
  }

  lemma RoomIffSlot(s: Session)
    ensures s.lockerPid > 0 ==> (Defer(s) == s <==> !HasRoom(s.pending))
    ensures Defer(s) == s.(pending := Defer(s).pending, lockerPid := Defer(s).lockerPid)
  {
    var n := FreeSlot(s.pending);
    assert n < |s.pending| && s.lockerPid > 0 ==> Defer(s).lockerPid == -1;
  }

  predicate HasRoom(pending: seq<int>) {
    exists i :: 0 <= i < |pending| && pending[i] <= 0
  }

  /** After the frame has gone out the field is empty, and the reply is watched
      for; if it cannot be, both pipes come down and the attempt is denied. */
  lemma SentShows(s: Session, sourceOk: bool, exited: set<int>, timerOk: bool)
    ensures var t := SubmitEnd(s, sourceOk, exited, timerOk);
            && t.typed == [] && t.message == [] && t.nextSeq == s.nextSeq && t.locked == s.locked
            && (sourceOk ==> t.source == s.repFd && t.reqFd == s.reqFd && t.repFd == s.repFd && t.shown == s.shown)
            && (!sourceOk ==> t.source == -1 && t.reqFd == -1 && t.repFd == -1 && t.shown == Denied)
  {
    ReapFields(ClearBuffer(s).(source := -1), exited, timerOk);
    hide ReapDeferred;
  }

  /** Locking starts from an empty field, nothing shown, and a pair of pipes only
      if a helper could be started. */
  lemma EnterShows(s: Session, start: Start)
    ensures var t := Enter(s, start);
            && t.locked && t.typed == [] && t.message == [] && t.shown == Idle && t.nextSeq == s.nextSeq
            && t.pending == s.pending
            && (start.Started? ==> (t.reqFd, t.repFd, t.lockerPid) == (start.reqFd, start.repFd, start.pid))
            && (!start.Started? && s.reqFd == -1 && s.repFd == -1 ==> t.reqFd == -1 && t.repFd == -1)
  {
  }

  /** What a wake-up of the result source shows and keeps: nothing without a
      current reply or a hangup; an accepted reply alone unlocks; everything else
      is shown as denied, with the explanation of the adopted reply as it is
      drawn, or the earlier one when that reply gives none. Only a denial that
      came without a hangup leaves the helper and its pipes in use. */
  lemma ResultShows(s: Session, adopted: Option<Reply>, hangup: bool, env: Env)
    requires Books(s) && s.locked
    ensures adopted.None? && !hangup ==> HandleResult(s, adopted, hangup, env) == s
    ensures adopted.Some? && adopted.value.success ==>
              var t := HandleResult(s, adopted, hangup, env);
              !t.locked && t.shown == Idle && t.source == -1 && t.reqFd == -1 && t.repFd == -1 && t.message == s.message
    ensures adopted.Some? && !adopted.value.success ==>
              var t := HandleResult(s, adopted, hangup, env);
              var drawn := Sanitized(adopted.value.message, |adopted.value.message|, 501);
              && t.locked && t.shown == Denied && t.source == -1
              && t.message == (if |drawn| > 0 then drawn else s.message)
    ensures adopted.Some? && !adopted.value.success && !hangup ==>
              var t := HandleResult(s, adopted, hangup, env);
              && t.reqFd == s.reqFd && t.repFd == s.repFd && t.open == s.open
              && t.lockerPid == s.lockerPid && t.pending == s.pending
    ensures hangup && !(adopted.Some? && adopted.value.success) ==>
              var t := HandleResult(s, adopted, hangup, env);
              t.locked && t.shown == Denied && t.source == -1 && t.reqFd == -1 && t.repFd == -1
    ensures adopted.None? && hangup ==> HandleResult(s, adopted, hangup, env).message == s.message
    ensures HandleResult(s, adopted, hangup, env).typed == s.typed
    ensures HandleResult(s, adopted, hangup, env).nextSeq == s.nextSeq
  {
    var t := s.(source := -1);
    ReapFields(t, env.exited, env.timerOk);
    var r := ReapDeferred(t, env.exited, env.timerOk);
    ClosedFields(r);
    var u := if IsTerminal(adopted, hangup) then CloseBoth(r) else t;
    ClosedFields(u);
    ReapFields(CloseBoth(u), env.exitedAfter, env.timerOkAfter);
    hide Books, ReapDeferred, CloseBoth, Sanitized;
  }

  lemma ClosedFields(s: Session)
    ensures CloseBoth(s) == s.(reqFd := -1, repFd := -1, open := CloseBoth(s).open)
  {
  }

  lemma DeniedKeepsLedger(s: Session, message: seq<byte>)
    requires Books(s)
    ensures var t := s.(shown := Denied, message := message); Books(t) && Lost(t) == Lost(s)
  {
    assert forall pid :: Held(s.(shown := Denied, message := message), pid) <==> Held(s, pid);
  }

  /** Lock entry does not park an outstanding child the way a submission does:
      start_unlocker overwrites locker_pid with whatever fork() returned. That
      child, and no other, is lost. */
  lemma EnterKeepsBooks(s: Session, start: Start)
    requires Books(s) && !s.locked && LegalStart(s, start)
    ensures var t := Enter(s, start); Books(t) && Lost(t) == Lost(s) + Overwritten(s, start)
  {
    var t := ClearBuffer(s).(locked := true, shown := Idle);
    assert forall pid :: Held(t, pid) <==> Held(s, pid);
    StartKeepsLedger(t, start);
  }

  /** The ledger survives entry exactly when no child is held in locker_pid or no
      pipe could be made. */
  lemma EnterKeepsLedgerIff(s: Session, start: Start)
    requires Ledger(s) && !s.locked && LegalStart(s, start)
    ensures Ledger(Enter(s, start)) <==> s.lockerPid <= 0 || start.NoPipe? || start.NoSecondPipe?
  {
    EnterKeepsBooks(s, start);
    hide Books, Lost;
    assert s.lockerPid in Overwritten(s, start) || Overwritten(s, start) == {};
  }

  /** A child is lost on lock entry: unlock while the helper is still tearing
      down PAM, then lock again before it exits. */
  lemma EnterLosesChild()
    ensures var pending := seq(MAX_PENDING, _ => -1);
            var s := Session([], 1, 100, pending, -1, -1, -1, true, false, Idle, [], {}, {100});
            var t := Enter(s, Started(101, 5, 6));
            Ledger(s) && LegalStart(s, Started(101, 5, 6)) && !Ledger(t) && 100 in t.children && !Held(t, 100)
  {
    var pending := seq(MAX_PENDING, _ => -1);
    var s := Session([], 1, 100, pending, -1, -1, -1, true, false, Idle, [], {}, {100});
    EnterKeepsBooks(s, Started(101, 5, 6));
  }
}
