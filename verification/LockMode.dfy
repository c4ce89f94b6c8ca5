/**
  src/lock_mode.c as it runs: an object with the file's statics, calling a
  kernel that answers as it likes. Every method is tied to the step of
  LockSession it performs. The kernel refuses to close a descriptor that is not
  open and to read where a read would block, so verifying the callers is the
  proof that neither happens.
 */
module LockMode {
  import opened Utf8
  import opened Diagnostics
  import opened PasswordField
  import opened UnlockWire
  import opened Unlocker
  import opened LockSession
  import opened Options

  datatype WaitResult = Collected | Running | NoChild | WaitInterrupted
  datatype WriteResult = Wrote(n: nat) | WriteFailed | WriteInterrupted
  datatype ReplyRead = Whole(reply: Reply) | NotWhole | ReplyInterrupted

  class Kernel {
    var open: set<int>
    var children: set<int>
    var exited: set<int>
    // What the current helper's request pipe has taken.
    var delivered: seq<byte>
    // Signals still to arrive; finitely many.
    var interruptions: nat

    constructor ()
      ensures open == {} && children == {} && exited == {} && delivered == []
    {
      open, children, exited, delivered, interruptions := {}, {}, {}, [], 0;
    }

    method Close(fd: int)
      requires fd in open
      modifies this`open
      ensures open == old(open) - {fd}
    {
      open := open - {fd};
    }

    method Pipe() returns (ok: bool, r: int, w: int)
      modifies this`open
      ensures ok ==> r >= 0 && w >= 0 && r != w && r !in old(open) && w !in old(open) && open == old(open) + {r, w}
      ensures !ok ==> open == old(open)
    {
      r, w := *, *;
      ok := r >= 0 && w >= 0 && r != w && r !in open && w !in open;
      if ok {
        open := open + {r, w};
      }
    }

    method Fork() returns (pid: int)
      modifies this`children, this`exited, this`delivered
      ensures pid == -1 || (pid > 0 && pid !in old(children))
      ensures pid == -1 ==> children == old(children) && exited == old(exited) && delivered == old(delivered)
      ensures pid > 0 ==> children == old(children) + {pid} && exited == old(exited) - {pid} && delivered == []
    {
      pid := *;
      if pid <= 0 || pid in children {
        return -1;
      }
      children := children + {pid};
      exited := exited - {pid};
      delivered := [];
    }

    /** waitpid(pid, &status, WNOHANG). */
    method Waitpid(pid: int) returns (r: WaitResult)
      modifies this`children, this`interruptions
      ensures r.WaitInterrupted? ==> interruptions < old(interruptions) && children == old(children)
      ensures r.Collected? <==> !r.WaitInterrupted? && pid in old(children) && pid in exited
      ensures r.NoChild? <==> !r.WaitInterrupted? && pid !in old(children)
      ensures !r.WaitInterrupted? ==> children == old(children) - (if pid in exited then {pid} else {})
    {
      var interrupted: bool := *;
      if interruptions > 0 && interrupted {
        interruptions := interruptions - 1;
        return WaitInterrupted;
      }
      if pid !in children {
        return NoChild;
      }
      if pid in exited {
        children := children - {pid};
        return Collected;
      }
      return Running;
    }

    /** A blocking write: any non-empty part is taken, or the reader is gone.
        Children may exit meanwhile. */
    method Write(fd: int, buf: seq<byte>) returns (r: WriteResult)
      requires fd in open && buf != []
      modifies this`delivered, this`exited, this`interruptions
      ensures r.Wrote? ==> 1 <= r.n <= |buf| && delivered == old(delivered) + buf[..r.n]
      ensures r.Wrote? ==> interruptions == old(interruptions)
      ensures !r.Wrote? ==> delivered == old(delivered)
      ensures r.WriteInterrupted? ==> interruptions < old(interruptions)
      ensures old(exited) <= exited <= old(exited) + children
    {
      var dying: set<int> :| dying <= children;
      exited := exited + dying;
      var interrupted, gone: bool := *, *;
      if interruptions > 0 && interrupted {
        interruptions := interruptions - 1;
        return WriteInterrupted;
      }
      if gone {
        return WriteFailed;
      }
      var n: nat :| 1 <= n <= |buf|;
      delivered := delivered + buf[..n];
      return Wrote(n);
    }
  }

  /** The read end of the reply pipe. A read where nothing is buffered and the
      helper still lives would block the event loop. */
  class ReplyPipe {
    var queue: seq<Reply>
    var writerGone: bool
    var interruptions: nat

    method Read() returns (r: ReplyRead)
      requires queue != [] || writerGone
      modifies this`queue, this`interruptions
      ensures r.ReplyInterrupted? ==> queue == old(queue) && interruptions < old(interruptions)
      ensures r.Whole? ==> old(queue) == [r.reply] + queue && interruptions == old(interruptions)
      ensures r.NotWhole? ==> queue == old(queue) == [] && interruptions == old(interruptions)
    {
      var interrupted: bool := *;
      if interruptions > 0 && interrupted {
        interruptions := interruptions - 1;
        return ReplyInterrupted;
      }
      if queue == [] {
        return NotWhole;
      }
      r := Whole(queue[0]);
      queue := queue[1..];
    }
  }

  /** What the kernel and the event loop answered during one submission. */
  datatype Answers = Answers(start: Start, exited: set<int>, timerOk: bool, padding: seq<byte>,
                             failed: bool, sourceOk: bool, exitedAfter: set<int>, timerOkAfter: bool)

  class Mode {
    const field: Field
    const kernel: Kernel
    const pendingPids: array<int>
    var nextSeq: nat
    var lockerPid: int
    var reqFd: int
    var repFd: int
    var source: int
    var reapTimer: bool
    var locked: bool
    var shown: Shown
    var message: seq<byte>

    ghost predicate Valid()
      reads this, field, field.buffer, kernel, pendingPids
    {
      && field.Valid() && pendingPids.Length == MAX_PENDING
      && Books(View())
    }

    ghost function View(): Session
      reads this, field, field.buffer, kernel, pendingPids
      requires field.Valid()
    {
      Session(field.Contents(), nextSeq, lockerPid, pendingPids[..], reqFd, repFd, source, reapTimer,
              locked, shown, message, kernel.open, kernel.children)
    }

    /** The statics as the program starts. */
    constructor ()
      ensures Valid() && fresh(field) && fresh(field.buffer) && fresh(kernel) && fresh(pendingPids)
      ensures View() == Session([], 0, -1, seq(MAX_PENDING, _ => 0), -1, -1, -1, false, false, Idle, [], {}, {})
    {
      field := new Field();
      kernel := new Kernel();
      pendingPids := new int[MAX_PENDING](_ => 0);
      nextSeq, lockerPid, reqFd, repFd, source := 0, -1, -1, -1, -1;
      reapTimer, locked, shown, message := false, false, Idle, [];
      new;
      assert pendingPids[..] == seq(MAX_PENDING, _ => 0);
    }

    method ReapPid(pid: int) returns (gone: bool)
      modifies kernel`children, kernel`interruptions
      ensures gone <==> pid in kernel.exited || pid !in old(kernel.children)
      ensures kernel.children == old(kernel.children) - (if pid in kernel.exited then {pid} else {})
    {
      var r := kernel.Waitpid(pid);
      while r.WaitInterrupted?
        invariant r.WaitInterrupted? ==> kernel.children == old(kernel.children)
        invariant r.Collected? <==> !r.WaitInterrupted? && pid in old(kernel.children) && pid in kernel.exited
        invariant r.NoChild? <==> !r.WaitInterrupted? && pid !in old(kernel.children)
        invariant !r.WaitInterrupted? ==>
                    kernel.children == old(kernel.children) - (if pid in kernel.exited then {pid} else {})
        decreases r.WaitInterrupted?, kernel.interruptions
      {
        r := kernel.Waitpid(pid);
      }
      return r.Collected? || r.NoChild?;
    }

    /** The first half of try_reap_locker: the parked children. */
    method ReapPending() returns (done: bool)
      requires Valid()
      modifies pendingPids, kernel`children, kernel`interruptions
      ensures forall j :: 0 <= j < MAX_PENDING ==>
              pendingPids[j] == AfterReap(old(View()), old(pendingPids[j]), kernel.exited)
      ensures kernel.children == old(kernel.children) - (kernel.exited * ParkedIn(old(View())))
      ensures done <==> forall j :: 0 <= j < MAX_PENDING ==> pendingPids[j] <= 0
    {
      hide Books, Lost, AfterReap;
      ghost var s, exited := View(), kernel.exited;
      BooksHoldOnce(s);
      done := true;
      for i := 0 to MAX_PENDING
        invariant forall j :: 0 <= j < i ==> pendingPids[j] == AfterReap(s, s.pending[j], exited)
        invariant forall j :: i <= j < MAX_PENDING ==> pendingPids[j] == s.pending[j]
        invariant kernel.children == s.children - CollectedBy(s, exited, i)
        invariant done <==> forall j :: 0 <= j < i ==> pendingPids[j] <= 0
      {
        CollectOne(s, exited, i);
        if pendingPids[i] > 0 {
          var gone := ReapPid(pendingPids[i]);
          if gone {
            pendingPids[i] := -1;
          } else {
            done := false;
          }
        }
      }
      assert s.pending[..MAX_PENDING] == s.pending;
    }

    /** try_reap_locker. */
    method TryReapLocker() returns (done: bool)
      requires Valid()
      modifies this`lockerPid, pendingPids, kernel`children, kernel`interruptions
      ensures View() == TryReap(old(View()), kernel.exited) && done == NoneHeld(View())
    {
      ghost var s, exited := View(), kernel.exited;
      done := ReapPending();
      if lockerPid > 0 {
        assert Held(s, lockerPid);
        var gone := ReapPid(lockerPid);
        if gone {
          lockerPid := -1;
        } else {
          done := false;
        }
      }
      assert pendingPids[..] == TryReap(s, exited).pending;
      assert kernel.children == TryReap(s, exited).children;
    }

    /** defer_locker_pid. */
    method DeferLockerPid() returns (ok: bool)
      requires Valid()
      modifies this`lockerPid, pendingPids
      ensures View() == Defer(old(View()))
      ensures ok <==> old(lockerPid) <= 0 || Defer(old(View())) != old(View())
    {
      if lockerPid <= 0 {
        return true;
      }
      ghost var s := View();
      for i := 0 to MAX_PENDING
        invariant View() == s && Valid() && lockerPid > 0
        invariant forall j :: 0 <= j < i ==> pendingPids[j] > 0
      {
        if pendingPids[i] <= 0 {
          pendingPids[i] := lockerPid;
          lockerPid := -1;
          DeferIs(s, i);
          assert pendingPids[..] == s.pending[i := s.lockerPid];
          return true;
        }
      }
      assert FreeSlot(s.pending) == MAX_PENDING;
      return false;
    }

    /** reap_locker_deferred. */
    method ReapLockerDeferred() returns (ghost timerOk: bool)
      requires Valid()
      modifies this`lockerPid, this`reapTimer, pendingPids, kernel`children, kernel`interruptions
      ensures View() == ReapDeferred(old(View()), kernel.exited, timerOk)
    {
      timerOk := false;
      var done := TryReapLocker();
      if done {
        return;
      }
      if !reapTimer {
        var created: bool := *;
        reapTimer := created;
        timerOk := created;
      }
    }

    /** reap_locker_handler. */
    method ReapLockerHandler()
      requires Valid() && reapTimer
      modifies this`lockerPid, this`reapTimer, pendingPids, kernel`children, kernel`interruptions
      ensures View() == TimerFired(old(View()), kernel.exited)
    {
      var done := TryReapLocker();
      if done {
        reapTimer := false;
      }
    }

    /** The two pipes of start_unlocker, all four ends or none. */
    method TwoPipes() returns (ok: bool, r0: int, w0: int, r1: int, w1: int, ghost a: Start)
      modifies kernel`open
      ensures ok ==> r0 >= 0 && w0 >= 0 && r1 >= 0 && w1 >= 0 && AllDiffer(r0, w0, r1, w1)
      ensures ok ==> r1 !in old(kernel.open) && w0 !in old(kernel.open)
      ensures ok ==> kernel.open == old(kernel.open) + {r0, w0, r1, w1}
      ensures !ok ==> kernel.open == old(kernel.open) && (a.NoPipe? || a.NoSecondPipe?)
    {
      ok, r0, w0 := kernel.Pipe();
      r1, w1, a := -1, -1, NoPipe;
      if !ok {
        return;
      }
      ok, r1, w1 := kernel.Pipe();
      if !ok {
        kernel.Close(r0);
        kernel.Close(w0);
        a := NoSecondPipe;
      }
    }

    /** start_unlocker: two pipes, a fork, and the ends that are the child's
        closed again. */
    method StartHelper() returns (ok: bool, ghost a: Start)
      requires Valid() && reqFd == -1
      modifies this`reqFd, this`repFd, this`lockerPid, kernel`open, kernel`children, kernel`exited, kernel`delivered
      ensures LegalStart(old(View()), a) && View() == StartUnlocker(old(View()), a) && ok == a.Started?
      ensures kernel.exited <= old(kernel.exited)
      ensures kernel.delivered == if a.Started? then [] else old(kernel.delivered)
    {
      hide Books, Lost;
      NoPipesOpen(View());
      var r0, w0, r1, w1;
      ok, r0, w0, r1, w1, a := TwoPipes();
      if !ok {
        return;
      }
      ok := ForkHelper(r0, w0, r1, w1);
      a := if ok then Started(lockerPid, w0, r1) else NoFork;
    }

    /** The fork, and what parent and child each keep open. */
    method ForkHelper(r0: int, w0: int, r1: int, w1: int) returns (ok: bool)
      requires kernel.open == {r0, w0, r1, w1} && AllDiffer(r0, w0, r1, w1)
      modifies this`reqFd, this`repFd, this`lockerPid, kernel`open, kernel`children, kernel`exited, kernel`delivered
      ensures kernel.exited <= old(kernel.exited)
      ensures ok ==> reqFd == w0 && repFd == r1 && kernel.open == {w0, r1} && kernel.delivered == []
      ensures ok ==> lockerPid > 0 && lockerPid !in old(kernel.children)
      ensures ok ==> kernel.children == old(kernel.children) + {lockerPid}
      ensures !ok ==> reqFd == repFd == lockerPid == -1 && kernel.open == {}
      ensures !ok ==> kernel.children == old(kernel.children) && kernel.delivered == old(kernel.delivered)
    {
      reqFd, repFd := w0, r1;
      lockerPid := kernel.Fork();
      if lockerPid == -1 {
        CloseAll(r0, w0, r1, w1);
        reqFd, repFd := -1, -1;
        return false;
      }
      kernel.Close(r0);
      kernel.Close(w1);
      return true;
    }

    method CloseAll(r0: int, w0: int, r1: int, w1: int)
      requires kernel.open == {r0, w0, r1, w1} && AllDiffer(r0, w0, r1, w1)
      modifies kernel`open
      ensures kernel.open == {}
    {
      kernel.Close(r0);
      kernel.Close(w0);
      kernel.Close(r1);
      kernel.Close(w1);
    }

    method CloseEnds()
      requires reqFd in kernel.open && repFd in kernel.open && reqFd != repFd
      modifies this`reqFd, this`repFd, kernel`open
      ensures reqFd == repFd == -1 && kernel.open == old(kernel.open) - {old(reqFd), old(repFd)}
    {
      kernel.Close(repFd);
      kernel.Close(reqFd);
      repFd := -1;
      reqFd := -1;
    }

    method ClearField()
      requires field.Valid()
      modifies this`message, field, field.buffer
      ensures field.Valid() && View() == ClearBuffer(old(View()))
    {
      field.ClearBuffer();
      message := [];
    }

    /** The write loop of submit_password: past partial writes and signals, to
        the end or to the first failure. */
    method WriteAll(frame: seq<byte>) returns (failed: bool)
      requires reqFd in kernel.open
      modifies kernel`delivered, kernel`exited, kernel`interruptions
      ensures old(kernel.exited) <= kernel.exited <= old(kernel.exited) + kernel.children
      ensures old(kernel.delivered) <= kernel.delivered <= old(kernel.delivered) + frame
      ensures !failed ==> kernel.delivered == old(kernel.delivered) + frame
    {
      var at := 0;
      failed := false;
      while at < |frame|
        invariant at <= |frame| && reqFd in kernel.open
        invariant old(kernel.exited) <= kernel.exited <= old(kernel.exited) + kernel.children
        invariant kernel.delivered == old(kernel.delivered) + frame[..at]
        decreases |frame| - at, kernel.interruptions
      {
        var r := kernel.Write(reqFd, frame[at..]);
        match r
        case WriteInterrupted =>
        case WriteFailed =>
          failed := true;
          break;
        case Wrote(n) =>
          assert frame[..at] + frame[at..][..n] == frame[..at + n];
          at := at + n;
      }
      assert frame[..|frame|] == frame;
    }

    /** The first part of submit_password's restart: park the previous child, or
        deny the attempt when the pending table is full. */
    method ParkPrevious() returns (parked: bool, ghost timerOk: bool)
      requires Valid() && locked && reqFd == -1 && lockerPid > 0
      modifies this`lockerPid, this`reapTimer, this`shown, this`message, field, field.buffer, pendingPids
      modifies kernel`children, kernel`interruptions
      ensures Valid() && parked == (Defer(old(View())) != old(View()))
      ensures View() == if parked then Parked(old(View()), old(kernel.exited), timerOk)
                        else ReapDeferred(ClearBuffer(old(View())), old(kernel.exited), timerOk).(shown := Denied)
    {
      hide Books, Lost, Defer, ReapDeferred;
      ghost var s, exited := View(), kernel.exited;
      DeferKeepsLedger(s);
      parked := DeferLockerPid();
      if !parked {
        ClearKeepsLedger(s);
        ClearField();
        timerOk := ReapLockerDeferred();
        BeginRefused(s, exited, timerOk);
        shown := Denied;
        return;
      }
      timerOk := ReapLockerDeferred();
      ReapDeferredKeepsLedger(Defer(s), exited, timerOk);
    }

    /** Make room for a new helper: nothing to do without a previous child. */
    method MakeRoom() returns (ok: bool, ghost timerOk: bool)
      requires Valid() && locked && reqFd == -1
      modifies this`lockerPid, this`reapTimer, this`shown, this`message, field, field.buffer, pendingPids
      modifies kernel`children, kernel`interruptions
      ensures Valid() && ok == (old(lockerPid) <= 0 || Defer(old(View())) != old(View()))
      ensures View() == if ok then Parked(old(View()), old(kernel.exited), timerOk)
                        else ReapDeferred(ClearBuffer(old(View())), old(kernel.exited), timerOk).(shown := Denied)
      ensures ok ==> lockerPid <= 0 && locked && reqFd == -1
    {
      ghost var s, exited := View(), kernel.exited;
      ok, timerOk := true, false;
      if lockerPid > 0 {
        hide Books, Lost, Defer, ReapDeferred;
        ok, timerOk := ParkPrevious();
      }
      if ok {
        ParkedKeepsLedger(s, exited, timerOk);
      }
    }

    /** The restart of submit_password. Denies the attempt when there is no
        room to park the previous child or no helper can be started. */
    method RestartHelper() returns (ok: bool, ghost start: Start, ghost timerOk: bool)
      requires Valid() && locked && reqFd == -1
      modifies this`lockerPid, this`reapTimer, this`shown, this`message, this`reqFd, this`repFd
      modifies field, field.buffer, pendingPids, kernel`open, kernel`children, kernel`exited, kernel`delivered,
               kernel`interruptions
      ensures Valid() && LegalBegin(old(View()), start, old(kernel.exited), timerOk)
      ensures ok == SubmitBegin(old(View()), start, old(kernel.exited), timerOk).proceeds
      ensures View() == if ok then StartUnlocker(Parked(old(View()), old(kernel.exited), timerOk), start)
                        else SubmitBegin(old(View()), start, old(kernel.exited), timerOk).session
      ensures kernel.delivered == if ok then [] else old(kernel.delivered)
    {
      ghost var s, exited := View(), kernel.exited;
      ok, timerOk := MakeRoom();
      start := NoPipe;
      NoPipeIsLegal(Parked(s, exited, timerOk));
      if ok {
        ghost var t := View();
        ok, start := StartHelper();
        StartKeepsLedger(t, start);
        hide Books, Lost, Parked, Defer, StartUnlocker, ReapDeferred;
        if !ok {
          DenyOnly();
        }
      }
    }

    method DenyOnly()
      requires Valid()
      modifies this`shown
      ensures Valid() && View() == old(View()).(shown := Denied)
    {
      Relabel(View(), nextSeq, Denied);
      hide Books, Lost;
      shown := Denied;
    }

    /** The attempt gets its number before the request is built. */
    method Advance()
      requires Valid()
      modifies this`shown, this`nextSeq
      ensures Valid() && View() == old(View()).(shown := Verifying, nextSeq := old(nextSeq) + 1)
    {
      Relabel(View(), nextSeq + 1, Verifying);
      hide Books, Lost;
      shown := Verifying;
      nextSeq := nextSeq + 1;
    }

    /** submit_password up to the point where the request is built. */
    method BeginSubmission() returns (proceeds: bool, ghost start: Start, ghost timerOk: bool)
      requires Valid() && locked
      modifies this, field, field.buffer, pendingPids, kernel`open, kernel`children, kernel`exited, kernel`delivered,
               kernel`interruptions
      ensures Valid() && LegalBegin(old(View()), start, old(kernel.exited), timerOk)
      ensures Begun(View(), proceeds) == SubmitBegin(old(View()), start, old(kernel.exited), timerOk)
      ensures kernel.delivered == if proceeds && old(reqFd) == -1 then [] else old(kernel.delivered)
    {
      start, timerOk := NoPipe, false;
      assert reqFd == -1 <==> repFd == -1;
      proceeds := true;
      if reqFd == -1 || repFd == -1 {
        proceeds, start, timerOk := RestartHelper();
      } else {
        NoPipeIsLegal(Parked(View(), kernel.exited, timerOk));
      }
      hide Books, Lost, Parked, Defer, LegalStart, StartUnlocker, ReapDeferred;
      if proceeds {
        Advance();
      }
    }

    /** submit_password after the write loop: scrub the field and watch for the
        reply, or give the attempt up when the event loop refuses. */
    method FinishSubmission() returns (sourceOk: bool, ghost timerOk: bool)
      requires Valid() && locked && reqFd != -1
      modifies this`lockerPid, this`reapTimer, this`shown, this`message, this`source, this`reqFd, this`repFd
      modifies field, field.buffer, pendingPids, kernel`open, kernel`children, kernel`interruptions
      ensures Valid() && View() == SubmitEnd(old(View()), sourceOk, old(kernel.exited), timerOk)
    {
      ghost var s, exited := View(), kernel.exited;
      ClearKeepsLedger(s);
      UnwatchKeepsLedger(ClearBuffer(s));
      SubmitEndKeepsLedger(s, true, exited, false);
      hide Books, Lost, ReapDeferred;
      ClearField();
      source := -1;
      timerOk := false;
      sourceOk := *;
      if sourceOk {
        source := repFd;
        return;
      }
      timerOk := AbandonSubmission();
    }

    /** No event source: tear the attempt down like a terminal result. */
    method AbandonSubmission() returns (ghost timerOk: bool)
      requires Valid() && reqFd != -1 && source == -1
      modifies this`lockerPid, this`reapTimer, this`shown, this`reqFd, this`repFd
      modifies pendingPids, kernel`open, kernel`children, kernel`interruptions
      ensures Valid()
      ensures View() == CloseBoth(ReapDeferred(old(View()), old(kernel.exited), timerOk)).(shown := Denied)
    {
      ghost var s, exited := View(), kernel.exited;
      timerOk := CloseTerminal();
      ghost var t := View();
      shown := Denied;
      Relabel(t, t.nextSeq, Denied);
    }

    /** The terminal branch both handlers share: reap, then close both ends. */
    method CloseTerminal() returns (ghost timerOk: bool)
      requires Valid() && reqFd != -1 && source == -1
      modifies this`lockerPid, this`reapTimer, this`reqFd, this`repFd
      modifies pendingPids, kernel`open, kernel`children, kernel`interruptions
      ensures Valid() && View() == CloseBoth(ReapDeferred(old(View()), old(kernel.exited), timerOk))
    {
      ghost var s, exited := View(), kernel.exited;
      timerOk := ReapLockerDeferred();
      ReapDeferredKeepsLedger(s, exited, timerOk);
      CloseKeepsLedger(View());
      hide ReapDeferred, Held;
      assert reqFd in kernel.open && repFd in kernel.open && reqFd != repFd;
      hide Books, Lost;
      CloseEnds();
    }

    /** submit_password: restart the helper if its pipes are gone, number and
        frame the attempt, write it out, scrub it, and watch for the reply. */
    method SubmitPassword() returns (ghost a: Answers)
      requires Valid() && locked && nextSeq + 1 < SEQ_LIMIT
      modifies this, field, field.buffer, pendingPids, kernel
      ensures Valid() && |a.padding| == 4
      ensures LegalBegin(old(View()), a.start, a.exited, a.timerOk)
      ensures var b := SubmitBegin(old(View()), a.start, a.exited, a.timerOk);
              if !b.proceeds then View() == b.session && kernel.delivered == old(kernel.delivered)
              else
                var sent := Submission(b.session.nextSeq, old(field.Contents()), a.padding);
                var before := if old(reqFd) == -1 then [] else old(kernel.delivered);
                && View() == SubmitEnd(b.session, a.sourceOk, a.exitedAfter, a.timerOkAfter)
                && before <= kernel.delivered <= before + Frame(sent)
                && (!a.failed ==> kernel.delivered == before + Frame(sent))
    {
      hide SubmitBegin, LegalBegin, Books, Lost, SubmitEnd, Header, Frame;
      ghost var s, exited := View(), kernel.exited;
      var proceeds;
      ghost var start, timerOk;
      proceeds, start, timerOk := BeginSubmission();
      SubmitBeginKeepsLedger(s, start, exited, timerOk);
      a := Answers(start, exited, timerOk, [0, 0, 0, 0], false, false, {}, false);
      if !proceeds {
        return;
      }
      var length := field.Length();
      var padding: seq<byte> :| |padding| == 4;
      var request: Request := Submission(nextSeq, field.buffer[..length], padding);
      PipesOpen(View());
      var failed := WriteAll(Frame(request));
      ghost var exitedAfter := kernel.exited;
      var sourceOk;
      ghost var timerOkAfter;
      sourceOk, timerOkAfter := FinishSubmission();
      a := Answers(start, exited, timerOk, padding, failed, sourceOk, exitedAfter, timerOkAfter);
    }

    /** The read loop of locker_result_handler. It never reads a pipe that is
        empty while the helper lives. */
    method DrainReplies(pipe: ReplyPipe, hangup: bool) returns (adopted: Option<Reply>)
      requires if hangup then pipe.writerGone else pipe.queue != []
      modifies pipe`queue, pipe`interruptions
      ensures Drained(adopted, pipe.queue) == Drain(old(pipe.queue), nextSeq, hangup)
    {
      adopted := None;
      ghost var all := Drain(pipe.queue, nextSeq, hangup);
      while true
        invariant hangup ==> pipe.writerGone
        invariant !hangup ==> pipe.queue == old(pipe.queue) && adopted.None? && pipe.queue != []
        invariant hangup ==>
                    var rest := Drain(pipe.queue, nextSeq, true).adopted;
                    all.adopted == if rest.Some? then rest else adopted
        decreases |pipe.queue|, pipe.interruptions
      {
        var r := pipe.Read();
        match r
        case ReplyInterrupted =>
        case NotWhole => break;
        case Whole(candidate) =>
          if candidate.seqNo == nextSeq {
            adopted := Some(candidate);
          }
          if !hangup {
            break;
          }
      }
    }

    /** The two guarded closes of cancel(). */
    method CloseIfOpen()
      requires Valid() && source == -1
      modifies this`reqFd, this`repFd, kernel`open
      ensures Valid() && View() == CloseBoth(old(View()))
    {
      CloseKeepsLedger(View());
      assert reqFd == -1 <==> repFd == -1;
      assert reqFd != -1 ==> reqFd != repFd && kernel.open == {reqFd, repFd};
      assert reqFd == -1 ==> kernel.open == {};
      hide Books, Lost;
      if reqFd != -1 {
        kernel.Close(reqFd);
        reqFd := -1;
      }
      if repFd != -1 {
        kernel.Close(repFd);
        repFd := -1;
      }
      assert kernel.open == {};
    }

    /** Stop watching and close whatever is open. */
    method Detach()
      requires Valid()
      modifies this`source, this`reqFd, this`repFd, kernel`open
      ensures Valid() && View() == CloseBoth(old(View()).(source := -1))
    {
      UnwatchKeepsLedger(View());
      hide Books, Lost, CloseBoth;
      source := -1;
      CloseIfOpen();
    }

    /** cancel(), reached by entering normal mode: stop watching, close what is
        open, reap without blocking. */
    method Cancel() returns (ghost timerOk: bool)
      requires Valid() && locked
      modifies this`lockerPid, this`reapTimer, this`reqFd, this`repFd, this`source, this`locked, this`shown
      modifies pendingPids, kernel`open, kernel`children, kernel`interruptions
      ensures Valid() && View() == Leave(old(View()), old(kernel.exited), timerOk)
    {
      LeaveKeepsLedger(View(), kernel.exited, true);
      LeaveKeepsLedger(View(), kernel.exited, false);
      Detach();
      hide Books, Lost, ReapDeferred, CloseBoth;
      timerOk := ReapLockerDeferred();
      locked := false;
      shown := Idle;
    }

    /** locker_result_handler: drain the pipe, then decide. */
    method LockerResultHandler(pipe: ReplyPipe, hangup: bool) returns (ghost env: Env)
      requires Valid() && locked && source != -1
      requires if hangup then pipe.writerGone else pipe.queue != []
      modifies this, pendingPids, kernel`open, kernel`children, kernel`interruptions, pipe`queue, pipe`interruptions
      ensures Valid()
      ensures var d := Drain(old(pipe.queue), old(nextSeq), hangup);
              pipe.queue == d.left && View() == HandleResult(old(View()), d.adopted, hangup, env)
    {
      env := Env(kernel.exited, false, kernel.exited, false);
      var adopted := DrainReplies(pipe, hangup);
      if adopted.Some? || hangup {
        env := ActOnResult(adopted, hangup);
      }
    }

    /** The verdict: tear down what is finished, then unlock or deny. */
    method ActOnResult(adopted: Option<Reply>, hangup: bool) returns (ghost env: Env)
      requires Valid() && locked && source != -1 && (adopted.Some? || hangup)
      modifies this, pendingPids, kernel`open, kernel`children, kernel`interruptions
      ensures Valid() && View() == HandleResult(old(View()), adopted, hangup, env)
    {
      var success := adopted.Some? && adopted.value.success;
      var terminal := success || adopted.None? || hangup;
      ghost var exited := kernel.exited;
      ghost var timerOk, timerOkAfter := false, false;
      timerOk := StopWatching(terminal);
      var text := Explain(adopted);
      hide Books, Lost, ReapDeferred, CloseBoth, Leave, Drawn;
      if success {
        timerOkAfter := Cancel();
      } else {
        Deny(text);
      }
      env := Env(exited, timerOk, exited, timerOkAfter);
    }

    method StopWatching(terminal: bool) returns (ghost timerOk: bool)
      requires Valid() && locked && source != -1
      modifies this`lockerPid, this`reapTimer, this`reqFd, this`repFd, this`source
      modifies pendingPids, kernel`open, kernel`children, kernel`interruptions
      ensures Valid()
      ensures var t := old(View()).(source := -1);
              View() == if terminal then CloseBoth(ReapDeferred(t, old(kernel.exited), timerOk)) else t
    {
      assert reqFd != -1;
      UnwatchKeepsLedger(View());
      hide Books, Lost, ReapDeferred, CloseBoth;
      timerOk := false;
      source := -1;
      if terminal {
        timerOk := CloseTerminal();
      }
    }

    method Deny(text: seq<byte>)
      requires Valid()
      modifies this`message, this`shown
      ensures Valid()
      ensures View() == old(View()).(shown := Denied, message := if text == [] then old(message) else text)
    {
      DeniedKeepsLedger(View(), if text == [] then message else text);
      hide Books, Lost;
      if text != [] {
        message := text;
      }
      shown := Denied;
    }

    /** The explanation to draw, sanitised into a buffer of its own. */
    method Explain(adopted: Option<Reply>) returns (text: seq<byte>)
      ensures text == if adopted.Some? then Drawn(adopted.value) else []
    {
      text := [];
      NothingSanitized();
      if adopted.Some? && |adopted.value.message| != 0 {
        var out := new byte[MESSAGE_MAX + 1];
        var length := SanitizeMessage(adopted.value.message, |adopted.value.message|, out);
        text := out[..length];
      }
    }

    /** hikari_lock_mode_enter. */
    method EnterLock() returns (ghost start: Start)
      requires Valid() && !locked
      modifies this, field, field.buffer, kernel`open, kernel`children, kernel`exited, kernel`delivered
      ensures Valid() && LegalStart(old(View()), start) && View() == Enter(old(View()), start)
    {
      ghost var s := View();
      locked := true;
      shown := Idle;
      ClearField();
      ghost var t := View();
      assert forall pid :: Held(t, pid) <==> Held(s, pid);
      var ok;
      ok, start := StartHelper();
      StartKeepsLedger(t, start);
    }

    /** The keys of key_handler that edit the password. */
    method Press(key: Key)
      requires Valid() && locked && (key.Char? ==> key.codepoint < 0x1_0000_0000)
      modifies this`shown, this`message, field, field.buffer
      ensures Valid() && View() == PressKey(old(View()), key)
    {
      ghost var s := View();
      match key
      case Char(codepoint) =>
        if codepoint != 0 && field.cursor + CharSize(codepoint) < BUFFER_SIZE {
          shown := Typing;
        }
        field.PutChar(codepoint);
      case Backspace =>
        if field.cursor != 0 {
          shown := if field.cursor == 1 then Idle else Typing;
        }
        field.DeleteChar();
      case Clear =>
        ClearField();
        shown := Idle;
      PressKeepsLedger(s, key);
    }
  }

  lemma NothingSanitized()
    ensures Sanitized([], 0, MESSAGE_MAX + 1) == []
  {
    CharactersOfNothing();
  }

  predicate AllDiffer(a: int, b: int, c: int, d: int) {
    a != b && a != c && a != d && b != c && b != d && c != d
  }

  /** What a pass over the first `i` slots collects. */
  ghost function CollectedBy(s: Session, exited: set<int>, i: nat): set<int>
    requires i <= |s.pending|
  {
    set pid | pid in s.children && pid in exited && pid > 0 && pid in s.pending[..i]
  }

  lemma CollectOne(s: Session, exited: set<int>, i: nat)
    requires HeldOnce(s) && i < |s.pending|
    ensures var pid := s.pending[i];
            && (pid <= 0 ==> CollectedBy(s, exited, i + 1) == CollectedBy(s, exited, i))
            && (pid <= 0 ==> AfterReap(s, pid, exited) == pid)
            && (pid > 0 ==>
                  && (pid in s.children <==> pid in s.children - CollectedBy(s, exited, i))
                  && s.children - CollectedBy(s, exited, i + 1) ==
                     s.children - CollectedBy(s, exited, i) - (if pid in exited then {pid} else {})
                  && AfterReap(s, pid, exited) == if pid in exited || pid !in s.children then -1 else pid)
  {
    var pid := s.pending[i];
    assert s.pending[..i + 1] == s.pending[..i] + [pid];
    if pid > 0 {
      assert pid !in s.pending[..i];
    }
  }

  ghost function ParkedIn(s: Session): set<int> {
    set pid | pid in s.children && pid > 0 && pid in s.pending
  }

  lemma DeferIs(s: Session, i: nat)
    requires s.lockerPid > 0 && i < |s.pending| && s.pending[i] <= 0
    requires forall j :: 0 <= j < i ==> s.pending[j] > 0
    ensures Defer(s) == s.(pending := s.pending[i := s.lockerPid], lockerPid := -1) != s
  {
    FreeSlotIs(s.pending, i);
  }

  lemma FreeSlotIs(pending: seq<int>, i: nat)
    requires i < |pending| && pending[i] <= 0 && forall j :: 0 <= j < i ==> pending[j] > 0
    ensures FreeSlot(pending) == i
  {
  }
}
