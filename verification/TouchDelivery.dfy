/**
  What a touch does: who is sent it, when the emulated button goes down and up,
  which actions run, and when a gesture fires. Each handler of TouchArbitration
  is stated from the state before it, the event, and the meaning of the actions,
  without the functions the handlers are made of.
 */
module TouchDelivery {
  import opened Options
  import opened TouchArbitration

  /** Some finger with that id is down. */
  predicate IsDown(slots: seq<Slot>, id: int) {
    exists n :: 0 <= n < |slots| && slots[n] == Slot(id, true)
  }

  predicate AnyFree(slots: seq<Slot>) { exists n :: 0 <= n < |slots| && !slots[n].active }

  function ModeAfter(mode: Mode, action: Effect): Mode {
    match action
    case Nothing => mode
    case Enter(next) => next
    case LockScreen => Locked
  }

  /** The action a fresh contact runs in normal mode: the end action still owed,
      or else the binding under the finger. */
  function ContactAction(s: State, binding: Option<Binding>): Effect {
    if s.hasPrimary || s.claimed || s.mode != Normal then Nothing
    else if s.pending.Some? then s.pending.value
    else if binding.Some? then binding.value.begin
    else Nothing
  }

  function PressedOut(s: State): seq<Button> {
    if s.hasPrimary && s.emulates then s.buttons + [Released] else s.buttons
  }

  /** An action changes the mode and nothing else, but one that locks the screen
      first takes all touches away. */
  lemma ActionRuns(s: State, e: Effect)
    requires Base(s) && s.mode != Locked
    ensures var t := RunEffect(s, e);
            if e == LockScreen
            then t.mode == Locked && t.seat == [] && t.npoints == 0 && t.buttons == PressedOut(s)
                 && !t.hasPrimary && !t.claimed && !t.fired && t.pending == s.pending && t.marks == s.marks + [Reset]
            else t == s.(mode := ModeAfter(s.mode, e))
  {
    hide CancelAll, Emptied;
    if e == LockScreen {
      EndPrimaryKeeps(s);
      ForgetKeeps(if s.hasPrimary then EndPrimary(s) else s);
      ListeningAside(s);
    }
  }

  lemma ListeningAside(s: State)
    ensures var u := if s.hasPrimary then EndPrimary(s) else s;
            Deactivate(s) == ResetGesture(CancelClients(u)).(listening := false)
  {
    hide CancelAll, Emptied;
  }

  lemma SlotGiven(s: State, id: int)
    ensures AnyFree(s.slots) <==> HasRoom(s)
    ensures var t := GestureDown(s, id);
            && t == s.(slots := t.slots, npoints := t.npoints, peak := t.peak)
            && t.npoints == (if AnyFree(s.slots) then s.npoints + 1 else s.npoints)
            && (AnyFree(s.slots) ==> IsDown(t.slots, id))
  {
    var n := FreeSlot(s.slots);
    if n < |s.slots| {
      assert GestureDown(s, id).slots[n] == Slot(id, true);
    }
  }

  /** A fresh contact, once the finger has its slot and its client. */
  lemma ContactBegins(s: State, id: int, device: int, hit: Option<Hit>, binding: Option<Binding>)
    requires Inv(s) && !s.hasPrimary && !s.claimed && s.listening && SaneBinding(binding)
    ensures var t, action := BeginPrimary(s, id, device, hit, binding), ContactAction(s, binding);
            && t.mode == ModeAfter(s.mode, action)
            && t.seat == (if action == LockScreen then [] else s.seat)
            && t.npoints == (if action == LockScreen then 0 else s.npoints)
            && (action != LockScreen ==>
                  t.slots == s.slots && t.hasPrimary && t.primaryId == id && t.primaryDevice == device)
            && t.buttons == (if s.mode == Normal && s.pending.None? && binding.None? && hit.Some? && !hit.value.hasTouch
                             then s.buttons + [Pressed] else s.buttons)
            && t.pending == (if s.mode != Normal then s.pending
                             else if s.pending.None? && binding.Some? then binding.value.end else None)
  {
    FreshContact(s, id, device);
    var c := s.(hasPrimary := true, primaryId := id, primaryDevice := device);
    var owes := s.pending.None? && binding.Some? && binding.value.end.Some?;
    var owed := if owes then c.(pending := binding.value.end) else c;
    hide Inv, RunEffect, PressedOut;
    if s.mode == Normal && (s.pending.Some? || binding.Some?) {
      OwedKeeps(c, owed.pending);
      ActionRuns(owed, ContactAction(s, binding));
      NoPress(owed);
    }
  }

  lemma OwedKeeps(s: State, pending: Option<Effect>)
    requires Inv(s) && SaneOption(pending)
    ensures Base(s.(pending := pending))
  {
  }

  lemma NoPress(s: State)
    requires !s.emulates
    ensures PressedOut(s) == s.buttons
  {
  }

  /** A finger goes down. It is delivered to the client under it exactly if there
      is a slot for it, the sequence is still the client's and the client takes
      touch. An action that locks the screen takes every finger back. */
  lemma DownDelivers(s: State, id: int, device: int, hit: Option<Hit>, binding: Option<Binding>)
    requires Inv(s) && Enabled(s, Down(id, device, hit, binding))
    ensures var t, action := Step(s, Down(id, device, hit, binding)), ContactAction(s, binding);
            && t.seat == (if action == LockScreen then []
                          else if AnyFree(s.slots) && !s.claimed && hit.Some? && hit.value.hasTouch
                          then [SeatPoint(id, hit.value.client)] + s.seat
                          else s.seat)
            && t.npoints == (if action == LockScreen then 0 else if AnyFree(s.slots) then s.npoints + 1 else s.npoints)
            && (action != LockScreen && AnyFree(s.slots) ==> IsDown(t.slots, id))
  {
    DownDone(s, id, device, hit, binding);
    SlotGiven(s, id);
  }

  /** The first contact of a sequence becomes the primary one and runs the action
      owed or bound. The emulated button goes down exactly if nothing took that
      contact, in normal mode, over a client that does not take touch. */
  lemma DownActs(s: State, id: int, device: int, hit: Option<Hit>, binding: Option<Binding>)
    requires Inv(s) && Enabled(s, Down(id, device, hit, binding))
    ensures var t, action := Step(s, Down(id, device, hit, binding)), ContactAction(s, binding);
            var first := !s.hasPrimary && !s.claimed;
            && t.mode == ModeAfter(s.mode, action)
            && t.buttons == (if first && s.mode == Normal && s.pending.None? && binding.None? &&
                                hit.Some? && !hit.value.hasTouch
                             then s.buttons + [Pressed] else s.buttons)
            && (first && action != LockScreen ==> t.hasPrimary && t.primaryId == id && t.primaryDevice == device)
            && (!first ==> t.hasPrimary == s.hasPrimary && t.primaryId == s.primaryId)
            && t.pending == (if !first || s.mode != Normal then s.pending
                             else if s.pending.None? && binding.Some? then binding.value.end else None)
  {
    DownDone(s, id, device, hit, binding);
    SlotGiven(s, id);
  }

  lemma DownDone(s: State, id: int, device: int, hit: Option<Hit>, binding: Option<Binding>)
    requires Inv(s) && Enabled(s, Down(id, device, hit, binding))
    ensures var t := GestureDown(s, id);
            var sent := AnyFree(s.slots) && !s.claimed && hit.Some? && hit.value.hasTouch;
            var u := if sent then t.(seat := [SeatPoint(id, hit.value.client)] + s.seat) else t;
            var v := Step(s, Down(id, device, hit, binding));
            if s.hasPrimary || s.claimed then v == u
            else
              && v.mode == ModeAfter(s.mode, ContactAction(s, binding))
              && v.seat == (if ContactAction(s, binding) == LockScreen then [] else u.seat)
              && v.npoints == (if ContactAction(s, binding) == LockScreen then 0 else u.npoints)
              && (ContactAction(s, binding) != LockScreen ==>
                    v.slots == u.slots && v.hasPrimary && v.primaryId == id && v.primaryDevice == device)
              && v.buttons == (if s.mode == Normal && s.pending.None? && binding.None? &&
                                  hit.Some? && !hit.value.hasTouch
                               then s.buttons + [Pressed] else s.buttons)
              && v.pending == (if s.mode != Normal then s.pending
                               else if s.pending.None? && binding.Some? then binding.value.end else None)
  {
    SlotTaken(s, id, hit);
    SlotGiven(s, id);
    hide Inv, BeginPrimary, GestureDown, FreeSlot;
    var t := GestureDown(s, id);
    var sent := AnyFree(s.slots) && !s.claimed && hit.Some? && hit.value.hasTouch;
    var u := if sent then t.(seat := [SeatPoint(id, hit.value.client)] + s.seat) else t;
    assert Step(s, Down(id, device, hit, binding)) ==
           if !u.hasPrimary && !u.claimed then BeginPrimary(u, id, device, hit, binding) else u;
    if !u.hasPrimary && !u.claimed {
      ContactBegins(u, id, device, hit, binding);
      assert ContactAction(u, binding) == ContactAction(s, binding);
    }
  }

  // ---------------------------------------------------- a contact that ends

  /** The end of the primary contact runs the action owed in normal mode and ends
      a move or a resize. */
  function ModeAfterContact(s: State): Mode {
    match s.mode
    case Normal => if s.pending.Some? then ModeAfter(Normal, s.pending.value) else Normal
    case Move => Normal
    case Resize => Normal
    case _ => s.mode
  }

  predicate EndLocks(s: State) { s.mode == Normal && s.pending == Some(LockScreen) }

  lemma ContactEnds(s: State)
    requires Base(s) && s.hasPrimary
    ensures var t := ReleasePrimary(s);
            && !t.hasPrimary && t.mode == ModeAfterContact(s) && t.buttons == PressedOut(s)
            && t.pending == (if s.mode == Normal then None else s.pending)
            && if EndLocks(s)
               then t.seat == [] && t.npoints == 0 && !t.claimed && !t.fired && t.marks == s.marks + [Reset]
               else t == s.(hasPrimary := false, emulates := false, buttons := t.buttons, mode := t.mode,
                            pending := t.pending)
  {
    EndPrimaryKeeps(s);
    var u := EndPrimary(s);
    hide Base, RunEffect;
    if u.mode == Normal && u.pending.Some? {
      ActionRuns(u, u.pending.value);
    }
  }

  // ------------------------------------------------------------- a gesture

  /** The mode a claim leaves: it ends the primary contact, if there is one. */
  function ModeAfterClaim(s: State): Mode { if s.hasPrimary then ModeAfterContact(s) else s.mode }

  predicate ClaimLocks(s: State) { s.hasPrimary && EndLocks(s) }

  /** What recognising a gesture comes to: every client loses its fingers, the
      emulated button is let go, and the action runs, unless ending the primary
      contact has just locked the screen. */
  predicate Recognised(s: State, t: State, action: Effect) {
    && t.seat == [] && !t.hasPrimary && t.buttons == PressedOut(s)
    && t.mode == (if ClaimLocks(s) then Locked else ModeAfter(ModeAfterClaim(s), action))
    && |s.marks| < |t.marks| && t.marks[..|s.marks|] == s.marks
    && t.marks[|s.marks|] == (if ClaimLocks(s) then Reset else Fired)
  }

  lemma ClaimTakes(s: State)
    requires Base(s)
    ensures var t := Claim(s);
            && t.seat == [] && !t.hasPrimary && t.buttons == PressedOut(s) && t.mode == ModeAfterClaim(s)
            && t.npoints == (if ClaimLocks(s) then 0 else s.npoints)
            && t.marks == (if ClaimLocks(s) then s.marks + [Reset] else s.marks)
  {
    CancelAllEmpties(s.slots, s.seat);
    TakenKeeps(s);
    hide CancelAll;
    var c := CancelClients(s).(claimed := true);
    var u := if c.hasPrimary then EndPrimary(c) else c;
    if c.hasPrimary {
      hide Base, RunEffect;
      if u.mode == Normal && u.pending.Some? {
        ActionRuns(u, u.pending.value);
      }
    }
  }

  lemma RecogniseDoes(s: State, e: Effect)
    requires Base(s) && Open(s) && IsSane(e)
    ensures Recognised(s, Recognise(s, e), e)
    ensures Recognise(s, e).npoints == s.npoints || Recognise(s, e).npoints == 0
  {
    ClaimTakes(s);
    ClaimKeeps(s);
    ClaimMarks(s);
    hide Base, Claim, RunEffect, PressedOut;
    var t := Claim(s).(fired := true);
    if t.mode != Locked {
      var u := t.(marks := t.marks + [Fired]);
      MarkKeeps(t);
      ActionRuns(u, e);
      PressedTwice(u);
    } else {
      LockedOnlyByClaim(s);
    }
  }

  lemma MarkKeeps(s: State)
    requires Base(s) && s.fired && (s.marks != [] ==> s.marks[|s.marks| - 1] == Reset)
    ensures Base(s.(marks := s.marks + [Fired]))
  {
    hide ActiveCount;
  }

  lemma PressedTwice(s: State)
    requires !s.hasPrimary
    ensures PressedOut(s) == s.buttons
  {
  }

  lemma LockedOnlyByClaim(s: State)
    requires Base(s) && s.mode != Locked && ModeAfterClaim(s) == Locked
    ensures ClaimLocks(s)
  {
    assert SaneOption(s.pending);
  }

  lemma FindsDown(slots: seq<Slot>, id: int)
    ensures FindSlot(slots, id) < |slots| <==> IsDown(slots, id)
  {
    var n := FindSlot(slots, id);
    if n < |slots| {
      assert slots[n] == Slot(id, true);
    }
  }

  /** A movement fires its gesture exactly if every finger of an unclaimed,
      unfired sequence of three or more is still down; otherwise it changes
      nothing. */
  lemma MotionFiresIff(s: State, id: int, gesture: Option<Effect>)
    requires Inv(s) && Enabled(s, Motion(id, gesture))
    ensures var t := Step(s, Motion(id, gesture));
            if IsDown(s.slots, id) && !s.claimed && !s.fired && s.peak >= 3 && s.npoints == s.peak && gesture.Some?
            then Recognised(s, t, gesture.value) else t == s
  {
    FindsDown(s.slots, id);
    ListeningIsUnlocked(s);
    hide Base, Recognise, Recognised, IsDown, FindSlot;
    if Open(s) && gesture.Some? {
      RecogniseDoes(s, gesture.value);
    }
  }

  lemma ListeningIsUnlocked(s: State)
    requires Inv(s) && s.listening
    ensures s.mode != Locked && Base(s)
  {
  }

  // ---------------------------------------------------------------- a lift

  /** How many fingers are left. */
  function Left(s: State, id: int): int { if IsDown(s.slots, id) then s.npoints - 1 else s.npoints }

  /** The lift makes a hold of it. */
  predicate Holds(s: State, id: int, hold: Option<Effect>) {
    !s.claimed && !s.fired && s.peak >= 3 && Left(s, id) == s.peak - 1 && hold.Some?
  }

  lemma LiftLeaves(s: State, id: int)
    requires Inv(s) && s.listening
    ensures var t := Lift(ForwardUp(s, id), id);
            && t == s.(seat := t.seat, slots := t.slots, npoints := Left(s, id))
            && t.seat == (if s.claimed then s.seat else WithoutFirst(s.seat, id))
            && Base(t) && t.mode != Locked
  {
    LiftOne(s, id);
    FindsDown(s.slots, id);
    ListeningIsUnlocked(s);
    hide Base, IsDown, FindSlot;
  }

  /** A finger lifts. Its client is told unless the sequence is claimed; a lift
      that makes a hold fires it; the lift of the primary contact lets the button
      go and runs the action owed; the last lift forgets the sequence. */
  lemma LiftDelivers(s: State, id: int, hold: Option<Effect>)
    requires Inv(s) && Enabled(s, Up(id, hold))
    ensures var t := Step(s, Up(id, hold));
            var primary := s.hasPrimary && id == s.primaryId;
            if Holds(s, id, hold) then Recognised(s, t, hold.value)
            else
              && t.seat == (if primary && EndLocks(s) then []
                            else if s.claimed then s.seat else WithoutFirst(s.seat, id))
              && t.hasPrimary == (s.hasPrimary && !primary)
              && t.mode == (if primary then ModeAfterContact(s) else s.mode)
              && t.buttons == (if primary then PressedOut(s) else s.buttons)
              && t.npoints == (if primary && EndLocks(s) then 0 else Left(s, id))
              && (t.npoints <= 0 ==> !t.claimed && !t.fired)
  {
    LiftLeaves(s, id);
    var t := Lift(ForwardUp(s, id), id);
    hide Inv, Base, Lift, ForwardUp, Recognise, ReleasePrimary, Left, PressedOut, ModeAfterContact, Emptied;
    SameContact(s, t);
    if Holds(s, id, hold) {
      RecogniseDoes(t, hold.value);
      HoldResets(s, t, Recognise(t, hold.value), hold.value);
    } else {
      var w := if t.npoints <= 0 then ResetGesture(t) else t;
      GestureUpKeeps(ForwardUp(s, id), id, hold);
      assert GestureUp(ForwardUp(s, id), id, hold) == w;
      SameContact(t, w);
      if w.hasPrimary && id == w.primaryId {
        InvIsBase(w);
        ContactEnds(w);
      }
    }
  }

  lemma InvIsBase(s: State)
    requires Inv(s)
    ensures Base(s)
  {
  }

  /** What a contact's end looks at. */
  lemma SameContact(s: State, t: State)
    requires s.hasPrimary == t.hasPrimary && s.emulates == t.emulates && s.buttons == t.buttons
    requires s.mode == t.mode && s.pending == t.pending
    ensures PressedOut(s) == PressedOut(t) && ModeAfterContact(s) == ModeAfterContact(t)
    ensures ModeAfterClaim(s) == ModeAfterClaim(t) && EndLocks(s) == EndLocks(t) && ClaimLocks(s) == ClaimLocks(t)
  {
  }

  lemma HoldResets(s: State, t: State, u: State, action: Effect)
    requires Recognised(t, u, action) && s.marks == t.marks && PressedOut(s) == PressedOut(t)
    requires ModeAfterClaim(s) == ModeAfterClaim(t) && ClaimLocks(s) == ClaimLocks(t)
    ensures Recognised(s, u, action) && Recognised(s, ResetGesture(u), action)
  {
    hide Emptied;
  }

  /** A hardware cancel, or the loss of a device: nobody holds a finger, none is
      counted, and the primary contact ends if it was the one. */
  lemma CancelDelivers(s: State, id: int)
    requires Inv(s) && Enabled(s, Cancel(id))
    ensures var t := Step(s, Cancel(id)); EndedBy(s, t, s.hasPrimary && id == s.primaryId)
  {
    ForgetKeeps(s);
    var u := ResetGesture(CancelClients(s));
    SameContact(s, u);
    hide Base, CancelAll, Emptied, ReleasePrimary, PressedOut, ModeAfterContact;
    if u.hasPrimary && id == u.primaryId {
      ContactEnds(u);
    }
  }

  lemma DeviceGoneDelivers(s: State, device: int)
    requires Inv(s)
    ensures var t := Step(s, DeviceGone(device)); EndedBy(s, t, s.hasPrimary && device == s.primaryDevice)
  {
    var u := if s.hasPrimary && s.primaryDevice == device then ReleasePrimary(s) else s;
    ReleaseKeeps(s);
    ForgetKeeps(u);
    hide Base, CancelAll, Emptied, ReleasePrimary, PressedOut, ModeAfterContact;
    if s.hasPrimary && s.primaryDevice == device {
      ContactEnds(s);
    }
  }

  predicate EndedBy(s: State, t: State, primary: bool) {
    && t.seat == [] && t.npoints == 0 && !t.claimed && !t.fired
    && t.hasPrimary == (s.hasPrimary && !primary)
    && t.mode == (if primary then ModeAfterContact(s) else s.mode)
    && t.buttons == (if primary then PressedOut(s) else s.buttons)
    && t.pending == (if primary && s.mode == Normal then None else s.pending)
  }
}
