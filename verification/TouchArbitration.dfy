/**
  Whose is a touch: the client's, window management's, or a compositor
  gesture's? The recogniser, the primary contact and the handlers of
  src/cursor.c with the mode half of src/normal_mode.c, as a state and the steps
  the handlers take. Actions run from inside handlers and may lock the screen,
  which re-enters the code to deactivate the cursor.
 */
module TouchArbitration {
  import opened Options

  const MAX_POINTS: nat := 10
  const MIN_FINGERS: nat := 3

  type Client = nat

  /** One entry of points[]. */
  datatype Slot = Slot(id: int, active: bool)

  /** One touch point of the seat: a finger a client was sent a down for, and
      neither an up nor a cancel yet. */
  datatype SeatPoint = SeatPoint(id: int, client: Client)

  datatype Mode = Normal | Move | Resize | Swallowing | Locked

  /** What a configured action does to the touch state. */
  datatype Effect = Nothing | Enter(mode: Mode) | LockScreen

  datatype Binding = Binding(begin: Effect, end: Option<Effect>)

  datatype Button = Pressed | Released

  datatype Mark = Fired | Reset

  datatype State = State(
    slots: seq<Slot>, npoints: int, peak: int, claimed: bool, fired: bool,
    hasPrimary: bool, primaryId: int, primaryDevice: int, emulates: bool,
    mode: Mode, pending: Option<Effect>, listening: bool,
    seat: seq<SeatPoint>, buttons: seq<Button>, marks: seq<Mark>)

  // ---------------------------------------------------------------- the seat

  function FindPoint(seat: seq<SeatPoint>, id: int): Option<Client> {
    if seat == [] then None else if seat[0].id == id then Some(seat[0].client) else FindPoint(seat[1..], id)
  }

  /** wl_touch.cancel ends every point of that client. */
  function WithoutClient(seat: seq<SeatPoint>, c: Client): seq<SeatPoint> {
    if seat == [] then []
    else if seat[0].client == c then WithoutClient(seat[1..], c)
    else [seat[0]] + WithoutClient(seat[1..], c)
  }

  /** wl_touch.up ends one point with that id. */
  function WithoutFirst(seat: seq<SeatPoint>, id: int): seq<SeatPoint> {
    if seat == [] then []
    else if seat[0].id == id then seat[1..]
    else [seat[0]] + WithoutFirst(seat[1..], id)
  }

  function OnSeat(seat: seq<SeatPoint>, id: int): nat {
    if seat == [] then 0 else (if seat[0].id == id then 1 else 0) + OnSeat(seat[1..], id)
  }

  // --------------------------------------------------------------- the slots

  function ActiveCount(slots: seq<Slot>): nat {
    if slots == [] then 0 else (if slots[0].active then 1 else 0) + ActiveCount(slots[1..])
  }

  function Tracking(slots: seq<Slot>, id: int): nat {
    if slots == [] then 0
    else (if slots[0].active && slots[0].id == id then 1 else 0) + Tracking(slots[1..], id)
  }

  /** touch_point_find: the first active slot with that id. */
  function FindSlot(slots: seq<Slot>, id: int): (n: nat)
    ensures n <= |slots|
    ensures n < |slots| ==> slots[n].active && slots[n].id == id
    ensures forall i :: 0 <= i < n ==> !(slots[i].active && slots[i].id == id)
  {
    if slots == [] || (slots[0].active && slots[0].id == id) then 0 else 1 + FindSlot(slots[1..], id)
  }

  function FreeSlot(slots: seq<Slot>): (n: nat)
    ensures n <= |slots|
    ensures n < |slots| ==> !slots[n].active
    ensures forall i :: 0 <= i < n ==> slots[i].active
  {
    if slots == [] || !slots[0].active then 0 else 1 + FreeSlot(slots[1..])
  }

  function Emptied(slots: seq<Slot>): (r: seq<Slot>)
    ensures |r| == |slots|
  {
    seq(|slots|, i requires 0 <= i < |slots| => slots[i].(active := false))
  }

  // ------------------------------------------------ claiming and forgetting

  /** touch_cancel_client_sequences: look each tracked finger up and cancel the
      client holding it. */
  function CancelAll(slots: seq<Slot>, seat: seq<SeatPoint>): seq<SeatPoint>
    decreases slots
  {
    if slots == [] then seat
    else
      var holder := if slots[0].active then FindPoint(seat, slots[0].id) else None;
      CancelAll(slots[1..], if holder.Some? then WithoutClient(seat, holder.value) else seat)
  }

  function CancelClients(s: State): State { s.(seat := CancelAll(s.slots, s.seat)) }

  /** touch_gesture_reset. */
  function ResetGesture(s: State): State {
    s.(slots := Emptied(s.slots), npoints := 0, peak := 0, claimed := false, fired := false, marks := s.marks + [Reset])
  }

  /** end_primary_touch: the emulated press gets its release. */
  function EndPrimary(s: State): State {
    var t := s.(hasPrimary := false);
    if t.emulates then t.(buttons := t.buttons + [Released], emulates := false) else t
  }

  /** hikari_cursor_deactivate. */
  function Deactivate(s: State): State {
    var t := s.(listening := false);
    var u := if t.hasPrimary then EndPrimary(t) else t;
    ResetGesture(CancelClients(u))
  }

  // ------------------------------------------------------------------ actions

  /** hikari_lock_mode_enter deactivates the cursor, then installs its mode. */
  function RunEffect(s: State, e: Effect): State {
    match e
    case Nothing => s
    case Enter(m) => s.(mode := m)
    case LockScreen => Deactivate(s).(mode := Locked)
  }

  /** handle_pending_action. */
  function RunPending(s: State): State {
    if s.pending.Some? then RunEffect(s, s.pending.value).(pending := None) else s
  }

  /** handle_input on a matching binding. */
  function RunBinding(s: State, b: Binding): State {
    RunEffect(if b.end.Some? then s.(pending := b.end) else s, b.begin)
  }

  /** The current mode's touch_end: normal mode runs the pending end action,
      move and resize return to normal mode, the others ignore touch. */
  function TouchEnd(s: State): State {
    match s.mode
    case Normal => RunPending(s)
    case Move => s.(mode := Normal)
    case Resize => s.(mode := Normal)
    case _ => s
  }

  function ReleasePrimary(s: State): State { TouchEnd(EndPrimary(s)) }

  /** touch_gesture_claim. */
  function Claim(s: State): State {
    var t := CancelClients(s).(claimed := true);
    if t.hasPrimary then ReleasePrimary(t) else t
  }

  /** fire_gesture_binding refuses on a locked screen. */
  function Fire(s: State, e: Effect): State {
    if s.mode == Locked then s else RunEffect(s.(marks := s.marks + [Fired]), e)
  }

  /** A configured gesture was recognised. */
  function Recognise(s: State, e: Effect): State { Fire(Claim(s).(fired := true), e) }

  /** Whether the sequence may still become a gesture at all. */
  predicate Open(s: State) { !s.claimed && !s.fired && s.mode != Locked && s.peak >= MIN_FINGERS }

  /** touch_gesture_evaluate; `match_` is the binding the movement matches. */
  function Evaluate(s: State, match_: Option<Effect>): State {
    if Open(s) && s.npoints == s.peak && match_.Some? then Recognise(s, match_.value) else s
  }

  /** touch_gesture_try_hold. */
  function TryHold(s: State, match_: Option<Effect>): State {
    if Open(s) && match_.Some? then Recognise(s, match_.value) else s
  }

  // ----------------------------------------------------------- the recogniser

  function GestureDown(s: State, id: int): State {
    var n := FreeSlot(s.slots);
    if n == |s.slots| then s
    else s.(slots := s.slots[n := Slot(id, true)], npoints := s.npoints + 1,
            peak := if s.npoints + 1 > s.peak then s.npoints + 1 else s.peak)
  }

  predicate HasRoom(s: State) { FreeSlot(s.slots) < |s.slots| }

  function GestureMotion(s: State, id: int, match_: Option<Effect>): State {
    if FindSlot(s.slots, id) == |s.slots| then s else Evaluate(s, match_)
  }

  /** The finger's slot is freed, if it has one. */
  function Lift(s: State, id: int): State {
    var n := FindSlot(s.slots, id);
    if n == |s.slots| then s
    else s.(slots := s.slots[n := s.slots[n].(active := false)], npoints := s.npoints - 1)
  }

  function GestureUp(s: State, id: int, match_: Option<Effect>): State {
    var t := Lift(s, id);
    var u := if t.npoints == t.peak - 1 then TryHold(t, match_) else t;
    if u.npoints <= 0 then ResetGesture(u) else u
  }

  // ------------------------------------------------------------- the handlers

  /** What is under the finger, and whether that client has bound wl_touch. */
  datatype Hit = Hit(client: Client, hasTouch: bool)

  datatype Begun = Begun(state: State, consumed: bool)

  /** The mode's touch_begin; only normal mode has one. */
  function TouchBegin(s: State, binding: Option<Binding>): Begun {
    if s.mode != Normal then Begun(s, false)
    else if s.pending.Some? then Begun(RunPending(s), true)
    else if binding.Some? then Begun(RunBinding(s, binding.value), true)
    else Begun(s, false)
  }

  /** The primary contact of a fresh sequence. */
  function BeginPrimary(s: State, id: int, device: int, hit: Option<Hit>, binding: Option<Binding>): State {
    var b := TouchBegin(s.(hasPrimary := true, primaryId := id, primaryDevice := device), binding);
    var emulates := b.state.mode == Normal && !b.consumed && hit.Some? && !hit.value.hasTouch;
    b.state.(emulates := emulates, buttons := if emulates then b.state.buttons + [Pressed] else b.state.buttons)
  }

  function OnDown(s: State, id: int, device: int, hit: Option<Hit>, binding: Option<Binding>): State {
    var t := GestureDown(s, id);
    var u := if HasRoom(s) && hit.Some? && !t.claimed && hit.value.hasTouch
             then t.(seat := [SeatPoint(id, hit.value.client)] + t.seat) else t;
    if !u.hasPrimary && !u.claimed then BeginPrimary(u, id, device, hit, binding) else u
  }

  /** The lift reaches the client unless the sequence is claimed. */
  function ForwardUp(s: State, id: int): State {
    if s.claimed then s else s.(seat := WithoutFirst(s.seat, id))
  }

  function OnUp(s: State, id: int, match_: Option<Effect>): State {
    var u := GestureUp(ForwardUp(s, id), id, match_);
    if u.hasPrimary && id == u.primaryId then ReleasePrimary(u) else u
  }

  function OnMotion(s: State, id: int, match_: Option<Effect>): State { GestureMotion(s, id, match_) }

  function OnCancel(s: State, id: int): State {
    var t := ResetGesture(CancelClients(s));
    if t.hasPrimary && id == t.primaryId then ReleasePrimary(t) else t
  }

  /** hikari_cursor_release_primary_touch: a touch device is gone. */
  function OnDeviceGone(s: State, device: int): State {
    var t := if s.hasPrimary && s.primaryDevice == device then ReleasePrimary(s) else s;
    ResetGesture(CancelClients(t))
  }

  /** Everything that happens to the touch state. `Keyboard` is a key press that
      runs a pending action or a binding, `Action` an action run on its own
      account; `Unlock` reattaches the listeners. */
  datatype Event =
    | Down(id: int, device: int, hit: Option<Hit>, binding: Option<Binding>)
    | Up(id: int, hold: Option<Effect>)
    | Motion(id: int, gesture: Option<Effect>)
    | Cancel(id: int)
    | DeviceGone(device: int)
    | Keyboard(binding: Option<Binding>)
    | Action(effect: Effect)
    | ClientGone(client: Client)
    | Unlock

  predicate IsSane(e: Effect) { e.Enter? ==> e.mode != Locked }

  predicate SaneOption(e: Option<Effect>) { e.Some? ==> IsSane(e.value) }

  predicate SaneBinding(b: Option<Binding>) { b.Some? ==> IsSane(b.value.begin) && SaneOption(b.value.end) }

  /** Touch handlers run while the listeners are attached; lock mode is only
      entered through the lock action. */
  predicate Enabled(s: State, e: Event) {
    match e
    case Down(_, _, _, binding) => s.listening && SaneBinding(binding)
    case Up(_, hold) => s.listening && SaneOption(hold)
    case Motion(_, gesture) => s.listening && SaneOption(gesture)
    case Cancel(_) => s.listening
    case DeviceGone(_) => true
    case Keyboard(binding) => s.mode == Normal && SaneBinding(binding)
    case Action(effect) => s.mode != Locked && IsSane(effect)
    case ClientGone(_) => true
    case Unlock => s.mode == Locked
  }

  function Step(s: State, e: Event): State {
    match e
    case Down(id, device, hit, binding) => OnDown(s, id, device, hit, binding)
    case Up(id, hold) => OnUp(s, id, hold)
    case Motion(id, gesture) => OnMotion(s, id, gesture)
    case Cancel(id) => OnCancel(s, id)
    case DeviceGone(device) => OnDeviceGone(s, device)
    case Keyboard(binding) =>
      if s.pending.Some? then RunPending(s) else if binding.Some? then RunBinding(s, binding.value) else s
    case Action(effect) => RunEffect(s, effect)
    case ClientGone(c) => s.(seat := WithoutClient(s.seat, c))
    case Unlock => s.(mode := Normal, listening := true)
  }

  // ------------------------------------------------------------ the invariant

  /** No touch is stranded: every finger a client still holds is tracked, as
      often as it is held. */
  ghost predicate NoneStranded(s: State) {
    forall id :: OnSeat(s.seat, id) <= Tracking(s.slots, id)
  }

  /** Presses and releases alternate, and one press is outstanding exactly while
      a contact is emulated. */
  predicate Alternating(buttons: seq<Button>) {
    forall i :: 0 <= i < |buttons| ==> buttons[i] == if i % 2 == 0 then Pressed else Released
  }

  ghost predicate Paired(s: State) {
    Alternating(s.buttons) && (s.emulates <==> |s.buttons| % 2 == 1)
  }

  /** No two gestures fire without a reset between them, and once one has, the
      sequence remembers. */
  ghost predicate FiredOnce(s: State) {
    && (forall i :: 0 <= i < |s.marks| - 1 ==> s.marks[i] == Reset || s.marks[i + 1] == Reset)
    && (s.marks != [] && s.marks[|s.marks| - 1] == Fired ==> s.fired)
  }

  /** What holds even between a lift and what the lift decides, when the peak
      may outlive the last finger. */
  ghost predicate Base(s: State) {
    && |s.slots| == MAX_POINTS && s.npoints == ActiveCount(s.slots) <= s.peak
    && NoneStranded(s) && Paired(s) && FiredOnce(s)
    && (s.claimed ==> !s.hasPrimary && s.seat == [])
    && (s.emulates ==> s.hasPrimary)
    && (s.mode == Locked <==> !s.listening)
    && (!s.listening ==> s.npoints == 0 && !s.hasPrimary)
    && SaneOption(s.pending)
  }

  ghost predicate Inv(s: State) {
    Base(s) && (s.npoints == 0 ==> s.peak == 0 && !s.claimed)
  }

  /** The state hikari_cursor_init and hikari_cursor_activate leave. */
  function Init(): State {
    State(seq(MAX_POINTS, _ => Slot(0, false)), 0, 0, false, false, false, 0, 0, false, Normal, None, true, [], [], [])
  }

  // ------------------------------------------------- counting slots and points

  lemma {:induction false} ActivateCounts(slots: seq<Slot>, n: nat, id: int)
    requires n < |slots| && !slots[n].active
    ensures var t := slots[n := Slot(id, true)];
            && ActiveCount(t) == ActiveCount(slots) + 1
            && forall x :: Tracking(t, x) == Tracking(slots, x) + if x == id then 1 else 0
  {
    var t := slots[n := Slot(id, true)];
    if n > 0 {
      ActivateCounts(slots[1..], n - 1, id);
      assert t[1..] == slots[1..][n - 1 := Slot(id, true)];
    } else {
      assert t[1..] == slots[1..];
    }
  }

  lemma {:induction false} DeactivateCounts(slots: seq<Slot>, n: nat)
    requires n < |slots| && slots[n].active
    ensures var t := slots[n := slots[n].(active := false)];
            && ActiveCount(t) == ActiveCount(slots) - 1
            && forall x :: Tracking(t, x) == Tracking(slots, x) - if x == slots[n].id then 1 else 0
  {
    var t := slots[n := slots[n].(active := false)];
    if n > 0 {
      DeactivateCounts(slots[1..], n - 1);
      assert t[1..] == slots[1..][n - 1 := slots[n].(active := false)];
    } else {
      assert t[1..] == slots[1..];
    }
  }

  lemma {:induction false} EmptiedCounts(slots: seq<Slot>)
    ensures ActiveCount(Emptied(slots)) == 0
    ensures forall x :: Tracking(Emptied(slots), x) == 0
  {
    if slots == [] {
    } else {
      EmptiedCounts(slots[1..]);
      assert Emptied(slots)[1..] == Emptied(slots[1..]);
    }
  }

  lemma {:induction false} NotTracked(slots: seq<Slot>, id: int)
    requires FindSlot(slots, id) == |slots|
    ensures Tracking(slots, id) == 0
  {
    if slots == [] {
    } else {
      NotTracked(slots[1..], id);
    }
  }

  lemma {:induction false} FewerWithoutClient(seat: seq<SeatPoint>, c: Client)
    ensures forall x :: OnSeat(WithoutClient(seat, c), x) <= OnSeat(seat, x)
    ensures forall x :: FindPoint(seat, x) == Some(c) ==> OnSeat(WithoutClient(seat, c), x) < OnSeat(seat, x)
  {
    if seat == [] {
    } else {
      FewerWithoutClient(seat[1..], c);
      var rest := WithoutClient(seat[1..], c);
      assert ([seat[0]] + rest)[1..] == rest;
    }
  }

  lemma {:induction false} FewerWithoutFirst(seat: seq<SeatPoint>, id: int)
    ensures forall x :: OnSeat(WithoutFirst(seat, id), x) ==
                        if x == id && OnSeat(seat, x) > 0 then OnSeat(seat, x) - 1 else OnSeat(seat, x)
  {
    if seat == [] {
    } else {
      FewerWithoutFirst(seat[1..], id);
      var rest := WithoutFirst(seat[1..], id);
      assert ([seat[0]] + rest)[1..] == rest;
    }
  }

  lemma {:induction false} FoundIsOnSeat(seat: seq<SeatPoint>, id: int)
    ensures FindPoint(seat, id).Some? <==> OnSeat(seat, id) > 0
  {
    if seat == [] {
    } else {
      FoundIsOnSeat(seat[1..], id);
    }
  }

  lemma NobodyOnSeat(seat: seq<SeatPoint>)
    requires forall x :: OnSeat(seat, x) == 0
    ensures seat == []
  {
    if seat != [] {
      assert OnSeat(seat, seat[0].id) > 0;
    }
  }

  /** Whoever drops the tracked points cancels their clients first: walking the
      slots leaves no client holding anything, even when two devices use the
      same id. */
  lemma {:induction false} CancelAllEmpties(slots: seq<Slot>, seat: seq<SeatPoint>)
    requires forall x :: OnSeat(seat, x) <= Tracking(slots, x)
    ensures CancelAll(slots, seat) == []
    decreases slots
  {
    if slots == [] {
      NobodyOnSeat(seat);
    } else {
      var id := slots[0].id;
      var holder := if slots[0].active then FindPoint(seat, id) else None;
      FoundIsOnSeat(seat, id);
      if holder.Some? {
        FewerWithoutClient(seat, holder.value);
        CancelAllEmpties(slots[1..], WithoutClient(seat, holder.value));
      } else {
        CancelAllEmpties(slots[1..], seat);
      }
    }
  }

  // ---------------------------------------------------- what each step keeps

  lemma EndPrimaryKeeps(s: State)
    requires Base(s)
    ensures Base(EndPrimary(s)) && !EndPrimary(s).hasPrimary
  {
  }

  /** Cancelling before forgetting: nothing is left held, tracked or claimed. */
  lemma ForgetKeeps(s: State)
    requires Base(s)
    ensures var t := ResetGesture(CancelClients(s)); Inv(t) && t.seat == [] && t.npoints == 0 && !t.fired
  {
    CancelAllEmpties(s.slots, s.seat);
    EmptiedCounts(s.slots);
  }

  lemma DeactivateKeeps(s: State)
    requires Base(s)
    ensures var t := Deactivate(s).(mode := Locked);
            Inv(t) && !t.fired && t.marks[|t.marks| - 1] == Reset
  {
    EndPrimaryKeeps(s);
    var u := if s.hasPrimary then EndPrimary(s) else s;
    ForgetKeeps(u);
    assert Deactivate(s).(mode := Locked) == ResetGesture(CancelClients(u)).(mode := Locked, listening := false);
  }

  lemma EffectKeeps(s: State, e: Effect)
    requires Base(s) && IsSane(e) && s.mode != Locked
    ensures Base(RunEffect(s, e)) && (Inv(s) || e.LockScreen? ==> Inv(RunEffect(s, e)))
  {
    if e.LockScreen? {
      DeactivateKeeps(s);
    }
  }

  lemma PendingKeeps(s: State)
    requires Base(s) && s.mode != Locked
    ensures Base(RunPending(s)) && (Inv(s) ==> Inv(RunPending(s)))
  {
    if s.pending.Some? {
      EffectKeeps(s, s.pending.value);
    }
  }

  lemma TouchEndKeeps(s: State)
    requires Base(s) && !s.hasPrimary
    ensures Base(TouchEnd(s)) && !TouchEnd(s).hasPrimary && (Inv(s) ==> Inv(TouchEnd(s)))
  {
    hide ActiveCount, Deactivate;
    if s.mode == Normal {
      PendingKeeps(s);
      PendingAddsNone(s);
    }
  }

  /** No action makes a contact primary. */
  lemma PendingAddsNone(s: State)
    ensures RunPending(s).hasPrimary ==> s.hasPrimary
  {
  }

  lemma ReleaseKeeps(s: State)
    requires Base(s)
    ensures Base(ReleasePrimary(s)) && !ReleasePrimary(s).hasPrimary && (Inv(s) ==> Inv(ReleasePrimary(s)))
  {
    EndPrimaryKeeps(s);
    hide Base, TouchEnd;
    TouchEndKeeps(EndPrimary(s));
  }

  /** Nobody holds a finger of a sequence that is being claimed. */
  lemma TakenKeeps(s: State)
    requires Base(s)
    ensures var t := CancelClients(s).(claimed := true);
            var u := if t.hasPrimary then EndPrimary(t) else t;
            Base(u) && !u.hasPrimary && (Inv(s) && s.npoints > 0 ==> Inv(u))
  {
    CancelAllEmpties(s.slots, s.seat);
    var r := s.(seat := [], claimed := true);
    assert NoneStranded(r);
    hide CancelAll, ActiveCount;
    assert CancelClients(s).(claimed := true) == r;
  }

  lemma MarkedFired(s: State)
    requires Base(s)
    ensures Base(s.(fired := true)) && (Inv(s) ==> Inv(s.(fired := true)))
  {
  }

  /** A claimed sequence has been taken from every client and from window
      management, even when ending the primary contact locks the screen. */
  lemma ClaimKeeps(s: State)
    requires Base(s)
    ensures var t := Claim(s).(fired := true); Base(t) && (Inv(s) && s.npoints > 0 ==> Inv(t))
  {
    hide Base, Inv, TouchEnd, EndPrimary, CancelClients;
    TakenKeeps(s);
    var t := CancelClients(s).(claimed := true);
    if t.hasPrimary {
      TouchEndKeeps(EndPrimary(t));
    }
    MarkedFired(Claim(s));
  }

  lemma RecogniseKeeps(s: State, e: Effect)
    requires Base(s) && Open(s) && IsSane(e)
    ensures Base(Recognise(s, e)) && (Inv(s) && s.npoints > 0 ==> Inv(Recognise(s, e)))
  {
    ClaimKeeps(s);
    ClaimMarks(s);
    hide Claim, Base, Inv, Fire;
    FireKeeps(Claim(s).(fired := true), e);
  }

  lemma FireKeeps(s: State, e: Effect)
    requires Base(s) && s.fired && IsSane(e) && (s.marks != [] ==> s.marks[|s.marks| - 1] == Reset)
    ensures Base(Fire(s, e)) && (Inv(s) ==> Inv(Fire(s, e)))
  {
    hide ActiveCount, RunEffect;
    if s.mode != Locked {
      var u := s.(marks := s.marks + [Fired]);
      assert Base(u);
      EffectKeeps(u, e);
    }
  }

  /** Nothing fires during a claim, so the sequence that may still become a
      gesture has not fired one. */
  lemma ClaimMarks(s: State)
    requires Base(s) && Open(s)
    ensures var t := Claim(s); t.marks != [] ==> t.marks[|t.marks| - 1] == Reset
  {
    hide ActiveCount, CancelAll, Emptied;
  }

  lemma DownKeeps(s: State, id: int, device: int, hit: Option<Hit>, binding: Option<Binding>)
    requires Inv(s) && Enabled(s, Down(id, device, hit, binding))
    ensures Inv(OnDown(s, id, device, hit, binding))
  {
    SlotTaken(s, id, hit);
    hide Base, Inv, BeginPrimary;
    var t := GestureDown(s, id);
    var u := if HasRoom(s) && hit.Some? && !t.claimed && hit.value.hasTouch
             then t.(seat := [SeatPoint(id, hit.value.client)] + t.seat) else t;
    if !u.hasPrimary && !u.claimed {
      BeginKeeps(u, id, device, hit, binding);
    }
  }

  /** A finger gets a slot before its client gets the finger. */
  lemma SlotTaken(s: State, id: int, hit: Option<Hit>)
    requires Inv(s) && s.listening
    ensures var t := GestureDown(s, id);
            && Inv(t) && t.listening
            && (HasRoom(s) && hit.Some? && !t.claimed ==>
                  Inv(t.(seat := [SeatPoint(id, hit.value.client)] + t.seat)))
  {
    var n := FreeSlot(s.slots);
    if n < |s.slots| {
      ActivateCounts(s.slots, n, id);
      if hit.Some? {
        var seat := [SeatPoint(id, hit.value.client)] + s.seat;
        assert seat[1..] == s.seat;
      }
    }
  }

  lemma BeginKeeps(s: State, id: int, device: int, hit: Option<Hit>, binding: Option<Binding>)
    requires Inv(s) && !s.hasPrimary && !s.claimed && s.listening && SaneBinding(binding)
    ensures Inv(BeginPrimary(s, id, device, hit, binding))
  {
    var t := s.(hasPrimary := true, primaryId := id, primaryDevice := device);
    FreshContact(s, id, device);
    hide Base, Inv, TouchBegin;
    BeginModeKeeps(t, binding);
    var b := TouchBegin(t, binding);
    if b.state.mode == Normal && !b.consumed {
      NotConsumed(t, binding);
      EmulationKeeps(t);
    }
  }

  lemma FreshContact(s: State, id: int, device: int)
    requires Inv(s) && !s.hasPrimary && !s.claimed && s.listening
    ensures Inv(s.(hasPrimary := true, primaryId := id, primaryDevice := device)) && !s.emulates
  {
  }

  lemma NotConsumed(s: State, binding: Option<Binding>)
    requires !TouchBegin(s, binding).consumed
    ensures TouchBegin(s, binding).state == s
  {
    hide RunPending, RunBinding;
  }

  lemma EmulationKeeps(s: State)
    requires Inv(s) && s.hasPrimary && !s.emulates
    ensures Inv(s.(emulates := true, buttons := s.buttons + [Pressed]))
  {
    hide ActiveCount;
  }

  lemma BeginModeKeeps(s: State, binding: Option<Binding>)
    requires Inv(s) && !s.emulates && SaneBinding(binding)
    ensures Inv(TouchBegin(s, binding).state) && !TouchBegin(s, binding).state.emulates
  {
    if s.mode == Normal {
      if s.pending.Some? {
        PendingKeeps(s);
      } else if binding.Some? {
        BindingKeeps(s, binding.value);
      }
    }
  }

  lemma BindingKeeps(s: State, b: Binding)
    requires Inv(s) && s.mode != Locked && IsSane(b.begin) && SaneOption(b.end)
    ensures Inv(RunBinding(s, b))
  {
    var t := if b.end.Some? then s.(pending := b.end) else s;
    assert Inv(t);
    EffectKeeps(t, b.begin);
  }

  lemma EvaluateKeeps(s: State, gesture: Option<Effect>)
    requires Inv(s) && SaneOption(gesture) && s.npoints > 0
    ensures Inv(Evaluate(s, gesture))
  {
    if Open(s) && gesture.Some? {
      RecogniseKeeps(s, gesture.value);
    }
  }

  lemma TrackedIsCounted(slots: seq<Slot>, n: nat)
    requires n < |slots| && slots[n].active
    ensures ActiveCount(slots) > 0
  {
    DeactivateCounts(slots, n);
  }

  lemma MotionKeeps(s: State, id: int, gesture: Option<Effect>)
    requires Inv(s) && SaneOption(gesture)
    ensures Inv(OnMotion(s, id, gesture))
  {
    var n := FindSlot(s.slots, id);
    if n < |s.slots| {
      TrackedIsCounted(s.slots, n);
      EvaluateKeeps(s, gesture);
    }
  }

  lemma UpKeeps(s: State, id: int, hold: Option<Effect>)
    requires Inv(s) && Enabled(s, Up(id, hold))
    ensures Inv(OnUp(s, id, hold))
    ensures OnUp(s, id, hold).npoints == 0 ==> !OnUp(s, id, hold).fired
  {
    LiftOne(s, id);
    GestureUpKeeps(ForwardUp(s, id), id, hold);
    var w := GestureUp(ForwardUp(s, id), id, hold);
    hide Base, GestureUp, ForwardUp, ReleasePrimary;
    ReleaseKeeps(w);
    ReleaseForgets(w);
  }

  lemma GestureUpKeeps(s: State, id: int, hold: Option<Effect>)
    requires Base(Lift(s, id)) && SaneOption(hold)
    ensures var w := GestureUp(s, id, hold); Inv(w) && (w.npoints == 0 ==> !w.fired)
  {
    hide Base, Lift, TryHold;
    var t := Lift(s, id);
    HoldKeeps(t, hold);
    LiftEnds(if t.npoints == t.peak - 1 then TryHold(t, hold) else t);
  }

  lemma LiftOne(s: State, id: int)
    requires Inv(s)
    ensures Base(Lift(ForwardUp(s, id), id))
  {
    FewerWithoutFirst(s.seat, id);
    var n := FindSlot(s.slots, id);
    if n < |s.slots| {
      DeactivateCounts(s.slots, n);
    } else {
      NotTracked(s.slots, id);
    }
  }

  lemma HoldKeeps(s: State, hold: Option<Effect>)
    requires Base(s) && SaneOption(hold)
    ensures Base(TryHold(s, hold))
  {
    if Open(s) && hold.Some? {
      RecogniseKeeps(s, hold.value);
    }
  }

  lemma LiftEnds(s: State)
    requires Base(s)
    ensures s.npoints > 0 ==> Inv(s)
    ensures s.npoints <= 0 ==> Inv(ResetGesture(s)) && !ResetGesture(s).fired
  {
    EmptiedCounts(s.slots);
    if s.npoints <= 0 {
      NothingTracked(s.slots);
      NobodyOnSeat(s.seat);
    }
  }

  lemma {:induction false} NothingTracked(slots: seq<Slot>)
    requires ActiveCount(slots) == 0
    ensures forall x :: Tracking(slots, x) == 0
  {
    if slots == [] {
    } else {
      NothingTracked(slots[1..]);
    }
  }

  /** Ending the primary contact sets no `fired`. */
  lemma ReleaseForgets(s: State)
    ensures ReleasePrimary(s).fired ==> s.fired
    ensures ReleasePrimary(s).npoints == s.npoints || !ReleasePrimary(s).fired
  {
  }

  lemma CancelKeeps(s: State, id: int)
    requires Inv(s)
    ensures Inv(OnCancel(s, id)) && !OnCancel(s, id).fired
  {
    ForgetKeeps(s);
    var t := ResetGesture(CancelClients(s));
    ReleaseKeeps(t);
    ReleaseForgets(t);
  }

  lemma DeviceGoneKeeps(s: State, device: int)
    requires Inv(s)
    ensures Inv(OnDeviceGone(s, device)) && !OnDeviceGone(s, device).fired
  {
    ReleaseKeeps(s);
    var t := if s.hasPrimary && s.primaryDevice == device then ReleasePrimary(s) else s;
    ForgetKeeps(t);
  }

  lemma ClientGoneKeeps(s: State, c: Client)
    requires Inv(s)
    ensures Inv(s.(seat := WithoutClient(s.seat, c)))
  {
    FewerWithoutClient(s.seat, c);
  }

  /** Every handler keeps the invariant. */
  lemma StepKeeps(s: State, e: Event)
    requires Inv(s) && Enabled(s, e)
    ensures Inv(Step(s, e))
  {
    assert Base(s);
    hide Base, Inv, OnDown, OnUp, OnMotion, OnCancel, OnDeviceGone, RunPending, RunBinding, RunEffect;
    match e {
      case Down(id, device, hit, binding) => DownKeeps(s, id, device, hit, binding);
      case Up(id, hold) => UpKeeps(s, id, hold);
      case Motion(id, gesture) => MotionKeeps(s, id, gesture);
      case Cancel(id) => CancelKeeps(s, id);
      case DeviceGone(device) => DeviceGoneKeeps(s, device);
      case Keyboard(binding) =>
        PendingKeeps(s);
        if binding.Some? {
          BindingKeeps(s, binding.value);
        }
      case Action(effect) => EffectKeeps(s, effect);
      case ClientGone(c) => ClientGoneKeeps(s, c);
      case Unlock => UnlockKeeps(s);
    }
  }

  lemma UnlockKeeps(s: State)
    requires Inv(s) && s.mode == Locked
    ensures Inv(s.(mode := Normal, listening := true))
  {
  }

  // --------------------------------------------------------------- whole runs

  ghost predicate IsRun(ss: seq<State>, es: seq<Event>) {
    && |ss| == |es| + 1 && ss[0] == Init()
    && forall i :: 0 <= i < |es| ==> Follows(ss[i], es[i], ss[i + 1])
  }

  ghost predicate Follows(s: State, e: Event, t: State) { Enabled(s, e) && t == Step(s, e) }

  lemma InitKeeps()
    ensures Inv(Init())
  {
    EmptiedCounts(Init().slots);
    assert Emptied(Init().slots) == Init().slots;
  }

  lemma {:induction false} RunInv(ss: seq<State>, es: seq<Event>, i: nat)
    requires IsRun(ss, es) && i < |ss|
    ensures Inv(ss[i])
    decreases i
  {
    hide Inv, Step, Enabled;
    if i == 0 {
      InitKeeps();
    } else {
      RunInv(ss, es, i - 1);
      assert Follows(ss[i - 1], es[i - 1], ss[i]);
      StepKeeps(ss[i - 1], es[i - 1]);
    }
  }

  /** No touch is ever stranded. After every event of every run, a finger some
      client holds is still an active slot and its sequence is unclaimed, so
      its lift will be forwarded. */
  lemma NoTouchStranded(ss: seq<State>, es: seq<Event>, i: nat, k: nat)
    requires IsRun(ss, es) && i < |ss| && k < |ss[i].seat|
    ensures var s, id := ss[i], ss[i].seat[k].id;
            && !s.claimed && s.listening
            && (exists n :: 0 <= n < |s.slots| && s.slots[n].active && s.slots[n].id == id)
            && OnSeat(WithoutFirst(s.seat, id), id) < OnSeat(s.seat, id)
  {
    RunInv(ss, es, i);
    var s, id := ss[i], ss[i].seat[k].id;
    HeldIsOnSeat(s.seat, k);
    assert OnSeat(s.seat, id) <= Tracking(s.slots, id);
    TrackedSomewhere(s.slots, id);
    FewerWithoutFirst(s.seat, id);
    if !s.listening {
      NothingTracked(s.slots);
    }
  }

  lemma {:induction false} HeldIsOnSeat(seat: seq<SeatPoint>, k: nat)
    requires k < |seat|
    ensures OnSeat(seat, seat[k].id) > 0
  {
    if k == 0 {
    } else {
      HeldIsOnSeat(seat[1..], k - 1);
    }
  }

  lemma {:induction false} TrackedSomewhere(slots: seq<Slot>, id: int)
    requires Tracking(slots, id) > 0
    ensures exists n :: 0 <= n < |slots| && slots[n].active && slots[n].id == id
  {
    if slots[0].active && slots[0].id == id {
    } else {
      TrackedSomewhere(slots[1..], id);
      var n :| 0 <= n < |slots[1..]| && slots[1..][n].active && slots[1..][n].id == id;
      assert slots[n + 1].active && slots[n + 1].id == id;
    }
  }

  /** The sequence invariant over all runs: the counters are the slots, an empty
      screen is never claimed (touch is never suppressed for good), a claimed
      sequence has no primary contact, gestures fire at most once between
      resets, and the emulated button's presses and releases strictly alternate
      with one outstanding exactly while a contact is emulated. */
  lemma SequenceInvariant(ss: seq<State>, es: seq<Event>, i: nat)
    requires IsRun(ss, es) && i < |ss|
    ensures var s := ss[i];
            && s.npoints == ActiveCount(s.slots) <= s.peak
            && (s.npoints == 0 ==> !s.claimed)
            && (s.claimed ==> !s.hasPrimary && s.seat == [])
            && (forall a, b :: 0 <= a < b < |s.marks| && s.marks[a] == Fired && s.marks[b] == Fired ==>
                  exists k :: a < k < b && s.marks[k] == Reset)
            && Alternating(s.buttons) && (s.emulates <==> |s.buttons| % 2 == 1)
  {
    RunInv(ss, es, i);
    var s := ss[i];
    forall a, b | 0 <= a < b < |s.marks| && s.marks[a] == Fired && s.marks[b] == Fired
      ensures exists k :: a < k < b && s.marks[k] == Reset
    {
      assert s.marks[a + 1] == Reset;
    }
  }

  // ---------------------------------------- when an empty screen stays "fired"

  /** The gesture is recognised from a movement while the primary contact still
      owes an end action that locks the screen. */
  predicate LeavesFired(s: State, e: Event) {
    && e.Motion? && FindSlot(s.slots, e.id) < |s.slots|
    && Open(s) && s.npoints == s.peak && e.gesture.Some?
    && s.hasPrimary && s.mode == Normal && s.pending == Some(LockScreen)
  }

  /** `fired` is meant to be cleared with the last finger. That holds unless the
      claim itself locks the screen: the re-entrant deactivation has reset the
      recogniser when the interrupted one goes on to set `fired`. */
  lemma EmptyIsUnfiredIff(s: State, e: Event)
    requires Inv(s) && Enabled(s, e) && (s.npoints == 0 ==> !s.fired)
    ensures (Step(s, e).npoints == 0 ==> !Step(s, e).fired) <==> !LeavesFired(s, e)
  {
    match e {
      case Down(id, device, hit, binding) => DownFires(s, id, device, hit, binding);
      case Up(id, hold) => UpKeeps(s, id, hold);
      case Motion(id, gesture) => MotionFires(s, id, gesture);
      case Cancel(id) => CancelKeeps(s, id);
      case DeviceGone(device) => DeviceGoneKeeps(s, device);
      case _ =>
    }
  }

  lemma DownFires(s: State, id: int, device: int, hit: Option<Hit>, binding: Option<Binding>)
    requires Inv(s) && s.listening && (s.npoints == 0 ==> !s.fired)
    ensures var t := OnDown(s, id, device, hit, binding); t.npoints == 0 ==> !t.fired
  {
    CountIsNatural(s);
    hide Base, BeginPrimary, Inv;
    var t := GestureDown(s, id);
    var u := if HasRoom(s) && hit.Some? && !t.claimed && hit.value.hasTouch
             then t.(seat := [SeatPoint(id, hit.value.client)] + t.seat) else t;
    BeginForgets(u, id, device, hit, binding);
  }

  lemma CountIsNatural(s: State)
    requires Inv(s)
    ensures s.npoints >= 0
  {
  }

  /** No action sets `fired`, and one that empties the screen clears it. */
  lemma EffectForgets(s: State, e: Effect)
    ensures var t := RunEffect(s, e); (t.fired ==> s.fired) && (t.npoints == s.npoints || !t.fired)
  {
  }

  lemma BeginForgets(s: State, id: int, device: int, hit: Option<Hit>, binding: Option<Binding>)
    ensures var t := BeginPrimary(s, id, device, hit, binding);
            (t.fired ==> s.fired) && (t.npoints == s.npoints || !t.fired)
  {
    hide RunEffect;
    var t := s.(hasPrimary := true, primaryId := id, primaryDevice := device);
    if s.pending.Some? {
      EffectForgets(t, s.pending.value);
    } else if binding.Some? {
      var b := binding.value;
      EffectForgets(if b.end.Some? then t.(pending := b.end) else t, b.begin);
    }
  }

  lemma MotionFires(s: State, id: int, gesture: Option<Effect>)
    requires Inv(s) && s.listening && (s.npoints == 0 ==> !s.fired)
    ensures var t := OnMotion(s, id, gesture); (t.npoints == 0 ==> !t.fired) <==> !LeavesFired(s, Motion(id, gesture))
  {
    var n := FindSlot(s.slots, id);
    if n < |s.slots| {
      TrackedIsCounted(s.slots, n);
    }
  }

  /** It costs one sequence: the next lift of a last finger, a cancel or a
      device removal clears it, whatever the state. */
  lemma FiredIsCleared(s: State, e: Event)
    requires Inv(s) && Enabled(s, e) && (e.Up? || e.Cancel? || e.DeviceGone?)
    ensures Step(s, e).npoints == 0 ==> !Step(s, e).fired
  {
    match e {
      case Up(id, hold) => UpKeeps(s, id, hold);
      case Cancel(id) => CancelKeeps(s, id);
      case DeviceGone(device) => DeviceGoneKeeps(s, device);
    }
  }

  /** It does happen: the first of three fingers triggers a press-and-hold
      binding whose end action locks the screen, and a swipe is recognised. */
  lemma FiredOnEmptyScreen()
    ensures var press := Some(Binding(Nothing, Some(LockScreen)));
            var s1 := OnDown(Init(), 1, 0, None, press);
            var s3 := OnDown(OnDown(s1, 2, 0, None, None), 3, 0, None, None);
            var s4 := OnMotion(s3, 1, Some(Nothing));
            s4.npoints == 0 && s4.fired && s4.mode == Locked
  {
    var press := Some(Binding(Nothing, Some(LockScreen)));
    var s1 := OnDown(Init(), 1, 0, None, press);
    var s3 := OnDown(OnDown(s1, 2, 0, None, None), 3, 0, None, None);
    ThreeFingersDown();
    hide OnDown, OnMotion;
    SwipeLocks(s3);
  }

  lemma SwipeLocks(s: State)
    requires |s.slots| == MAX_POINTS && s.slots[0] == Slot(1, true) && FindSlot(s.slots, 1) == 0
    requires s.npoints == s.peak == 3 && s.mode == Normal && s.listening && !s.claimed && !s.fired &&
             s.pending == Some(LockScreen)
    requires s.hasPrimary
    ensures var t := OnMotion(s, 1, Some(Nothing)); t.npoints == 0 && t.fired && t.mode == Locked
  {
  }

  lemma ThreeFingersDown()
    ensures var press := Some(Binding(Nothing, Some(LockScreen)));
            var s1 := OnDown(Init(), 1, 0, None, press);
            var s3 := OnDown(OnDown(s1, 2, 0, None, None), 3, 0, None, None);
            && |s3.slots| == MAX_POINTS && s3.slots[0] == Slot(1, true) && FindSlot(s3.slots, 1) == 0
            && s3.npoints == s3.peak == 3 && s3.mode == Normal && s3.listening && !s3.claimed && !s3.fired
            && s3.pending == Some(LockScreen) && s3.hasPrimary
  {
    var press := Some(Binding(Nothing, Some(LockScreen)));
    var s1 := OnDown(Init(), 1, 0, None, press);
    assert FreeSlot(Init().slots) == 0;
    assert s1.slots[0] == Slot(1, true) && !s1.slots[1].active && !s1.slots[2].active;
    var s2 := OnDown(s1, 2, 0, None, None);
    FreeSlotIs(s1.slots, 1);
    assert s2.slots[0] == Slot(1, true) && s2.slots[1].active && !s2.slots[2].active;
    var s3 := OnDown(s2, 3, 0, None, None);
    FreeSlotIs(s2.slots, 2);
    assert s3.slots[0] == Slot(1, true);
  }

  lemma FreeSlotIs(slots: seq<Slot>, n: nat)
    requires n < |slots| && !slots[n].active && forall i :: 0 <= i < n ==> slots[i].active
    ensures FreeSlot(slots) == n
  {
  }
}
