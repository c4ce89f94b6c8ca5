/**
  The touch handlers of src/cursor.c as they run, on the slot array, the
  counters and flags, and the seat they talk to. Each is tied to the step of
  TouchArbitration it performs.
 */
module TouchCursor {
  import opened TouchArbitration
  import opened Options

  /** wlr_seat as far as touch is concerned: who holds which finger, and the
      emulated button events sent. */
  class Seat {
    var points: seq<SeatPoint>
    var buttons: seq<Button>

    constructor ()
      ensures points == [] && buttons == []
    {
      points, buttons := [], [];
    }

    method GetPoint(id: int) returns (holder: Option<Client>)
      ensures holder == FindPoint(points, id)
    {
      var i := 0;
      while i < |points|
        invariant 0 <= i <= |points| && FindPoint(points, id) == FindPoint(points[i..], id)
      {
        if points[i].id == id {
          return Some(points[i].client);
        }
        i := i + 1;
      }
      return None;
    }

    /** A point is only created for a client that has bound wl_touch. */
    method NotifyDown(id: int, hit: Hit)
      modifies this`points
      ensures points == if hit.hasTouch then [SeatPoint(id, hit.client)] + old(points) else old(points)
    {
      if hit.hasTouch {
        points := [SeatPoint(id, hit.client)] + points;
      }
    }

    method NotifyUp(id: int)
      modifies this`points
      ensures points == WithoutFirst(old(points), id)
    {
      points := WithoutFirst(points, id);
    }

    method NotifyCancel(c: Client)
      modifies this`points
      ensures points == WithoutClient(old(points), c)
    {
      points := WithoutClient(points, c);
    }
  }

  class Cursor {
    const slots: array<Slot>
    const seat: Seat
    var npoints: int
    var peakFingers: int
    var claimed: bool
    var fired: bool
    var hasPrimary: bool
    var primaryId: int
    var primaryDevice: int
    var emulates: bool
    var mode: Mode
    var pending: Option<Effect>
    var listening: bool
    ghost var marks: seq<Mark>

    ghost predicate Valid()
      reads this, slots, seat
    {
      slots.Length == MAX_POINTS && Inv(View())
    }

    ghost function View(): State
      reads this, slots, seat
    {
      State(slots[..], npoints, peakFingers, claimed, fired, hasPrimary, primaryId, primaryDevice, emulates,
            mode, pending, listening, seat.points, seat.buttons, marks)
    }

    /** hikari_cursor_init and hikari_cursor_activate. */
    constructor ()
      ensures View() == Init() && slots.Length == MAX_POINTS && fresh(slots) && fresh(seat)
    {
      slots := new Slot[MAX_POINTS](_ => Slot(0, false));
      seat := new Seat();
      npoints, peakFingers, claimed, fired := 0, 0, false, false;
      hasPrimary, primaryId, primaryDevice, emulates := false, 0, 0, false;
      mode, pending, listening, marks := Normal, None, true, [];
      new;
      assert slots[..] == Init().slots;
    }

    /** touch_point_find. */
    method Find(id: int) returns (n: nat)
      ensures n == FindSlot(slots[..], id)
    {
      n := 0;
      while n < slots.Length
        invariant n <= slots.Length && forall i :: 0 <= i < n ==> !(slots[i].active && slots[i].id == id)
      {
        if slots[n].active && slots[n].id == id {
          break;
        }
        n := n + 1;
      }
      FindSlotIs(slots[..], id, n);
    }

    method ResetSlots()
      modifies this`npoints, this`peakFingers, this`claimed, this`fired, this`marks, slots
      ensures View() == ResetGesture(old(View()))
    {
      for i := 0 to slots.Length
        modifies slots
        invariant forall j :: 0 <= j < i ==> slots[j] == old(slots[j]).(active := false)
        invariant forall j :: i <= j < slots.Length ==> slots[j] == old(slots[j])
      {
        slots[i] := slots[i].(active := false);
      }
      npoints, peakFingers := 0, 0;
      claimed, fired := false, false;
      marks := marks + [Reset];
      assert slots[..] == Emptied(old(slots[..]));
    }

    static method Listed(seen: array<Client>, nseen: nat, c: Client) returns (already: bool)
      requires nseen <= seen.Length
      ensures already <==> exists j :: 0 <= j < nseen && seen[j] == c
    {
      var j := 0;
      while j < nseen
        invariant j <= nseen && forall k :: 0 <= k < j ==> seen[k] != c
      {
        if seen[j] == c {
          return true;
        }
        j := j + 1;
      }
      return false;
    }

    /** touch_cancel_client_sequences: each distinct client once. The list of
        clients seen cannot overflow, and a client once cancelled holds no
        point by which it could be met again. */
    method CancelClientSequences()
      requires slots.Length == MAX_POINTS
      modifies seat`points
      ensures View() == CancelClients(old(View()))
    {
      var seen := new Client[MAX_POINTS];
      var nseen := 0;
      assert slots[0..] == slots[..];
      for i := 0 to MAX_POINTS
        invariant 0 <= nseen <= i && fresh(seen) && seen.Length == MAX_POINTS
        invariant seat.buttons == old(seat.buttons)
        invariant CancelAll(slots[i..], seat.points) == CancelAll(slots[..], old(seat.points))
        invariant forall j, p :: 0 <= j < nseen && p in seat.points ==> p.client != seen[j]
      {
        assert slots[i..][0] == slots[i] && slots[i..][1..] == slots[i + 1..];
        if !slots[i].active {
          continue;
        }
        var holder := seat.GetPoint(slots[i].id);
        if holder.None? {
          continue;
        }
        HolderHolds(seat.points, slots[i].id);
        var already := Listed(seen, nseen, holder.value);
        if already {
          continue;
        }
        seen[nseen] := holder.value;
        nseen := nseen + 1;
        CancelledHoldsNothing(seat.points, holder.value);
        seat.NotifyCancel(holder.value);
      }
    }

    /** end_primary_touch. */
    method EndPrimaryTouch()
      modifies this`hasPrimary, this`emulates, seat`buttons
      ensures View() == EndPrimary(old(View()))
    {
      hasPrimary := false;
      if emulates {
        seat.buttons := seat.buttons + [Released];
        emulates := false;
      }
    }

    /** hikari_cursor_deactivate: the contact ends without telling the mode, and
        the clients are cancelled before their fingers are forgotten. */
    method DeactivateCursor()
      requires slots.Length == MAX_POINTS
      modifies this, slots, seat
      ensures View() == Deactivate(old(View()))
    {
      listening := false;
      if hasPrimary {
        EndPrimaryTouch();
      }
      CancelClientSequences();
      ResetSlots();
    }

    /** A configured action. Locking re-enters this object. */
    method Run(e: Effect)
      requires slots.Length == MAX_POINTS
      modifies this, slots, seat
      ensures View() == RunEffect(old(View()), e)
    {
      match e
      case Nothing =>
      case Enter(m) => mode := m;
      case LockScreen =>
        DeactivateCursor();
        mode := Locked;
    }

    method HandlePendingAction() returns (ran: bool)
      requires slots.Length == MAX_POINTS
      modifies this, slots, seat
      ensures View() == RunPending(old(View())) && ran == old(pending).Some?
    {
      if pending.Some? {
        Run(pending.value);
        pending := None;
        return true;
      }
      return false;
    }

    /** handle_input on what the binding search found. */
    method HandleInput(binding: Option<Binding>) returns (ran: bool)
      requires slots.Length == MAX_POINTS
      modifies this, slots, seat
      ensures ran == binding.Some?
      ensures View() == if binding.Some? then RunBinding(old(View()), binding.value) else old(View())
    {
      if binding.None? {
        return false;
      }
      if binding.value.end.Some? {
        pending := binding.value.end;
      }
      Run(binding.value.begin);
      return true;
    }

    /** The current mode's touch_end. */
    method ModeTouchEnd()
      requires slots.Length == MAX_POINTS
      modifies this, slots, seat
      ensures View() == TouchEnd(old(View()))
    {
      if mode == Normal {
        var _ := HandlePendingAction();
      } else if mode == Move || mode == Resize {
        mode := Normal;
      }
    }

    method ReleasePrimaryTouch()
      requires slots.Length == MAX_POINTS
      modifies this, slots, seat
      ensures View() == ReleasePrimary(old(View()))
    {
      EndPrimaryTouch();
      ModeTouchEnd();
    }

    /** touch_gesture_claim. */
    method ClaimGesture()
      requires slots.Length == MAX_POINTS
      modifies this, slots, seat
      ensures View() == Claim(old(View()))
    {
      CancelClientSequences();
      claimed := true;
      if hasPrimary {
        ReleasePrimaryTouch();
      }
    }

    /** fire_gesture_binding. */
    method FireBinding(e: Effect)
      requires slots.Length == MAX_POINTS
      modifies this, slots, seat
      ensures View() == Fire(old(View()), e)
    {
      hide RunEffect;
      if mode == Locked {
        return;
      }
      marks := marks + [Fired];
      Run(e);
    }

    /** touch_gesture_evaluate; the match stands for the pinch and swipe
        thresholds and the search of the configured bindings. */
    method EvaluateGesture(found: Option<Effect>)
      requires slots.Length == MAX_POINTS
      modifies this, slots, seat
      ensures View() == Evaluate(old(View()), found)
    {
      if claimed || fired {
        return;
      }
      if mode == Locked {
        return;
      }
      if peakFingers < MIN_FINGERS || npoints != peakFingers {
        return;
      }
      if found.Some? {
        ClaimGesture();
        fired := true;
        FireBinding(found.value);
      }
    }

    /** touch_gesture_try_hold. */
    method TryHoldGesture(found: Option<Effect>)
      requires slots.Length == MAX_POINTS
      modifies this, slots, seat
      ensures View() == TryHold(old(View()), found)
    {
      if mode == Locked {
        return;
      }
      if claimed || fired || peakFingers < MIN_FINGERS {
        return;
      }
      if found.Some? {
        ClaimGesture();
        fired := true;
        FireBinding(found.value);
      }
    }

    /** touch_gesture_down: false when every slot is taken. */
    method GestureDownAt(id: int) returns (tracked: bool)
      requires slots.Length == MAX_POINTS
      modifies this`npoints, this`peakFingers, slots
      ensures View() == GestureDown(old(View()), id) && tracked == HasRoom(old(View()))
    {
      var n := 0;
      while n < MAX_POINTS && slots[n].active
        modifies {}
        invariant n <= MAX_POINTS && forall i :: 0 <= i < n ==> slots[i].active
      {
        n := n + 1;
      }
      FreeSlotEquals(slots[..], n);
      if n == MAX_POINTS {
        return false;
      }
      slots[n] := Slot(id, true);
      assert slots[..] == old(slots[..])[n := Slot(id, true)];
      npoints := npoints + 1;
      if npoints > peakFingers {
        peakFingers := npoints;
      }
      return true;
    }

    /** touch_gesture_up. */
    method GestureUpAt(id: int, hold: Option<Effect>)
      requires slots.Length == MAX_POINTS
      modifies this, slots, seat
      ensures View() == GestureUp(old(View()), id, hold)
    {
      hide TryHold, FindSlot;
      var n := Find(id);
      if n < slots.Length {
        slots[n] := slots[n].(active := false);
        assert slots[..] == old(slots[..])[n := old(slots[n]).(active := false)];
        npoints := npoints - 1;
      }
      if npoints == peakFingers - 1 {
        TryHoldGesture(hold);
      }
      if npoints <= 0 {
        ResetSlots();
      }
    }

    /** cursor_touch_down_handler. */
    method TouchDown(id: int, device: int, hit: Option<Hit>, binding: Option<Binding>)
      requires Valid() && Enabled(View(), Down(id, device, hit, binding))
      modifies this, slots, seat
      ensures Valid() && View() == OnDown(old(View()), id, device, hit, binding)
    {
      DownKeeps(View(), id, device, hit, binding);
      hide Inv, BeginPrimary;
      var tracked := GestureDownAt(id);
      if tracked && hit.Some? && !claimed {
        seat.NotifyDown(id, hit.value);
      }
      if !hasPrimary && !claimed {
        BeginPrimaryTouch(id, device, hit, binding);
      }
    }

    /** The mode is asked first; only a contact it did not consume is delivered
        as a pointer, and only to a client without touch support. */
    method BeginPrimaryTouch(id: int, device: int, hit: Option<Hit>, binding: Option<Binding>)
      requires slots.Length == MAX_POINTS
      modifies this, slots, seat
      ensures View() == BeginPrimary(old(View()), id, device, hit, binding)
    {
      hide TouchBegin;
      hasPrimary := true;
      primaryId := id;
      primaryDevice := device;
      assert View() == old(View()).(hasPrimary := true, primaryId := id, primaryDevice := device);
      var consumed := ModeTouchBegin(binding);
      Emulate(mode == Normal && !consumed && hit.Some? && !hit.value.hasTouch);
    }

    /** The press a touchless client is sent, if it is one. */
    method Emulate(wanted: bool)
      modifies this`emulates, seat`buttons
      ensures View() == old(View()).(emulates := wanted,
                                     buttons := if wanted then old(View()).buttons + [Pressed] else old(View()).buttons)
    {
      emulates := wanted;
      if wanted {
        seat.buttons := seat.buttons + [Pressed];
      }
    }

    /** The mode's touch_begin, where there is one. */
    method ModeTouchBegin(binding: Option<Binding>) returns (consumed: bool)
      requires slots.Length == MAX_POINTS
      modifies this, slots, seat
      ensures Begun(View(), consumed) == TouchBegin(old(View()), binding)
    {
      if mode != Normal {
        return false;
      }
      consumed := HandlePendingAction();
      if !consumed {
        consumed := HandleInput(binding);
      }
    }

    /** cursor_touch_up_handler. */
    method TouchUp(id: int, hold: Option<Effect>)
      requires Valid() && Enabled(View(), Up(id, hold))
      modifies this, slots, seat
      ensures Valid() && View() == OnUp(old(View()), id, hold)
    {
      hide GestureUp, ReleasePrimary;
      UpKeeps(View(), id, hold);
      if !claimed {
        seat.NotifyUp(id);
      }
      GestureUpAt(id, hold);
      if hasPrimary && id == primaryId {
        ReleasePrimaryTouch();
      }
    }

    /** cursor_touch_motion_handler, as far as ownership goes. */
    method TouchMotion(id: int, gesture: Option<Effect>)
      requires Valid() && Enabled(View(), Motion(id, gesture))
      modifies this, slots, seat
      ensures Valid() && View() == OnMotion(old(View()), id, gesture)
    {
      MotionKeeps(View(), id, gesture);
      var n := Find(id);
      if n < slots.Length {
        EvaluateGesture(gesture);
      }
    }

    /** cursor_touch_cancel_handler. */
    method TouchCancel(id: int)
      requires Valid() && Enabled(View(), Cancel(id))
      modifies this, slots, seat
      ensures Valid() && View() == OnCancel(old(View()), id)
    {
      CancelKeeps(View(), id);
      CancelClientSequences();
      ResetSlots();
      if hasPrimary && id == primaryId {
        ReleasePrimaryTouch();
      }
    }

    /** hikari_cursor_release_primary_touch. */
    method DeviceRemoved(device: int)
      requires Valid()
      modifies this, slots, seat
      ensures Valid() && View() == OnDeviceGone(old(View()), device)
    {
      DeviceGoneKeeps(View(), device);
      if hasPrimary && primaryDevice == device {
        ReleasePrimaryTouch();
      }
      CancelClientSequences();
      ResetSlots();
    }

    /** hikari_lock_mode_enter, as far as touch goes. */
    method Lock()
      requires Valid() && mode != Locked
      modifies this, slots, seat
      ensures Valid() && View() == RunEffect(old(View()), LockScreen)
    {
      EffectKeeps(View(), LockScreen);
      Run(LockScreen);
    }
  }

  lemma FreeSlotEquals(slots: seq<Slot>, n: nat)
    requires n <= |slots| && forall i :: 0 <= i < n ==> slots[i].active
    requires n < |slots| ==> !slots[n].active
    ensures FreeSlot(slots) == n
  {
  }

  lemma FindSlotIs(slots: seq<Slot>, id: int, n: nat)
    requires n <= |slots| && forall i :: 0 <= i < n ==> !(slots[i].active && slots[i].id == id)
    requires n < |slots| ==> slots[n].active && slots[n].id == id
    ensures FindSlot(slots, id) == n
  {
  }

  lemma {:induction false} HolderHolds(seat: seq<SeatPoint>, id: int)
    requires FindPoint(seat, id).Some?
    ensures SeatPoint(id, FindPoint(seat, id).value) in seat
  {
    if seat[0].id == id {
    } else {
      HolderHolds(seat[1..], id);
    }
  }

  lemma {:induction false} CancelledHoldsNothing(seat: seq<SeatPoint>, c: Client)
    ensures forall p :: p in WithoutClient(seat, c) ==> p.client != c && p in seat
  {
    if seat == [] {
    } else {
      CancelledHoldsNothing(seat[1..], c);
      assert seat == [seat[0]] + seat[1..];
    }
  }
}
