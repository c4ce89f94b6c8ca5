/**
  Position interpolation of windows, src/animation.c: easing curves over exact
  reals, a 32-bit millisecond clock, flights that are retargeted in the air, and
  the record of where a window is drawn that hit testing relies on.
 */
module WindowMotion {
  // CLOCK_MONOTONIC in milliseconds, cut to 32 bits.
  const CLOCK: nat := 0x1_0000_0000

  datatype Easing = Linear | EaseOut | EaseInOut

  datatype Config = Config(enabled: bool, duration: int, easing: Easing)

  datatype Point = Point(x: int, y: int)

  function Plus(a: Point, b: Point): Point { Point(a.x + b.x, a.y + b.y) }

  function Minus(a: Point, b: Point): Point { Point(a.x - b.x, a.y - b.y) }

  // ----------------------------------------------------------------- curves

  function Cube(t: real): real { t * t * t }

  function Ease(easing: Easing, t: real): real {
    match easing
    case Linear => t
    case EaseOut => 1.0 - Cube(1.0 - t)
    case EaseInOut => if t < 0.5 then 4.0 * Cube(t) else 1.0 - Cube(-2.0 * t + 2.0) / 2.0
  }

  lemma CubeMonotone(a: real, b: real)
    requires 0.0 <= a <= b
    ensures 0.0 <= Cube(a) <= Cube(b)
  {
    assert a * a <= a * b <= b * b;
    assert (a * a) * a <= (b * b) * a <= (b * b) * b;
  }

  /** Every curve climbs from 0 to 1 and never turns back. */
  lemma EaseMonotone(easing: Easing, s: real, t: real)
    requires 0.0 <= s <= t <= 1.0
    ensures 0.0 <= Ease(easing, s) <= Ease(easing, t) <= 1.0
  {
    match easing
    case Linear =>
    case EaseOut =>
      CubeMonotone(1.0 - t, 1.0 - s);
      CubeMonotone(1.0 - s, 1.0);
    case EaseInOut =>
      if t < 0.5 {
        CubeMonotone(s, t);
        CubeMonotone(t, 0.5);
      } else if s < 0.5 {
        CubeMonotone(s, 0.5);
        CubeMonotone(-2.0 * t + 2.0, 1.0);
      } else {
        CubeMonotone(-2.0 * t + 2.0, -2.0 * s + 2.0);
        CubeMonotone(-2.0 * s + 2.0, 1.0);
      }
  }

  lemma EaseEnds(easing: Easing)
    ensures Ease(easing, 0.0) == 0.0 && Ease(easing, 1.0) == 1.0
  {
    assert Cube(1.0) == 1.0 && Cube(0.0) == 0.0;
  }

  /** Which curve is which: the line; one that runs ahead of the line all the
      way; one that lags behind it up to the half and makes up for it after, the
      same picture from either end. */
  lemma EaseShapes(t: real)
    requires 0.0 <= t <= 1.0
    ensures Ease(Linear, t) == t
    ensures Ease(EaseOut, t) == t * (3.0 - 3.0 * t + t * t)
    ensures 0.0 < t < 1.0 ==> Ease(EaseOut, t) > t
    ensures t <= 0.5 ==> Ease(EaseInOut, t) == 4.0 * t * t * t
    ensures 0.0 < t < 0.5 ==> Ease(EaseInOut, t) < t
    ensures 0.5 < t < 1.0 ==> Ease(EaseInOut, t) > t
    ensures Ease(EaseInOut, t) + Ease(EaseInOut, 1.0 - t) == 1.0
  {
    AheadOfLine(t);
    if t < 0.5 {
      Turned(1.0 - t);
      BelowLine(t);
    } else {
      Turned(t);
      BelowLine(1.0 - t);
      assert t == 0.5 ==> Cube(t) == 0.125 && Cube(-2.0 * t + 2.0) == 1.0;
    }
  }

  lemma AheadOfLine(t: real)
    requires 0.0 <= t <= 1.0
    ensures Ease(EaseOut, t) == t * (3.0 - 3.0 * t + t * t)
    ensures 0.0 < t < 1.0 ==> Ease(EaseOut, t) > t
  {
    var ahead := (1.0 - t) * (2.0 - t);
    assert 3.0 - 3.0 * t + t * t == 1.0 + ahead;
    assert t * (1.0 + ahead) == t + t * ahead;
    if 0.0 < t < 1.0 {
      Positive(1.0 - t, 2.0 - t);
      Positive(t, ahead);
    }
  }

  lemma Positive(a: real, b: real)
    requires a > 0.0 && b > 0.0
    ensures a * b > 0.0
  {
  }

  lemma Turned(t: real)
    ensures Cube(-2.0 * t + 2.0) / 2.0 == 4.0 * Cube(1.0 - t)
  {
  }

  lemma BelowLine(t: real)
    requires 0.0 <= t <= 0.5
    ensures 0.0 < t < 0.5 ==> 4.0 * Cube(t) < t
  {
    if 0.0 < t < 0.5 {
      assert t * t < 0.5 * t;
      assert 4.0 * (t * t) < 1.0;
      assert t * (4.0 * (t * t)) < t * 1.0;
    }
  }

  // ------------------------------------------------------------------ clock

  /** The unsigned difference of two clock readings. */
  function Elapsed(start: nat, at: nat): nat { (at - start) % CLOCK }

  /** A wrap between the two readings does not show. */
  lemma ElapsedAcrossWrap(departure: nat, elapsed: nat)
    requires elapsed < CLOCK
    ensures Elapsed(departure % CLOCK, (departure + elapsed) % CLOCK) == elapsed
  {
    var q, r := departure / CLOCK, departure % CLOCK;
    if r + elapsed >= CLOCK {
      assert (departure + elapsed) % CLOCK == r + elapsed - CLOCK;
    }
  }

  function Progress(duration: int, start: nat, at: nat): real {
    if duration <= 0 || Elapsed(start, at) >= duration then 1.0
    else Elapsed(start, at) as real / duration as real
  }

  lemma ProgressMonotone(duration: int, start: nat, a: nat, b: nat)
    requires Elapsed(start, a) <= Elapsed(start, b)
    ensures 0.0 <= Progress(duration, start, a) <= Progress(duration, start, b) <= 1.0
  {
    var e, f := Elapsed(start, a) as real, Elapsed(start, b) as real;
    if duration > 0 {
      var d := duration as real;
      Quotients(e, f, d);
      if f < d {
        Quotients(f, d, d);
      }
    }
  }

  lemma Quotients(e: real, f: real, d: real)
    requires 0.0 <= e <= f && d > 0.0
    ensures 0.0 <= e / d <= f / d && (f == d ==> f / d == 1.0) && (e < d ==> e / d < 1.0)
  {
    assert (e / d) * d == e && (f / d) * d == f;
    Compare(e / d, f / d, e, f, d);
  }

  lemma Compare(x: real, y: real, e: real, f: real, d: real)
    requires x * d == e && y * d == f && 0.0 <= e <= f && d > 0.0
    ensures 0.0 <= x <= y && (f == d ==> y == 1.0) && (e < d ==> x < 1.0)
  {
    Ordered(x, 0.0, d, e, 0.0);
    Ordered(y, x, d, f, e);
    Ordered(y, 1.0, d, f, d);
    Ordered(1.0, y, d, d, f);
    Ordered(x, 1.0, d, e, d);
  }

  lemma Ordered(x: real, y: real, d: real, p: real, q: real)
    requires d > 0.0 && p == x * d && q == y * d
    ensures x < y <==> p < q
  {
  }

  // --------------------------------------------------------------- position

  /** The cast of a double to int: toward zero. */
  function Truncate(r: real): int { if r >= 0.0 then r.Floor else -((-r).Floor) }

  /** How much of a distance lies behind at eased progress `t`, before and after
      the cast. */
  function Covered(distance: int, t: real): real { distance as real * t }

  function Share(distance: int, t: real): int { Truncate(Covered(distance, t)) }

  function Along(start: int, end: int, t: real): int { start + Share(end - start, t) }

  /** `b` lies between `a` and `c`, whichever way they point. */
  predicate Between(a: int, b: int, c: int) { a <= b <= c || c <= b <= a }

  predicate Inside(a: Point, b: Point, c: Point) { Between(a.x, b.x, c.x) && Between(a.y, b.y, c.y) }

  /** Later means nearer the end, even after truncation. */
  lemma AlongMonotone(start: int, end: int, s: real, t: real)
    requires 0.0 <= s <= t <= 1.0
    ensures Between(start, Along(start, end, s), end)
    ensures Between(Along(start, end, s), Along(start, end, t), end)
  {
    hide Share;
    ShareMonotone(end - start, s, t);
  }

  lemma ShareMonotone(d: int, s: real, t: real)
    requires 0.0 <= s <= t <= 1.0
    ensures Between(0, Share(d, s), d) && Between(Share(d, s), Share(d, t), d)
  {
    hide Truncate, Covered;
    CoveredMonotone(d, s, t);
    Truncated(Covered(d, s), Covered(d, t), d);
  }

  lemma CoveredMonotone(d: int, s: real, t: real)
    requires 0.0 <= s <= t <= 1.0
    ensures d >= 0 ==> 0.0 <= Covered(d, s) <= Covered(d, t) <= d as real
    ensures d <= 0 ==> d as real <= Covered(d, t) <= Covered(d, s) <= 0.0
  {
    Products(d as real, s, t, Covered(d, s), Covered(d, t));
  }

  lemma Products(r: real, s: real, t: real, p: real, q: real)
    requires 0.0 <= s <= t <= 1.0 && p == r * s && q == r * t
    ensures r >= 0.0 ==> 0.0 <= p <= q <= r
    ensures r <= 0.0 ==> r <= q <= p <= 0.0
  {
  }

  lemma Truncated(p: real, q: real, d: int)
    requires 0.0 <= p <= q <= d as real || d as real <= q <= p <= 0.0
    ensures Between(0, Truncate(p), d) && Between(Truncate(p), Truncate(q), d)
  {
  }

  lemma AlongEnds(start: int, end: int)
    ensures Along(start, end, 0.0) == start && Along(start, end, 1.0) == end
  {
  }

  // ------------------------------------------------------------------ state

  datatype Motion = Motion(active: bool, placed: bool, from: Point, to: Point, drawn: Point, start: nat)

  const UNPLACED: Motion := Motion(false, false, Point(0, 0), Point(0, 0), Point(0, 0), 0)

  function PositionAt(m: Motion, cfg: Config, at: nat): Point {
    if !m.active then m.to
    else
      var t := Ease(cfg.easing, Progress(cfg.duration, m.start, at));
      Point(Along(m.from.x, m.to.x, t), Along(m.from.y, m.to.y, t))
  }

  predicate MayAnimate(m: Motion, cfg: Config, free: bool) {
    cfg.enabled && cfg.duration > 0 && m.placed && free
  }

  /** A move asked for at clock `now`; `free` is whether nothing about the view
      or the mode the compositor is in rules motion out. */
  function Moved(m: Motion, cfg: Config, free: bool, target: Point, now: nat): Motion {
    if !MayAnimate(m, cfg, free) then Motion(false, true, target, target, target, m.start)
    else if !m.active && m.to == target then m
    else m.(active := true, from := m.drawn, to := target, start := now)
  }

  function Cancelled(m: Motion): Motion {
    if m.active then m.(active := false, drawn := m.to) else m
  }

  function Ticked(m: Motion, cfg: Config, free: bool, at: nat): Motion {
    if !m.active then m
    else if !MayAnimate(m, cfg, free) then Cancelled(m)
    else if Progress(cfg.duration, m.start, at) >= 1.0 then m.(active := false, drawn := m.to)
    else m.(drawn := PositionAt(m, cfg, at))
  }

  function Offset(m: Motion): Point {
    if m.active then Minus(m.drawn, m.to) else Point(0, 0)
  }

  /** Exactly when a move sets a window off, and when a frame leaves it in the
      air. A move that does not set it off leaves it drawn at the target; a frame
      that ends the flight does too. */
  lemma MovesWhen(m: Motion, cfg: Config, free: bool, target: Point, at: nat)
    requires Inv(m)
    ensures var n := Moved(m, cfg, free, target, at);
            && (n.active <==>
                cfg.enabled && cfg.duration > 0 && m.placed && free && (m.active || m.drawn != target))
            && n.to == target && (!n.active ==> n.drawn == target)
            && (n.active ==> n.drawn == m.drawn && n.from == m.drawn && n.start == at)
    ensures var n := Ticked(m, cfg, free, at);
            && (n.active <==>
                m.active && cfg.enabled && cfg.duration > 0 && free && (at - m.start) % 0x1_0000_0000 < cfg.duration)
            && n.to == m.to && (!n.active ==> n.drawn == m.to)
  {
    hide Ease, Along;
    if cfg.duration > 0 {
      Quotients(Elapsed(m.start, at) as real, Elapsed(m.start, at) as real, cfg.duration as real);
    }
  }

  // -------------------------------------------------------------- one flight

  /** Where a tick draws, `elapsed` milliseconds into the flight. */
  lemma TickInFlight(m: Motion, cfg: Config, departure: nat, elapsed: nat)
    requires m.active && MayAnimate(m, cfg, true) && m.start == departure % CLOCK && elapsed < CLOCK
    ensures var n := Ticked(m, cfg, true, (departure + elapsed) % CLOCK);
            && n.to == m.to && n.from == m.from && n.start == m.start && n.placed
            && (n.active <==> elapsed < cfg.duration)
            && (!n.active ==> n.drawn == m.to)
            && n.drawn == PositionAt(m, cfg, (departure + elapsed) % CLOCK)
            && Inside(m.from, n.drawn, m.to)
  {
    var at := (departure + elapsed) % CLOCK;
    ElapsedAcrossWrap(departure, elapsed);
    ProgressMonotone(cfg.duration, m.start, at, at);
    Quotients(elapsed as real, elapsed as real, cfg.duration as real);
    var t := Progress(cfg.duration, m.start, at);
    EaseMonotone(cfg.easing, t, t);
    EaseEnds(cfg.easing);
    hide Ease;
    var u := Ease(cfg.easing, t);
    AlongMonotone(m.from.x, m.to.x, u, u);
    AlongMonotone(m.from.y, m.to.y, u, u);
    AlongEnds(m.from.x, m.to.x);
    AlongEnds(m.from.y, m.to.y);
  }

  /** In the air the window is where the curve has it at the share of the
      duration that has passed, a fraction of a pixel short at most. */
  lemma FlightFollowsCurve(m: Motion, cfg: Config, departure: nat, elapsed: nat)
    requires m.active && m.start == departure % CLOCK && elapsed < cfg.duration && elapsed < CLOCK
    ensures var at, t := (departure + elapsed) % CLOCK, Ease(cfg.easing, elapsed as real / cfg.duration as real);
            && JustShort(m.from.x, m.to.x, t, PositionAt(m, cfg, at).x)
            && JustShort(m.from.y, m.to.y, t, PositionAt(m, cfg, at).y)
  {
    ElapsedAcrossWrap(departure, elapsed);
    Quotients(elapsed as real, elapsed as real, cfg.duration as real);
    var e := elapsed as real / cfg.duration as real;
    EaseMonotone(cfg.easing, e, e);
    hide Ease;
    AlongIsShort(m.from.x, m.to.x, Ease(cfg.easing, e));
    AlongIsShort(m.from.y, m.to.y, Ease(cfg.easing, e));
  }

  /** `at` is the whole pixel at or just before the point `t` of the way. */
  predicate JustShort(start: int, end: int, t: real, at: int) {
    var point := start as real + (end - start) as real * t;
    if start <= end then point - 1.0 < at as real <= point else point <= at as real < point + 1.0
  }

  lemma AlongIsShort(start: int, end: int, t: real)
    requires 0.0 <= t <= 1.0
    ensures JustShort(start, end, t, Along(start, end, t))
  {
    CoveredMonotone(end - start, t, t);
    var p := (end - start) as real * t;
    assert p == Covered(end - start, t);
    hide Covered;
  }

  /** Later positions of a flight are never farther from its target. */
  lemma FlightApproaches(m: Motion, cfg: Config, departure: nat, e: nat, f: nat)
    requires m.active && m.start == departure % CLOCK && e <= f < CLOCK
    ensures Inside(PositionAt(m, cfg, (departure + e) % CLOCK), PositionAt(m, cfg, (departure + f) % CLOCK), m.to)
  {
    var a, b := (departure + e) % CLOCK, (departure + f) % CLOCK;
    ElapsedAcrossWrap(departure, e);
    ElapsedAcrossWrap(departure, f);
    ProgressMonotone(cfg.duration, m.start, a, b);
    hide Progress, Ease, Along;
    var s, t := Progress(cfg.duration, m.start, a), Progress(cfg.duration, m.start, b);
    EaseMonotone(cfg.easing, s, t);
    AlongMonotone(m.from.x, m.to.x, Ease(cfg.easing, s), Ease(cfg.easing, t));
    AlongMonotone(m.from.y, m.to.y, Ease(cfg.easing, s), Ease(cfg.easing, t));
  }

  /** The state after ticks at these times into the flight. */
  function Flown(m: Motion, cfg: Config, departure: nat, times: seq<nat>): Motion {
    if times == [] then m
    else Ticked(Flown(m, cfg, departure, times[..|times| - 1]), cfg, true, (departure + times[|times| - 1]) % CLOCK)
  }

  predicate Forward(times: seq<nat>) {
    (forall i :: 0 <= i < |times| ==> times[i] < CLOCK) &&
      (forall i, j :: 0 <= i < j < |times| ==> times[i] <= times[j])
  }

  /** Whatever the frames and wherever the clock wraps: the window is between
      where it set off and its target, each tick leaves it no farther from the
      target than the one before, and it has arrived, exactly, once a tick falls
      past the duration. */
  lemma {:induction false} FlightIsGood(m: Motion, cfg: Config, departure: nat, times: seq<nat>)
    requires m.active && MayAnimate(m, cfg, true) && m.start == departure % CLOCK && m.drawn == m.from && Forward(times)
    ensures var n := Flown(m, cfg, departure, times);
            && n.to == m.to && Inside(m.from, n.drawn, m.to)
            && (n.active <==> times == [] || times[|times| - 1] < cfg.duration)
            && (!n.active ==> n.drawn == m.to)
            && (n.active ==> n.from == m.from && n.start == m.start && n.placed)
            && n.drawn == if times == [] then m.from else PositionAt(m, cfg, (departure + times[|times| - 1]) % CLOCK)
    ensures times != [] ==>
              Inside(Flown(m, cfg, departure, times[..|times| - 1]).drawn, Flown(m, cfg, departure, times).drawn, m.to)
  {
    hide PositionAt, Ticked;
    if times == [] {
    } else {
      var front, last := times[..|times| - 1], times[|times| - 1];
      FlightIsGood(m, cfg, departure, front);
      TickInFlight(m, cfg, departure, last);
      if front != [] {
        FlightApproaches(m, cfg, departure, front[|front| - 1], last);
      }
      TicksAgree(m, Flown(m, cfg, departure, front), cfg, departure, last);
    }
  }

  /** A tick depends on the flight, not on where the last tick drew; one that
      comes after the arrival changes nothing. */
  lemma TicksAgree(m: Motion, n: Motion, cfg: Config, departure: nat, e: nat)
    requires m.active && MayAnimate(m, cfg, true) && m.start == departure % CLOCK && e < CLOCK
    requires n.to == m.to && (n.active ==> n.from == m.from && n.start == m.start && n.placed)
    requires !n.active ==> n.drawn == m.to && e >= cfg.duration
    ensures var at := (departure + e) % CLOCK;
            Ticked(n, cfg, true, at).drawn == Ticked(m, cfg, true, at).drawn
            && Ticked(n, cfg, true, at).active == Ticked(m, cfg, true, at).active
            && Ticked(n, cfg, true, at).to == m.to
            && (n.active ==>
                  var t := Ticked(n, cfg, true, at);
                  t.from == m.from && t.start == m.start && t.placed)
  {
    ElapsedAcrossWrap(departure, e);
    hide Ease, Along;
  }

  // ------------------------------------------------------------------- runs

  /** Moves, frames, the start of a drag or a hide (`free` false at the next
      frame), and the resets at unmap and on a change of output. */
  datatype Event =
    | Move(cfg: Config, free: bool, target: Point, now: nat)
    | Tick(cfg: Config, free: bool, at: nat)
    | Cancel
    | Reset

  function Step(m: Motion, e: Event): Motion {
    match e
    case Move(cfg, free, target, now) => Moved(m, cfg, free, target, now)
    case Tick(cfg, free, at) => Ticked(m, cfg, free, at)
    case Cancel => Cancelled(m)
    case Reset => UNPLACED
  }

  function Run(m: Motion, es: seq<Event>): Motion {
    if es == [] then m else Step(Run(m, es[..|es| - 1]), es[|es| - 1])
  }

  /** At rest a placed window is drawn at its target; in the air it is between
      where it set off and where it is going. */
  predicate Inv(m: Motion) {
    && (m.active ==> m.placed && Inside(m.from, m.drawn, m.to))
    && (!m.active ==> m.drawn == m.to)
  }

  lemma StepKeeps(m: Motion, e: Event)
    requires Inv(m)
    ensures Inv(Step(m, e))
  {
    if e.Tick? && m.active && MayAnimate(m, e.cfg, e.free) && Progress(e.cfg.duration, m.start, e.at) < 1.0 {
      var t := Progress(e.cfg.duration, m.start, e.at);
      ProgressMonotone(e.cfg.duration, m.start, e.at, e.at);
      EaseMonotone(e.cfg.easing, t, t);
      hide Ease, Progress;
      var u := Ease(e.cfg.easing, t);
      AlongMonotone(m.from.x, m.to.x, u, u);
      AlongMonotone(m.from.y, m.to.y, u, u);
    }
  }

  /** In every run, under any configuration changes: the offset reported to hit
      testing takes the target exactly to where the window is drawn, and what is
      drawn lies between origin and target. */
  lemma {:induction false} RunInv(es: seq<Event>)
    ensures var m := Run(UNPLACED, es);
            Inv(m) && Plus(m.to, Offset(m)) == m.drawn && (m.active ==> Inside(m.from, m.drawn, m.to))
  {
    OffsetHolds(Run(UNPLACED, es));
    hide Step, Inside, Offset, Plus;
    if es == [] {
    } else {
      RunInv(es[..|es| - 1]);
      StepKeeps(Run(UNPLACED, es[..|es| - 1]), es[|es| - 1]);
    }
  }

  lemma OffsetHolds(m: Motion)
    ensures Inv(m) ==> Plus(m.to, Offset(m)) == m.drawn
    ensures Inv(UNPLACED)
  {
  }

  /** A retarget sets off from the last drawn point: nothing jumps, in the air or
      at rest. */
  lemma {:induction false} RetargetDoesNotJump(es: seq<Event>, cfg: Config, target: Point, now: nat)
    ensures var m := Run(UNPLACED, es);
            var n := Moved(m, cfg, true, target, now);
            MayAnimate(m, cfg, true) ==>
              && n.drawn == m.drawn && n.to == target
              && (n.active ==> n.from == m.drawn)
              && (!n.active ==> m.drawn == target)
  {
    RunInv(es);
  }

  // ------------------------------------------------------------- the view

  /** What src/animation.c and its callers keep about one view. */
  class View {
    var active: bool
    var placed: bool
    var from: Point
    var to: Point
    var drawn: Point
    var start: nat
    // The scene node's place in the output layout, and the output's own.
    var hasNode: bool
    var hasOutput: bool
    var node: Point
    var origin: Point
    // Hidden, or the compositor is locked, moving or resizing something.
    var barred: bool

    ghost function State(): Motion
      reads this
    {
      Motion(active, placed, from, to, drawn, start)
    }

    /** What is drawn is recorded: the node of a placed view really is there. */
    ghost predicate Valid()
      reads this
    {
      && Inv(State())
      && (active ==> hasNode && hasOutput)
      && (placed && hasNode && hasOutput ==> node == Plus(drawn, origin))
    }

    predicate Free()
      reads this
    {
      hasNode && hasOutput && !barred
    }

    constructor ()
      ensures Valid() && State() == UNPLACED
    {
      active, placed, from, to, drawn, start := false, false, Point(0, 0), Point(0, 0), Point(0, 0), 0;
      hasNode, hasOutput, node, origin, barred := false, false, Point(0, 0), Point(0, 0), false;
    }

    /** hikari_animation_move: true when the animation now owns the position. */
    method AnimationMove(cfg: Config, target: Point, now: nat) returns (owned: bool)
      requires Inv(State())
      modifies this`active, this`placed, this`from, this`to, this`drawn, this`start
      ensures State() == Moved(old(State()), cfg, Free(), target, now) && to == target
      ensures owned ==> active && drawn == old(drawn)
      ensures !owned ==> !active && drawn == target
    {
      if !(cfg.enabled && cfg.duration > 0 && placed && hasNode && hasOutput && !barred) {
        active, placed := false, true;
        from, to, drawn := target, target, target;
        return false;
      }
      if !active && to == target {
        return false;
      }
      from, to := drawn, target;
      start, active := now, true;
      return true;
    }

    /** What a caller that changes the geometry does: offer the move, and place
        the node itself when the offer is declined. */
    method Place(cfg: Config, target: Point, now: nat)
      requires Valid()
      modifies this`active, this`placed, this`from, this`to, this`drawn, this`start, this`node
      ensures Valid()
      ensures State() == if hasNode && hasOutput then Moved(old(State()), cfg, Free(), target, now) else old(State())
    {
      if hasNode && hasOutput {
        StepKeeps(State(), Event.Move(cfg, Free(), target, now));
        var owned := AnimationMove(cfg, target, now);
        if !owned {
          node := Plus(target, origin);
        }
      }
    }

    method Cancel()
      requires Valid()
      modifies this`active, this`node, this`drawn
      ensures Valid() && State() == Cancelled(old(State()))
    {
      if !active {
        return;
      }
      active := false;
      if hasNode && hasOutput {
        node := Plus(to, origin);
        drawn := to;
      }
    }

    /** Unmapping: settle, then forget, so that the next map places at once. */
    method Unmap()
      requires Valid()
      modifies this`active, this`placed, this`from, this`to, this`drawn, this`start, this`node
      ensures Valid() && State() == UNPLACED
    {
      Cancel();
      Init();
    }

    method Init()
      modifies this`active, this`placed, this`from, this`to, this`drawn, this`start
      ensures State() == UNPLACED
    {
      active, placed := false, false;
      from, to, drawn := Point(0, 0), Point(0, 0), Point(0, 0);
      start := 0;
    }

    /** Migration: settled against the output it leaves, forgotten against the
        one it joins, so it is never in flight between the two. */
    method Migrate(joins: Point)
      requires Valid()
      modifies this
      ensures Valid() && State() == UNPLACED && origin == joins && hasNode == old(hasNode)
      ensures old(active) ==> node == Plus(old(to), old(origin))
    {
      Cancel();
      origin, hasOutput := joins, true;
      Init();
    }

    /** hikari_animation_offset. */
    method AnimationOffset() returns (d: Point)
      requires Valid()
      ensures d == Offset(State()) && Plus(to, d) == drawn
      ensures active ==> Plus(Plus(to, d), origin) == node
    {
      if !active {
        return Point(0, 0);
      }
      return Minus(drawn, to);
    }

    /** One view's share of a frame. */
    method Advance(cfg: Config, at: nat) returns (running: bool)
      requires Valid()
      modifies this`active, this`node, this`drawn
      ensures Valid() && State() == Ticked(old(State()), cfg, Free(), at) && running == active
    {
      if !active {
        return false;
      }
      if !hasNode || !(cfg.enabled && cfg.duration > 0 && placed && hasNode && hasOutput && !barred) {
        Cancel();
        return false;
      }
      StepKeeps(State(), Event.Tick(cfg, true, at));
      var current := PositionAt(Motion(active, placed, from, to, drawn, start), cfg, at);
      running := false;
      if Progress(cfg.duration, start, at) >= 1.0 {
        active := false;
        current := to;
      } else {
        running := true;
      }
      node := Plus(current, origin);
      drawn := current;
    }
  }

  /** hikari_animation_tick: every view of the output, each by itself; another
      frame is asked for exactly while something is still in flight. */
  method AnimationTick(views: seq<View>, cfg: Config, at: nat) returns (running: bool)
    requires forall i :: 0 <= i < |views| ==> views[i].Valid()
    requires forall i, j :: 0 <= i < j < |views| ==> views[i] != views[j]
    modifies views
    ensures forall i :: 0 <= i < |views| ==>
              views[i].Valid() && views[i].State() == Ticked(old(views[i].State()), cfg, old(views[i].Free()), at)
    ensures running <==> exists i :: 0 <= i < |views| && views[i].active
  {
    hide Ticked, Inv;
    running := false;
    for k := 0 to |views|
      invariant forall i :: k <= i < |views| ==> views[i].Valid() && views[i].State() == old(views[i].State())
      invariant forall i :: 0 <= i < |views| ==> views[i].Free() == old(views[i].Free())
      invariant forall i :: 0 <= i < k ==>
                  views[i].Valid() && views[i].State() == Ticked(old(views[i].State()), cfg, old(views[i].Free()), at)
      invariant running <==> exists i :: 0 <= i < k && views[i].active
    {
      var more := views[k].Advance(cfg, at);
      running := running || more;
    }
  }
}
