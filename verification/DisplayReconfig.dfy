/**
  Runtime display configuration: src/output_management.c over the outputs of
  src/output.c. A request attaches the outputs that come on, asks the backend to
  commit, and either undoes exactly what it took or carries every head through.
 */
module DisplayReconfig {
  import opened Options

  // -------------------------------------------------------------- the state

  /** One listed output: whether it has a scene output, a place in the layout,
      and is part of the desktop; and the position it has or had there. */
  datatype Screen = Screen(scene: bool, inLayout: bool, wants: bool, x: int, y: int)

  /** `home` is where each view lives; None is the placeholder output the
      compositor keeps for when there is no other. */
  datatype Desktop = Desktop(screens: seq<Screen>, home: map<nat, Option<nat>>)

  /** What a client asks of one output; None is a head hikari does not list. */
  datatype Head = Head(out: Option<nat>, enabled: bool, x: int, y: int)

  /** What the rest of the system answers, head by head where it is asked so. */
  datatype Answers = Answers(permitted: bool, built: bool, prepared: bool, committed: bool,
                             layout: seq<bool>, scene: seq<bool>, placed: seq<bool>)

  /** The desktop between requests. */
  ghost predicate Settled(d: Desktop) { Even(d.screens) && Housed(d) }

  /** Scene output, layout and desktop membership agree for every output. */
  ghost predicate Even(ss: seq<Screen>) {
    forall i :: 0 <= i < |ss| ==> ss[i].scene == ss[i].inLayout == ss[i].wants
  }

  /** No view is homed on an output that is not part of the desktop. */
  ghost predicate Housed(d: Desktop) {
    forall v :: v in d.home && d.home[v].Some? ==> d.home[v].value < |d.screens| && d.screens[d.home[v].value].wants
  }

  /** wlroots lets a client name a head once at most. */
  ghost predicate WellFormed(heads: seq<Head>, n: nat) {
    && (forall k :: 0 <= k < |heads| && heads[k].out.Some? ==> heads[k].out.value < n)
    && (forall j, k :: 0 <= j < k < |heads| && heads[j].out.Some? ==> heads[j].out != heads[k].out)
  }

  predicate Answered(a: Answers, heads: seq<Head>) {
    |a.layout| == |a.scene| == |a.placed| == |heads|
  }

  // ------------------------------------------------------------- attaching

  function Lit(s: Screen): Screen { s.(scene := true, inLayout := true) }

  /** A head whose output has to be attached before the commit. */
  predicate Needs(ss: seq<Screen>, h: Head) {
    h.enabled && h.out.Some? && h.out.value < |ss| && !ss[h.out.value].wants
  }

  predicate NamedOn(heads: seq<Head>, k: nat, i: nat)
    requires k <= |heads|
  {
    exists h :: 0 <= h < k && heads[h].out == Some(i) && heads[h].enabled
  }

  /** The first `k` heads' newcomers have been attached. */
  function AttachedUpTo(ss: seq<Screen>, heads: seq<Head>, k: nat): (r: seq<Screen>)
    requires k <= |heads|
    ensures |r| == |ss|
    ensures forall i :: 0 <= i < |ss| ==> r[i] == if !ss[i].wants && NamedOn(heads, k, i) then Lit(ss[i]) else ss[i]
  {
    seq(|ss|, i requires 0 <= i < |ss| => if !ss[i].wants && NamedOn(heads, k, i) then Lit(ss[i]) else ss[i])
  }

  function Readied(d: Desktop, heads: seq<Head>): Desktop {
    d.(screens := AttachedUpTo(d.screens, heads, |heads|))
  }

  predicate AttachRefused(ss: seq<Screen>, heads: seq<Head>, a: Answers)
    requires Answered(a, heads)
  {
    exists k :: 0 <= k < |heads| && Needs(ss, heads[k]) && !(a.layout[k] && a.scene[k])
  }

  // ------------------------------------------------------ carrying through

  /** The next output of the ring that is part of the desktop, if another is. */
  function NextWanted(ss: seq<Screen>, i: nat): (r: Option<nat>)
    requires i < |ss|
    ensures r.Some? ==> r.value < |ss| && r.value != i && ss[r.value].wants
    ensures r.None? ==> forall j :: 0 <= j < |ss| && j != i ==> !ss[j].wants
  {
    var after := FirstWanted(ss, i + 1, |ss|);
    if after.Some? then after else FirstWanted(ss, 0, i)
  }

  function FirstWanted(ss: seq<Screen>, from: nat, end: nat): (r: Option<nat>)
    requires from <= end <= |ss|
    ensures r.Some? ==> from <= r.value < end && ss[r.value].wants
    ensures r.Some? ==> forall j :: from <= j < r.value ==> !ss[j].wants
    ensures r.None? ==> forall j :: from <= j < end ==> !ss[j].wants
    decreases end - from
  {
    if from == end then None
    else if ss[from].wants then Some(from)
    else FirstWanted(ss, from + 1, end)
  }

  function Evacuated(home: map<nat, Option<nat>>, i: nat, target: Option<nat>): map<nat, Option<nat>> {
    map v | v in home :: if home[v] == Some(i) then target else home[v]
  }

  function WantsSet(d: Desktop, i: nat, on: bool): Desktop
    requires i < |d.screens|
  {
    var s := d.screens[i];
    if s.wants == on then d
    else if on then d.(screens := d.screens[i := Lit(s).(wants := true)])
    else
      Desktop(d.screens[i := s.(scene := false, inLayout := false, wants := false)],
              Evacuated(d.home, i, NextWanted(d.screens[i := s.(wants := false)], i)))
  }

  function Positioned(d: Desktop, h: Head, placed: bool): Desktop {
    if h.enabled && h.out.Some? && h.out.value < |d.screens| && placed
    then d.(screens := d.screens[h.out.value := d.screens[h.out.value].(x := h.x, y := h.y)])
    else d
  }

  function HeadApplied(d: Desktop, h: Head, placed: bool): Desktop {
    if h.out.Some? && h.out.value < |d.screens| then Positioned(WantsSet(d, h.out.value, h.enabled), h, placed)
    else d
  }

  function HeadsApplied(d: Desktop, heads: seq<Head>, a: Answers, k: nat): Desktop
    requires k <= |heads| && Answered(a, heads)
  {
    if k == 0 then d else HeadApplied(HeadsApplied(d, heads, a, k - 1), heads[k - 1], a.placed[k - 1])
  }

  // -------------------------------------------------------------- a request

  /** Refused, only tried, or carried through. */
  datatype Verdict = Refused | Tried | Committed

  function Judge(d: Desktop, heads: seq<Head>, a: Answers, testOnly: bool): Verdict
    requires Answered(a, heads)
  {
    if !a.permitted || (!a.built && heads != []) || !a.prepared then Refused
    else if testOnly then Tried
    else if AttachRefused(d.screens, heads, a) || !a.committed then Refused
    else Committed
  }

  function After(d: Desktop, heads: seq<Head>, a: Answers, testOnly: bool): Desktop
    requires Answered(a, heads)
  {
    if Judge(d, heads, a, testOnly) != Committed then d
    else HeadsApplied(Readied(d, heads), heads, a, |heads|)
  }

  /** A head whose place in the layout was asked for and not given. */
  predicate Misplaced(ss: seq<Screen>, h: Head, placed: bool) {
    h.enabled && !placed &&
    !(h.out.Some? && h.out.value < |ss| && ss[h.out.value].x == h.x && ss[h.out.value].y == h.y)
  }

  /** "Succeeded" means everything took effect, or would have been tried. */
  predicate Succeeds(d: Desktop, heads: seq<Head>, a: Answers, testOnly: bool)
    requires Answered(a, heads)
  {
    match Judge(d, heads, a, testOnly)
    case Refused => false
    case Tried => true
    case Committed => forall k :: 0 <= k < |heads| ==> !Misplaced(d.screens, heads[k], a.placed[k])
  }

  // ------------------------------------------------- what a request leaves

  /** Where output `i` stands when the first `k` heads have been carried
      through: as its own head asks, ready to come on, or as it was. */
  ghost predicate CarriedAt(before: seq<Screen>, now: Screen, heads: seq<Head>, a: Answers, k: nat, i: nat)
    requires k <= |heads| && Answered(a, heads) && i < |before|
  {
    && (forall h :: 0 <= h < k && heads[h].out == Some(i) ==>
          && now.wants == now.scene == now.inLayout == heads[h].enabled
          && (now.x, now.y) == (if heads[h].enabled && a.placed[h] then (heads[h].x, heads[h].y)
                                else (before[i].x, before[i].y)))
    && ((forall h :: 0 <= h < k ==> heads[h].out != Some(i)) ==>
          now == if !before[i].wants && NamedOn(heads, |heads|, i) then Lit(before[i]) else before[i])
  }

  ghost predicate Carried(before: seq<Screen>, d: Desktop, heads: seq<Head>, a: Answers, k: nat)
    requires k <= |heads| && Answered(a, heads)
  {
    && |d.screens| == |before|
    && (forall i :: 0 <= i < |before| ==> CarriedAt(before, d.screens[i], heads, a, k, i))
    && Housed(d)
  }

  lemma CarriedStart(d: Desktop, heads: seq<Head>, a: Answers)
    requires Settled(d) && WellFormed(heads, |d.screens|) && Answered(a, heads)
    ensures Carried(d.screens, Readied(d, heads), heads, a, 0)
  {
  }

  lemma HousedKeeps(d: Desktop, i: nat, on: bool)
    requires i < |d.screens| && Housed(d)
    ensures Housed(WantsSet(d, i, on))
  {
  }

  lemma CarriedNext(before: seq<Screen>, d: Desktop, heads: seq<Head>, a: Answers, k: nat)
    requires k < |heads| && Answered(a, heads) && WellFormed(heads, |before|)
    requires Even(before) && Carried(before, d, heads, a, k)
    ensures Carried(before, HeadApplied(d, heads[k], a.placed[k]), heads, a, k + 1)
  {
    hide CarriedAt, Even, WellFormed, HeadApplied, Housed, NamedOn;
    var n := HeadApplied(d, heads[k], a.placed[k]);
    HeadKeepsHoused(d, heads[k], a.placed[k]);
    forall i | 0 <= i < |before|
      ensures CarriedAt(before, n.screens[i], heads, a, k + 1, i)
    {
      assert CarriedAt(before, d.screens[i], heads, a, k, i);
      if heads[k].out == Some(i) {
        NamedCarried(before, d, heads, a, k);
      } else {
        OtherUntouched(d, heads[k], a.placed[k], i);
        OtherCarried(before, d.screens[i], heads, a, k, i);
      }
    }
  }

  lemma HeadKeepsHoused(d: Desktop, h: Head, placed: bool)
    requires Housed(d)
    ensures Housed(HeadApplied(d, h, placed)) && |HeadApplied(d, h, placed).screens| == |d.screens|
  {
    hide NextWanted, Evacuated;
    if h.out.Some? && h.out.value < |d.screens| {
      HousedKeeps(d, h.out.value, h.enabled);
    }
  }

  lemma OtherUntouched(d: Desktop, h: Head, placed: bool, i: nat)
    requires i < |d.screens| && h.out != Some(i)
    ensures |HeadApplied(d, h, placed).screens| == |d.screens| && HeadApplied(d, h, placed).screens[i] == d.screens[i]
  {
    hide NextWanted, Evacuated;
  }

  lemma OtherCarried(before: seq<Screen>, now: Screen, heads: seq<Head>, a: Answers, k: nat, i: nat)
    requires k < |heads| && Answered(a, heads) && i < |before| && heads[k].out != Some(i)
    requires CarriedAt(before, now, heads, a, k, i)
    ensures CarriedAt(before, now, heads, a, k + 1, i)
  {
    hide NamedOn;
  }

  /** The head's own output has not been named before. */
  lemma NamedCarried(before: seq<Screen>, d: Desktop, heads: seq<Head>, a: Answers, k: nat)
    requires k < |heads| && Answered(a, heads) && WellFormed(heads, |before|) && Even(before)
    requires heads[k].out.Some? && heads[k].out.value < |before| == |d.screens|
    requires CarriedAt(before, d.screens[heads[k].out.value], heads, a, k, heads[k].out.value)
    ensures var n, c := HeadApplied(d, heads[k], a.placed[k]), heads[k].out.value;
            c < |n.screens| && CarriedAt(before, n.screens[c], heads, a, k + 1, c)
  {
    hide NextWanted, Evacuated;
    assert NamedOn(heads, |heads|, heads[k].out.value) <== heads[k].enabled;
  }

  lemma {:induction false} CarriedAll(d: Desktop, heads: seq<Head>, a: Answers, k: nat)
    requires Settled(d) && WellFormed(heads, |d.screens|) && Answered(a, heads) && k <= |heads|
    ensures Carried(d.screens, HeadsApplied(Readied(d, heads), heads, a, k), heads, a, k)
  {
    hide Even, Housed, WellFormed, Carried, HeadApplied, Readied;
    if k == 0 {
      CarriedStart(d, heads, a);
    } else {
      CarriedAll(d, heads, a, k - 1);
      CarriedNext(d.screens, HeadsApplied(Readied(d, heads), heads, a, k - 1), heads, a, k - 1);
    }
  }

  /** Before and after every request, whatever is answered: each output has a
      scene output and a place in the layout exactly when it is part of the
      desktop. */
  lemma RequestKeepsSettled(d: Desktop, heads: seq<Head>, a: Answers, testOnly: bool)
    requires Settled(d) && WellFormed(heads, |d.screens|) && Answered(a, heads)
    ensures Settled(After(d, heads, a, testOnly))
  {
    if Judge(d, heads, a, testOnly) == Committed {
      var n := After(d, heads, a, testOnly);
      CarriedAll(d, heads, a, |heads|);
      forall i | 0 <= i < |n.screens|
        ensures n.screens[i].scene == n.screens[i].inLayout == n.screens[i].wants
      {
        assert CarriedAt(d.screens, n.screens[i], heads, a, |heads|, i);
        if h :| 0 <= h < |heads| && heads[h].out == Some(i) {
        } else {
          assert !NamedOn(heads, |heads|, i);
        }
      }
    }
  }

  /** The request is only tried, or something stands in its way: the client may
      not, the states cannot be built or tried, an output that is to come on
      cannot be attached, or the backend refuses. */
  ghost predicate Stays(ss: seq<Screen>, heads: seq<Head>, a: Answers, testOnly: bool)
    requires Answered(a, heads)
  {
    || testOnly || !a.permitted || (!a.built && heads != []) || !a.prepared || !a.committed
    || exists k :: 0 <= k < |heads| && heads[k].enabled && heads[k].out.Some? && heads[k].out.value < |ss|
                   && !ss[heads[k].out.value].wants && !(a.layout[k] && a.scene[k])
  }

  /** Everything that was asked for took effect, or would be tried. */
  ghost predicate TookEffect(ss: seq<Screen>, heads: seq<Head>, a: Answers, testOnly: bool)
    requires Answered(a, heads)
  {
    && a.permitted && (a.built || heads == []) && a.prepared
    && (testOnly ||
        (!Stays(ss, heads, a, testOnly) &&
         forall k :: 0 <= k < |heads| && heads[k].enabled && !a.placed[k] ==>
           && heads[k].out.Some? && heads[k].out.value < |ss|
           && (ss[heads[k].out.value].x, ss[heads[k].out.value].y) == (heads[k].x, heads[k].y)))
  }

  lemma JudgedBy(d: Desktop, heads: seq<Head>, a: Answers, testOnly: bool)
    requires Answered(a, heads)
    ensures Judge(d, heads, a, testOnly) == Committed <==> !Stays(d.screens, heads, a, testOnly)
    ensures Succeeds(d, heads, a, testOnly) <==> TookEffect(d.screens, heads, a, testOnly)
  {
    assert AttachRefused(d.screens, heads, a) <==>
           exists k :: 0 <= k < |heads| && heads[k].enabled && heads[k].out.Some? && heads[k].out.value < |d.screens|
                       && !d.screens[heads[k].out.value].wants && !(a.layout[k] && a.scene[k]) by {
      assert forall k :: 0 <= k < |heads| ==>
               (Needs(d.screens, heads[k]) <==>
                  heads[k].enabled && heads[k].out.Some? && heads[k].out.value < |d.screens|
                  && !d.screens[heads[k].out.value].wants);
    }
    hide AttachRefused;
    assert forall k :: 0 <= k < |heads| ==>
             (Misplaced(d.screens, heads[k], a.placed[k]) <==>
                heads[k].enabled && !a.placed[k] &&
                !(heads[k].out.Some? && heads[k].out.value < |d.screens| &&
                  (d.screens[heads[k].out.value].x, d.screens[heads[k].out.value].y) == (heads[k].x, heads[k].y)));
  }

  /** A request that stays leaves everything alone. Any other does to the outputs
      it names what it says, and nothing to the others. */
  lemma RequestDoesWhatItSays(d: Desktop, heads: seq<Head>, a: Answers, testOnly: bool, i: nat)
    requires Settled(d) && WellFormed(heads, |d.screens|) && Answered(a, heads) && i < |d.screens|
    ensures var n := After(d, heads, a, testOnly);
            && (Stays(d.screens, heads, a, testOnly) ==> n == d)
            && |n.screens| == |d.screens|
            && ((forall h :: 0 <= h < |heads| ==> heads[h].out != Some(i)) ==> n.screens[i] == d.screens[i])
            && (!Stays(d.screens, heads, a, testOnly) ==>
                  forall h :: 0 <= h < |heads| && heads[h].out == Some(i) ==>
                    && n.screens[i].wants == n.screens[i].scene == n.screens[i].inLayout == heads[h].enabled
                    && (n.screens[i].x, n.screens[i].y) ==
                       if heads[h].enabled && a.placed[h] then (heads[h].x, heads[h].y)
                       else (d.screens[i].x, d.screens[i].y))
  {
    JudgedBy(d, heads, a, testOnly);
    hide Stays;
    if Judge(d, heads, a, testOnly) == Committed {
      CarriedAll(d, heads, a, |heads|);
      assert CarriedAt(d.screens, After(d, heads, a, testOnly).screens[i], heads, a, |heads|, i);
      if forall h :: 0 <= h < |heads| ==> heads[h].out != Some(i) {
        assert !NamedOn(heads, |heads|, i);
      }
    }
  }

  // ------------------------------------------------- where the views end up

  /** Whether output `i` is part of the desktop once `k` heads are through: a
      question about the request and the desktop before it alone. */
  ghost predicate WantedAfter(ss: seq<Screen>, heads: seq<Head>, k: nat, i: nat)
    requires k <= |heads| && i < |ss|
  {
    if exists h :: 0 <= h < k && heads[h].out == Some(i) then NamedOn(heads, k, i) else ss[i].wants
  }

  ghost predicate NoneWantedAfter(ss: seq<Screen>, heads: seq<Head>, k: nat)
    requires k <= |heads|
  {
    forall i :: 0 <= i < |ss| ==> !WantedAfter(ss, heads, k, i)
  }

  lemma CarriedWants(before: seq<Screen>, d: Desktop, heads: seq<Head>, a: Answers, k: nat, i: nat)
    requires k <= |heads| && Answered(a, heads) && WellFormed(heads, |before|) && i < |before| &&
             Carried(before, d, heads, a, k)
    ensures d.screens[i].wants == WantedAfter(before, heads, k, i)
  {
    assert CarriedAt(before, d.screens[i], heads, a, k, i);
    if h :| 0 <= h < k && heads[h].out == Some(i) {
      assert d.screens[i].wants == heads[h].enabled;
      assert NamedOn(heads, k, i) <==> heads[h].enabled;
    }
  }

  lemma CarriedNone(before: seq<Screen>, d: Desktop, heads: seq<Head>, a: Answers, k: nat)
    requires k <= |heads| && Answered(a, heads) && WellFormed(heads, |before|) && Carried(before, d, heads, a, k)
    ensures NoneWantedAfter(before, heads, k) <==> forall i :: 0 <= i < |d.screens| ==> !d.screens[i].wants
  {
    hide Carried, WantedAfter;
    assert |d.screens| == |before| by { CarriedSize(before, d, heads, a, k); }
    forall i | 0 <= i < |before|
      ensures d.screens[i].wants == WantedAfter(before, heads, k, i)
    {
      CarriedWants(before, d, heads, a, k, i);
    }
  }

  lemma CarriedSize(before: seq<Screen>, d: Desktop, heads: seq<Head>, a: Answers, k: nat)
    requires k <= |heads| && Answered(a, heads) && Carried(before, d, heads, a, k)
    ensures |d.screens| == |before| && Housed(d)
  {
  }

  /** `j` is the first output of the desktop met going up from `i`, round the end
      of the list. */
  ghost predicate NextRound(ss: seq<Screen>, i: nat, j: nat) {
    && i < |ss| && j < |ss| && j != i && ss[j].wants
    && (if j > i then forall k :: i < k < j ==> !ss[k].wants
        else (forall k :: i < k < |ss| ==> !ss[k].wants) && (forall k :: 0 <= k < j ==> !ss[k].wants))
  }

  /** When an output goes, its views and no others move: to the next output round
      that is left, or to the placeholder if none is. */
  lemma ViewsGoToNext(d: Desktop, i: nat, v: nat)
    requires i < |d.screens| && d.screens[i].wants && v in d.home
    ensures var n := WantsSet(d, i, false);
            && n.home.Keys == d.home.Keys
            && (d.home[v] != Some(i) ==> n.home[v] == d.home[v])
            && (d.home[v] == Some(i) && n.home[v].Some? ==> NextRound(d.screens, i, n.home[v].value))
            && (d.home[v] == Some(i) && n.home[v].None? ==>
                  forall j :: 0 <= j < |d.screens| && j != i ==> !d.screens[j].wants)
  {
    var off := d.screens[i := d.screens[i].(wants := false)];
    var next := NextWanted(off, i);
    assert forall k :: 0 <= k < |off| && k != i ==> off[k] == d.screens[k];
    var after := FirstWanted(off, i + 1, |off|);
    if d.home[v] == Some(i) && next.Some? {
      if after.None? {
        assert forall k :: i < k < |off| ==> !off[k].wants;
      } else {
        assert forall k :: i < k < after.value ==> !off[k].wants;
      }
    }
  }

  /** One head and one view: it loses its home exactly when its output goes and
      no other is left. */
  lemma ViewStep(d: Desktop, h: Head, placed: bool, v: nat)
    requires v in d.home && (d.home[v].Some? ==> d.home[v].value < |d.screens| && d.screens[d.home[v].value].wants)
    ensures var n := HeadApplied(d, h, placed);
            && n.home.Keys == d.home.Keys
            && (d.home[v].None? ==> n.home[v].None?)
            && (d.home[v].Some? ==> (n.home[v].None? <==> forall i :: 0 <= i < |n.screens| ==> !n.screens[i].wants))
            && (d.home[v].Some? && n.screens[d.home[v].value].wants ==> n.home[v] == d.home[v])
  {
    if h.out.Some? && h.out.value < |d.screens| {
      var c := h.out.value;
      var n := HeadApplied(d, h, placed);
      var off := d.screens[c := d.screens[c].(wants := false)];
      if d.screens[c].wants && !h.enabled {
        assert n.screens == d.screens[c := d.screens[c].(scene := false, inLayout := false, wants := false)];
        assert forall j :: 0 <= j < |off| ==> off[j].wants == n.screens[j].wants;
        if d.home[v] == Some(c) {
          var next := NextWanted(off, c);
          assert next.Some? ==> n.screens[next.value].wants;
        } else if d.home[v].Some? {
          assert n.screens[d.home[v].value].wants;
        }
      } else if d.home[v].Some? {
        assert n.screens[d.home[v].value].wants;
      }
    }
  }

  /** A view that has a home ends up on the placeholder exactly when, part way
      through the heads, no output at all is part of the desktop, and then it
      stays there whatever comes on later. Views of outputs that stay do not
      move, and none is lost. */
  lemma {:induction false} ViewsStrandedIff(d: Desktop, heads: seq<Head>, a: Answers, k: nat, v: nat)
    requires Settled(d) && WellFormed(heads, |d.screens|) && Answered(a, heads) && k <= |heads|
    requires v in d.home && d.home[v].Some?
    ensures var n := HeadsApplied(Readied(d, heads), heads, a, k);
            && n.home.Keys == d.home.Keys
            && (n.home[v].None? <==> exists j :: 0 <= j <= k && NoneWantedAfter(d.screens, heads, j))
            && ((forall j :: 0 <= j <= k ==> WantedAfter(d.screens, heads, j, d.home[v].value)) ==>
               n.home[v] == d.home[v])
  {
    hide Even, WellFormed, HeadsApplied, WantedAfter, NoneWantedAfter, Readied;
    if k == 0 {
      StrandStart(d, heads, a, v);
    } else {
      ViewsStrandedIff(d, heads, a, k - 1, v);
      StrandStep(d, heads, a, k, v);
    }
  }

  lemma StrandStart(d: Desktop, heads: seq<Head>, a: Answers, v: nat)
    requires Settled(d) && Answered(a, heads) && v in d.home && d.home[v].Some?
    ensures HeadsApplied(Readied(d, heads), heads, a, 0).home == d.home && !NoneWantedAfter(d.screens, heads, 0)
  {
    assert WantedAfter(d.screens, heads, 0, d.home[v].value);
  }

  lemma StrandStep(d: Desktop, heads: seq<Head>, a: Answers, k: nat, v: nat)
    requires Settled(d) && WellFormed(heads, |d.screens|) && Answered(a, heads) && 0 < k <= |heads|
    requires v in HeadsApplied(Readied(d, heads), heads, a, k - 1).home
    ensures var m, n := HeadsApplied(Readied(d, heads), heads, a, k - 1), HeadsApplied(Readied(d, heads), heads, a, k);
            && n.home.Keys == m.home.Keys
            && (m.home[v].None? ==> n.home[v].None?)
            && (m.home[v].Some? ==> (n.home[v].None? <==> NoneWantedAfter(d.screens, heads, k)))
            && (m.home[v].Some? && m.home[v].value < |d.screens| ==>
                  WantedAfter(d.screens, heads, k, m.home[v].value) ==> n.home[v] == m.home[v])
            && (NoneWantedAfter(d.screens, heads, k) ==> n.home[v].None?)
  {
    hide Carried, HeadApplied, HeadsApplied, WantedAfter, NoneWantedAfter, Readied, WellFormed, Even;
    CarriedAll(d, heads, a, k - 1);
    CarriedAll(d, heads, a, k);
    var m, n := HeadsApplied(Readied(d, heads), heads, a, k - 1), HeadsApplied(Readied(d, heads), heads, a, k);
    AppliedNext(Readied(d, heads), heads, a, k);
    CarriedSize(d.screens, m, heads, a, k - 1);
    CarriedSize(d.screens, n, heads, a, k);
    ViewStep(m, heads[k - 1], a.placed[k - 1], v);
    CarriedNone(d.screens, n, heads, a, k);
    if m.home[v].Some? && m.home[v].value < |d.screens| {
      CarriedWants(d.screens, n, heads, a, k, m.home[v].value);
    }
  }

  lemma AppliedNext(d: Desktop, heads: seq<Head>, a: Answers, k: nat)
    requires 0 < k <= |heads| && Answered(a, heads)
    ensures HeadsApplied(d, heads, a, k) == HeadApplied(HeadsApplied(d, heads, a, k - 1), heads[k - 1], a.placed[k - 1])
  {
  }

  /** One display on, with a window, and one off. */
  const ONE_ON := Desktop([Screen(true, true, true, 0, 0), Screen(false, false, false, 1920, 0)], map[7 := Some(0)])

  /** Switching from one display to the other in one request: told in the wrong
      order, the windows are left behind on the placeholder; in the other order
      they follow. */
  lemma SwapStrands(a: Answers)
    requires |a.layout| == |a.scene| == |a.placed| == 2
    requires a.permitted && a.built && a.prepared && a.committed
    requires a.layout[0] && a.layout[1] && a.scene[0] && a.scene[1]
    ensures var leave, join := Head(Some(0), false, 0, 0), Head(Some(1), true, 1920, 0);
            var n, m := After(ONE_ON, [leave, join], a, false), After(ONE_ON, [join, leave], a, false);
            && |n.screens| == 2 && n.screens[1].wants && 7 in n.home && n.home[7] == None
            && |m.screens| == 2 && m.screens[1].wants && 7 in m.home && m.home[7] == Some(1)
  {
    var leave, join := Head(Some(0), false, 0, 0), Head(Some(1), true, 1920, 0);
    hide HeadsApplied, HeadApplied, Readied;
    LeaveFirst(leave, join, a);
    JoinFirst(leave, join, a);
  }

  lemma LeaveFirst(leave: Head, join: Head, a: Answers)
    requires leave == Head(Some(0), false, 0, 0) && join == Head(Some(1), true, 1920, 0) &&
             |a.layout| == |a.scene| == |a.placed| == 2
    ensures var heads := [leave, join];
            var n := HeadsApplied(Readied(ONE_ON, heads), heads, a, 2);
            |n.screens| == 2 && n.screens[1].wants && 7 in n.home && n.home[7] == None
  {
    var heads := [leave, join];
    assert heads[1].out == Some(1) && heads[1].enabled;
    assert NamedOn(heads, 2, 1);
    var d := Readied(ONE_ON, heads);
    var s := HeadApplied(d, leave, a.placed[0]);
    assert s == HeadsApplied(d, heads, a, 1) by { assert HeadsApplied(d, heads, a, 0) == d; }
    assert s.home[7] == None;
  }

  lemma JoinFirst(leave: Head, join: Head, a: Answers)
    requires leave == Head(Some(0), false, 0, 0) && join == Head(Some(1), true, 1920, 0) &&
             |a.layout| == |a.scene| == |a.placed| == 2
    ensures var heads := [join, leave];
            var n := HeadsApplied(Readied(ONE_ON, heads), heads, a, 2);
            |n.screens| == 2 && n.screens[1].wants && 7 in n.home && n.home[7] == Some(1)
  {
    var heads := [join, leave];
    assert heads[0].out == Some(1) && heads[0].enabled;
    assert NamedOn(heads, 2, 1);
    var d := Readied(ONE_ON, heads);
    var s := HeadApplied(d, join, a.placed[0]);
    assert s == HeadsApplied(d, heads, a, 1) by { assert HeadsApplied(d, heads, a, 0) == d; }
    assert s.screens[1].wants && s.screens[0].wants && s.home[7] == Some(0);
    assert NextWanted(s.screens[0 := s.screens[0].(wants := false)], 0) == Some(1);
  }

  // --------------------------------------------------------- the compositor

  class Output {
    var scene: bool
    var inLayout: bool
    var wants: bool
    var x: int
    var y: int

    function AsScreen(): Screen
      reads this
    {
      Screen(scene, inLayout, wants, x, y)
    }

    /** hikari_output_attach: back where it was, or not at all. */
    method Attach(layoutOk: bool, sceneOk: bool) returns (ok: bool)
      modifies this`scene, this`inLayout
      ensures ok == (old(scene) || (layoutOk && sceneOk))
      ensures old(scene) ==> AsScreen() == old(AsScreen())
      ensures !old(scene) && ok ==> AsScreen() == Lit(old(AsScreen()))
      ensures !ok ==> AsScreen() == if layoutOk then old(AsScreen()).(inLayout := false) else old(AsScreen())
    {
      if scene {
        return true;
      }
      if !layoutOk {
        return false;
      }
      inLayout := true;
      if !sceneOk {
        inLayout := false;
        return false;
      }
      scene := true;
      return true;
    }

    method Detach()
      modifies this`scene, this`inLayout
      ensures AsScreen() == old(AsScreen()).(scene := false, inLayout := false)
    {
      scene := false;
      inLayout := false;
    }
  }

  /** While rolling back, the first `i` heads' newcomers are off again. */
  ghost predicate RollingBack(now: seq<Screen>, before: seq<Screen>, heads: seq<Head>, attached: nat, i: nat) {
    i <= attached <= |heads| && |now| == |before| &&
    forall j :: 0 <= j < |before| ==>
      now[j] == if !before[j].wants && NamedOn(heads, attached, j) && !NamedOn(heads, i, j) then Lit(before[j])
                else before[j]
  }

  lemma RollStart(before: seq<Screen>, heads: seq<Head>, attached: nat)
    requires attached <= |heads|
    ensures RollingBack(AttachedUpTo(before, heads, attached), before, heads, attached, 0)
  {
  }

  lemma RollStep(now: seq<Screen>, before: seq<Screen>, heads: seq<Head>, attached: nat, i: nat)
    requires RollingBack(now, before, heads, attached, i) && i < attached && Even(before) && WellFormed(heads, |before|)
    ensures var h := heads[i];
            RollingBack(if Needs(now, h) then now[h.out.value := now[h.out.value].(scene := false, inLayout := false)]
                        else now,
                        before, heads, attached, i + 1)
  {
  }

  lemma RollEnd(now: seq<Screen>, before: seq<Screen>, heads: seq<Head>, attached: nat)
    requires RollingBack(now, before, heads, attached, attached)
    ensures now == before
  {
  }

  lemma AttachStep(before: seq<Screen>, heads: seq<Head>, k: nat)
    requires k < |heads| && Even(before) && WellFormed(heads, |before|)
    ensures var now, h := AttachedUpTo(before, heads, k), heads[k];
            && (Needs(now, h) <==> Needs(before, h))
            && (Needs(now, h) ==> !now[h.out.value].scene && now[h.out.value].inLayout == now[h.out.value].scene)
            && AttachedUpTo(before, heads, k + 1) ==
               if Needs(now, h) then now[h.out.value := Lit(now[h.out.value])] else now
  {
    var now, h := AttachedUpTo(before, heads, k), heads[k];
    if Needs(now, h) {
      var c := h.out.value;
      assert !NamedOn(heads, k, c);
      assert heads[k].out == Some(c);
    }
  }

  class Server {
    const outputs: seq<Output>
    var home: map<nat, Option<nat>>

    ghost predicate Valid() {
      forall i, j :: 0 <= i < j < |outputs| ==> outputs[i] != outputs[j]
    }

    ghost function Screens(): (ss: seq<Screen>)
      reads outputs
      ensures |ss| == |outputs|
      ensures forall i :: 0 <= i < |ss| ==> ss[i] == outputs[i].AsScreen()
    {
      seq(|outputs|, i requires 0 <= i < |outputs| reads outputs => outputs[i].AsScreen())
    }

    ghost function AsDesktop(): Desktop
      reads this, outputs
    {
      Desktop(Screens(), home)
    }

    /** hikari_output_next: once around the ring, over the list head, to the
        first output that is part of the desktop; else back where it began. */
    method NextOutput(i: nat) returns (r: nat)
      requires i < |outputs|
      ensures r == if NextWanted(Screens(), i).Some? then NextWanted(Screens(), i).value else i
    {
      var n := |outputs|;
      var next, wrapped := i + 1, false;
      ghost var ss := Screens();
      while next != i
        invariant 0 <= next <= n
        invariant !wrapped ==> i < next && FirstWanted(ss, i + 1, n) == FirstWanted(ss, next, n)
        invariant wrapped ==> next <= i && FirstWanted(ss, i + 1, n).None?
        invariant wrapped ==> FirstWanted(ss, 0, i) == FirstWanted(ss, next, i)
        decreases if wrapped then i - next else n + 1 + n - next
      {
        if next == n {
          next, wrapped := 0, true;
          continue;
        }
        if outputs[next].wants {
          return next;
        }
        next := next + 1;
      }
      return i;
    }

    /** evacuate_output: to the next output, or to the placeholder. */
    method Evacuate(i: nat)
      requires i < |outputs|
      modifies this`home
      ensures home == Evacuated(old(home), i, NextWanted(Screens(), i))
    {
      hide NextWanted;
      var next := NextOutput(i);
      assert NextWanted(Screens(), i).Some? ==> NextWanted(Screens(), i).value != i;
      var target := if next != i then Some(next) else None;
      home := map v | v in home :: if home[v] == Some(i) then target else home[v];
    }

    /** Out of the desktop first, so that the views are not sent back here. */
    method TurnOff(i: nat)
      requires Valid() && i < |outputs| && outputs[i].wants
      modifies this`home, outputs
      ensures AsDesktop() == WantsSet(old(AsDesktop()), i, false)
    {
      hide NextWanted, Evacuated;
      ghost var before := Screens();
      outputs[i].wants := false;
      assert Screens() == before[i := before[i].(wants := false)];
      ghost var mid := Screens();
      Evacuate(i);
      assert Screens() == mid;
      assert home == Evacuated(old(home), i, NextWanted(before[i := before[i].(wants := false)], i));
      outputs[i].Detach();
      assert Screens() == before[i := before[i].(scene := false, inLayout := false, wants := false)];
    }

    /** hikari_output_set_wants_enabled. */
    method SetWantsEnabled(i: nat, on: bool)
      requires Valid() && i < |outputs| && (on && !outputs[i].wants ==> outputs[i].scene && outputs[i].inLayout)
      modifies this`home, outputs
      ensures AsDesktop() == WantsSet(old(AsDesktop()), i, on)
    {
      hide NextWanted, Evacuated;
      ghost var before := Screens();
      if outputs[i].wants == on {
        return;
      }
      if !on {
        TurnOff(i);
        return;
      }
      var ok := outputs[i].Attach(true, true);
      if !ok {
        return;
      }
      outputs[i].wants := true;
      assert Screens() == before[i := Lit(before[i]).(wants := true)];
    }

    method AttachNewcomers(heads: seq<Head>, a: Answers) returns (attached: nat, ok: bool)
      requires Valid() && Even(Screens()) && WellFormed(heads, |outputs|) && Answered(a, heads)
      modifies outputs
      ensures attached <= |heads| && Screens() == AttachedUpTo(old(Screens()), heads, attached)
      ensures ok ==> attached == |heads|
      ensures ok <==> !AttachRefused(old(Screens()), heads, a)
    {
      hide Even, WellFormed, AttachedUpTo;
      ghost var before := Screens();
      attached := 0;
      NothingAttached(before, heads);
      while attached < |heads|
        invariant attached <= |heads| && Screens() == AttachedUpTo(before, heads, attached)
        invariant forall k :: 0 <= k < attached ==> !(Needs(before, heads[k]) && !(a.layout[k] && a.scene[k]))
      {
        var h := heads[attached];
        ghost var now := Screens();
        AttachStep(before, heads, attached);
        if h.out.Some? && h.out.value < |outputs| && h.enabled && !outputs[h.out.value].wants {
          var output := outputs[h.out.value];
          var fine := output.Attach(a.layout[attached], a.scene[attached]);
          if !fine {
            assert Screens() == now;
            assert Needs(before, heads[attached]) && !(a.layout[attached] && a.scene[attached]);
            return attached, false;
          }
          assert Screens() == now[h.out.value := Lit(now[h.out.value])];
        }
        attached := attached + 1;
      }
      ok := true;
    }

    /** Takes back the layout and scene halves, and nothing else. */
    method Rollback(heads: seq<Head>, attached: nat, ghost before: seq<Screen>)
      requires Valid() && attached <= |heads| && |before| == |outputs| && Even(before) && WellFormed(heads, |outputs|)
      requires Screens() == AttachedUpTo(before, heads, attached)
      modifies outputs
      ensures Screens() == before
    {
      hide Even, WellFormed, RollingBack, AttachedUpTo;
      RollStart(before, heads, attached);
      for i := 0 to attached
        invariant RollingBack(Screens(), before, heads, attached, i)
      {
        var h := heads[i];
        ghost var now := Screens();
        RollStep(now, before, heads, attached, i);
        if h.out.Some? && h.out.value < |outputs| && h.enabled && !outputs[h.out.value].wants {
          outputs[h.out.value].Detach();
          assert Screens() == now[h.out.value := now[h.out.value].(scene := false, inLayout := false)];
        }
      }
      RollEnd(Screens(), before, heads, attached);
    }

    /** Carries one head through; false when its place was asked for in vain. */
    method CarryHead(h: Head, placed: bool) returns (fine: bool)
      requires Valid()
      requires h.out.Some? && h.out.value < |outputs| && h.enabled && !outputs[h.out.value].wants ==>
                 outputs[h.out.value].scene && outputs[h.out.value].inLayout
      modifies this`home, outputs
      ensures AsDesktop() == HeadApplied(old(AsDesktop()), h, placed)
      ensures fine <==> !Misplaced(old(Screens()), h, placed)
    {
      hide WantsSet;
      fine := true;
      ghost var d := AsDesktop();
      var listed := h.out.Some? && h.out.value < |outputs|;
      if listed {
        WantsSetKeepsPlaces(d, h.out.value, h.enabled);
        SetWantsEnabled(h.out.value, h.enabled);
      }
      if !h.enabled {
        return;
      }
      ghost var e := AsDesktop();
      if listed && outputs[h.out.value].x == h.x && outputs[h.out.value].y == h.y {
        assert Positioned(e, h, placed).screens == e.screens;
        return;
      }
      if !placed {
        return false;
      }
      if listed {
        outputs[h.out.value].x, outputs[h.out.value].y := h.x, h.y;
        assert AsDesktop().screens == Positioned(e, h, placed).screens;
      }
    }

    /** configuration_apply for a client that may change things. */
    method ConfigurationApply(heads: seq<Head>, a: Answers, testOnly: bool) returns (success: bool)
      requires Valid() && Settled(AsDesktop()) && WellFormed(heads, |outputs|) && Answered(a, heads) && a.permitted
      modifies this`home, outputs
      ensures AsDesktop() == After(old(AsDesktop()), heads, a, testOnly)
      ensures success <==> TookEffect(old(Screens()), heads, a, testOnly)
      ensures Stays(old(Screens()), heads, a, testOnly) ==> AsDesktop() == old(AsDesktop())
    {
      JudgedBy(AsDesktop(), heads, a, testOnly);
      hide Stays, TookEffect;
      hide Even, Housed, WellFormed, AttachedUpTo, HeadsApplied, HeadApplied, AttachRefused, Misplaced;
      ghost var d := AsDesktop();
      if !a.built && heads != [] {
        return false;
      }
      success := a.prepared;
      if !success || testOnly {
        return;
      }
      var attached;
      attached, success := AttachNewcomers(heads, a);
      if !success {
        Rollback(heads, attached, d.screens);
        return;
      }
      success := a.committed;
      if !success {
        Rollback(heads, attached, d.screens);
        return;
      }
      assert AsDesktop() == Readied(d, heads);
      success := CarryAll(heads, a, d);
    }

    method CarryAll(heads: seq<Head>, a: Answers, ghost d: Desktop) returns (success: bool)
      requires Valid() && Settled(d) && |d.screens| == |outputs| && WellFormed(heads, |outputs|) && Answered(a, heads)
      requires AsDesktop() == Readied(d, heads)
      modifies this`home, outputs
      ensures AsDesktop() == HeadsApplied(Readied(d, heads), heads, a, |heads|)
      ensures success <==> forall k :: 0 <= k < |heads| ==> !Misplaced(d.screens, heads[k], a.placed[k])
    {
      hide Even, Housed, WellFormed, Readied, HeadApplied, Carried, Misplaced;
      success := true;
      for k := 0 to |heads|
        invariant AsDesktop() == HeadsApplied(Readied(d, heads), heads, a, k)
        invariant success <==> forall j :: 0 <= j < k ==> !Misplaced(d.screens, heads[j], a.placed[j])
      {
        CarriedAll(d, heads, a, k);
        NextIsReady(d.screens, AsDesktop(), heads, a, k);
        var fine := CarryHead(heads[k], a.placed[k]);
        success := success && fine;
      }
    }

    /** handle_request: whatever happens, the client is answered exactly once. */
    method HandleRequest(heads: seq<Head>, a: Answers, testOnly: bool) returns (replies: seq<bool>)
      requires Valid() && Settled(AsDesktop()) && WellFormed(heads, |outputs|) && Answered(a, heads)
      modifies this`home, outputs
      ensures AsDesktop() == After(old(AsDesktop()), heads, a, testOnly) && Settled(AsDesktop())
      ensures Stays(old(Screens()), heads, a, testOnly) ==> AsDesktop() == old(AsDesktop())
      ensures replies == [TookEffect(old(Screens()), heads, a, testOnly)]
    {
      JudgedBy(AsDesktop(), heads, a, testOnly);
      Forbidden(Screens(), heads, a, testOnly);
      hide Stays, TookEffect;
      RequestKeepsSettled(AsDesktop(), heads, a, testOnly);
      hide Settled, WellFormed, AttachedUpTo, HeadsApplied, AttachRefused, Misplaced;
      replies := [];
      var success := false;
      if a.permitted {
        success := ConfigurationApply(heads, a, testOnly);
      }
      if success {
        replies := replies + [true];
      } else {
        replies := replies + [false];
      }
    }
  }

  lemma Forbidden(ss: seq<Screen>, heads: seq<Head>, a: Answers, testOnly: bool)
    requires Answered(a, heads)
    ensures !a.permitted ==> Stays(ss, heads, a, testOnly) && !TookEffect(ss, heads, a, testOnly)
  {
  }

  lemma WantsSetKeepsPlaces(d: Desktop, i: nat, on: bool)
    requires i < |d.screens|
    ensures var n := WantsSet(d, i, on);
            |n.screens| == |d.screens| && n.screens[i].x == d.screens[i].x && n.screens[i].y == d.screens[i].y
  {
  }

  /** The next head finds its own output as the attach left it, at its old place. */
  lemma NextIsReady(before: seq<Screen>, d: Desktop, heads: seq<Head>, a: Answers, k: nat)
    requires k < |heads| && Answered(a, heads) && WellFormed(heads, |before|) && Even(before) &&
             Carried(before, d, heads, a, k)
    ensures |d.screens| == |before|
    ensures var h := heads[k];
            && (Misplaced(d.screens, h, a.placed[k]) <==> Misplaced(before, h, a.placed[k]))
            && (h.out.Some? && h.enabled && h.out.value < |before| && !d.screens[h.out.value].wants ==>
                  d.screens[h.out.value].scene && d.screens[h.out.value].inLayout)
  {
    var h := heads[k];
    if h.out.Some? {
      assert CarriedAt(before, d.screens[h.out.value], heads, a, k, h.out.value);
      assert h.enabled ==> NamedOn(heads, |heads|, h.out.value);
    }
  }

  lemma NothingAttached(before: seq<Screen>, heads: seq<Head>)
    ensures AttachedUpTo(before, heads, 0) == before
  {
  }
}