/**
  What a layout table means: the elements src/configuration.c accepts, over a
  Lua value graph in which tables may be shared or cyclic and have no key
  order. `Parse` is the parser's verdict with its depth bound; `Denotes` says,
  without any bound and without any procedure, which finite layout a value
  spells.
 */
module LayoutSyntax {
  import opened Options

  /** A double: exact, but for the one value that compares with nothing. */
  datatype Double = Finite(value: real) | NotANumber

  /** A Lua value as the reader meets it. Both number subtypes are doubles;
      booleans, functions and the rest only matter for not being the others. */
  datatype Value = Nil | Text(text: string) | Number(num: Double) | Table(id: nat) | Foreign

  /** The tables of a configuration by identity. */
  type Graph = map<nat, map<Value, Value>>

  const DEPTH_MAX: nat := 64
  const SCALE_MIN: real := 0.1
  const SCALE_MAX: real := 0.9
  const SCALE_DEFAULT: real := 0.5

  datatype Func = Queue | Stack | Full | Grid | Single | Empty

  datatype Axis = Vertical | Horizontal

  datatype Scale = Fixed(value: Double) | Dynamic(min: Double, max: Double)

  datatype Layout =
    | Container(max: int, func: Func)
    | Split(axis: Axis, firstLeads: bool, scale: Scale, first: Layout, second: Layout)

  function FirstKey(axis: Axis): string { if axis == Vertical then "left" else "top" }

  function SecondKey(axis: Axis): string { if axis == Vertical then "right" else "bottom" }

  /** hikari_config_string refuses a string with an embedded zero. */
  predicate PlainText(v: Value) { v.Text? && '\0' !in v.text }

  // ------------------------------------------------------------ containers

  function FuncNamed(name: string): Option<Func> {
    if name == "queue" then Some(Queue)
    else if name == "stack" then Some(Stack)
    else if name == "full" then Some(Full)
    else if name == "grid" then Some(Grid)
    else if name == "single" then Some(Single)
    else if name == "empty" then Some(Empty)
    else None
  }

  /** "single" and "empty" fix their own number of views. */
  predicate FixesViews(f: Func) { f == Single || f == Empty }

  function DefaultViews(f: Func): int { if f == Single then 1 else if f == Empty then 0 else 256 }

  function NamedFunc(v: Value): Option<Func> {
    if PlainText(v) then FuncNamed(v.text) else None
  }

  /** A view count between 2 and 256; an integral float will do. */
  function Views(v: Value): Option<int> {
    if v.Number? && v.num.Finite? && v.num.value.Floor as real == v.num.value && 2 <= v.num.value.Floor <= 256
    then Some(v.num.value.Floor) else None
  }

  function At(t: map<Value, Value>, key: string): Value {
    if Text(key) in t then t[Text(key)] else Nil
  }

  predicate Has(t: map<Value, Value>, key: string) { At(t, key) != Nil }

  predicate OnlyKeys(t: map<Value, Value>, keys: set<string>) {
    forall k :: k in t ==> k.Text? && k.text in keys
  }

  function ParseContainer(t: map<Value, Value>): Option<Layout> {
    var f := NamedFunc(At(t, "layout"));
    if !OnlyKeys(t, {"layout", "views"}) || f.None? then None
    else if !Has(t, "views") then Some(Container(DefaultViews(f.value), f.value))
    else if FixesViews(f.value) || Views(At(t, "views")).None? then None
    else Some(Container(Views(At(t, "views")).value, f.value))
  }

  // ---------------------------------------------------------------- scales

  predicate Below(d: Double, bound: real) { d.Finite? && d.value < bound }

  predicate Above(d: Double, bound: real) { d.Finite? && d.value > bound }

  /** The check asks whether a number is out of range, which NaN never is. */
  function ScaleValue(v: Value): Option<Double> {
    if v.Number? && !Below(v.num, SCALE_MIN) && !Above(v.num, SCALE_MAX) then Some(v.num) else None
  }

  /** A missing bound takes the default; anything else has to pass the check. */
  function Bound(v: Value, default: real): Option<Double> {
    if v == Nil then Some(Finite(default)) else ScaleValue(v)
  }

  function TableOf(g: Graph, v: Value): map<Value, Value> {
    if v.Table? && v.id in g then g[v.id] else map[]
  }

  function ParseScale(g: Graph, v: Value): Option<Scale> {
    match v
    case Nil => Some(Fixed(Finite(SCALE_DEFAULT)))
    case Number(_) => if ScaleValue(v).Some? then Some(Fixed(ScaleValue(v).value)) else None
    case Table(_) =>
      var lo, hi := Bound(At(TableOf(g, v), "min"), SCALE_MIN), Bound(At(TableOf(g, v), "max"), SCALE_MAX);
      if lo.Some? && hi.Some? then Some(Dynamic(lo.value, hi.value)) else None
    case _ => None
  }

  /** Which half is laid out first; the first one unless said otherwise. */
  function ParseOrientation(v: Value, axis: Axis): Option<bool> {
    if v == Nil then Some(true)
    else if !PlainText(v) then None
    else if v.text == FirstKey(axis) then Some(true)
    else if v.text == SecondKey(axis) then Some(false)
    else None
  }

  // -------------------------------------------------------------- elements

  datatype Kind = AContainer | ASplit(axis: Axis) | NoElement

  /** Exactly one of "layout", "left" and "right", "top" and "bottom". */
  function KindOf(t: map<Value, Value>): Kind {
    var left, right, top, bottom, layout := Has(t, "left"), Has(t, "right"), Has(t, "top"),
      Has(t, "bottom"), Has(t, "layout");
    if left && right && !top && !bottom && !layout then ASplit(Vertical)
    else if top && bottom && !left && !right && !layout then ASplit(Horizontal)
    else if layout && !left && !right && !top && !bottom then AContainer
    else NoElement
  }

  function SplitKeys(axis: Axis): set<string> { {"scale", "orientation", FirstKey(axis), SecondKey(axis)} }

  /** The parser's verdict on element `v` at nesting depth `depth`. */
  function Parse(g: Graph, v: Value, depth: nat): Option<Layout>
    decreases DEPTH_MAX + 1 - depth, 1
  {
    if depth > DEPTH_MAX then None
    else
      match v
      case Text(_) =>
        var f := NamedFunc(v);
        if f.None? then None else Some(Container(DefaultViews(f.value), f.value))
      case Table(_) =>
        (match KindOf(TableOf(g, v))
         case AContainer => ParseContainer(TableOf(g, v))
         case ASplit(axis) => ParsePair(g, TableOf(g, v), axis, depth)
         case NoElement => None)
      case _ => None
  }

  function ParsePair(g: Graph, t: map<Value, Value>, axis: Axis, depth: nat): Option<Layout>
    requires depth <= DEPTH_MAX
    decreases DEPTH_MAX + 1 - depth, 0
  {
    if !OnlyKeys(t, SplitKeys(axis)) then None
    else
      var scale := ParseScale(g, At(t, "scale"));
      var leads := ParseOrientation(At(t, "orientation"), axis);
      var first := Parse(g, At(t, FirstKey(axis)), depth + 1);
      var second := Parse(g, At(t, SecondKey(axis)), depth + 1);
      if scale.Some? && leads.Some? && first.Some? && second.Some?
      then Some(Split(axis, leads.value, scale.value, first.value, second.value))
      else None
  }

  // ------------------------------------------------- what a value spells

  /** `v` spells the finite layout `l`: no procedure, no bound, any graph. */
  predicate Denotes(g: Graph, v: Value, l: Layout)
    decreases l
  {
    match l
    case Container(max, func) =>
      || (NamedFunc(v) == Some(func) && max == DefaultViews(func))
      || (v.Table? && KindOf(TableOf(g, v)) == AContainer && ParseContainer(TableOf(g, v)) == Some(l))
    case Split(axis, leads, scale, first, second) =>
      && v.Table?
      && var t := TableOf(g, v);
      && KindOf(t) == ASplit(axis) && OnlyKeys(t, SplitKeys(axis))
      && ParseScale(g, At(t, "scale")) == Some(scale)
      && ParseOrientation(At(t, "orientation"), axis) == Some(leads)
      && Denotes(g, At(t, FirstKey(axis)), first)
      && Denotes(g, At(t, SecondKey(axis)), second)
  }

  function Max(a: nat, b: nat): nat { if a > b then a else b }

  /** How deep below its root a layout's deepest element lies. */
  function Height(l: Layout): nat {
    match l
    case Container(_, _) => 0
    case Split(_, _, _, first, second) => 1 + Max(Height(first), Height(second))
  }

  /** The parser succeeds exactly when the value spells a layout no element of
      which lies deeper than level 64, and then returns that layout. Tables may
      be shared or cyclic; nothing is assumed about the graph. */
  lemma {:induction false} ParseIff(g: Graph, v: Value, depth: nat, l: Layout)
    ensures Parse(g, v, depth) == Some(l) <==> Denotes(g, v, l) && depth + Height(l) <= DEPTH_MAX
    decreases l
  {
    hide Parse, Denotes, Height, KindOf, ParsePair, At, TableOf, FirstKey, SecondKey;
    if depth > DEPTH_MAX {
      TooDeep(g, v, depth);
    } else if l.Container? {
      LeafIff(g, v, depth, l);
    } else {
      var t, axis := TableOf(g, v), l.axis;
      ParseIff(g, At(t, FirstKey(axis)), depth + 1, l.first);
      ParseIff(g, At(t, SecondKey(axis)), depth + 1, l.second);
      if v.Table? && KindOf(t) == ASplit(axis) {
        ParseSplitTable(g, v, depth, axis);
        PairIff(g, v, depth, l);
      } else {
        NoSplit(g, v, depth, l);
      }
    }
  }

  lemma TooDeep(g: Graph, v: Value, depth: nat)
    requires depth > DEPTH_MAX
    ensures Parse(g, v, depth) == None
  {
  }

  lemma LeafIff(g: Graph, v: Value, depth: nat, l: Layout)
    requires depth <= DEPTH_MAX && l.Container?
    ensures (Parse(g, v, depth) == Some(l) <==> Denotes(g, v, l)) && Height(l) == 0
  {
    hide KindOf, ParseContainer, ParseScale, ParseOrientation, OnlyKeys, NamedFunc, DefaultViews, ParsePair;
    ContainerIsLeaf(TableOf(g, v));
    NamesAreText(v);
    if v.Table? && KindOf(TableOf(g, v)).ASplit? {
      PairIsSplit(g, TableOf(g, v), KindOf(TableOf(g, v)).axis, depth);
    }
  }

  lemma NamesAreText(v: Value)
    ensures NamedFunc(v).Some? ==> v.Text?
  {
  }

  lemma PairIsSplit(g: Graph, t: map<Value, Value>, axis: Axis, depth: nat)
    requires depth <= DEPTH_MAX
    ensures ParsePair(g, t, axis, depth).Some? ==> ParsePair(g, t, axis, depth).value.Split?
  {
    hide Parse, ParseScale, ParseOrientation, SplitKeys, OnlyKeys;
  }

  lemma ParseSplitTable(g: Graph, v: Value, depth: nat, axis: Axis)
    requires depth <= DEPTH_MAX && v.Table? && KindOf(TableOf(g, v)) == ASplit(axis)
    ensures Parse(g, v, depth) == ParsePair(g, TableOf(g, v), axis, depth)
  {
    hide KindOf, ParsePair, ParseContainer, NamedFunc;
  }

  /** One level of the equivalence, given it for the two halves. */
  lemma PairIff(g: Graph, v: Value, depth: nat, l: Layout)
    requires depth <= DEPTH_MAX && l.Split? && v.Table? && KindOf(TableOf(g, v)) == ASplit(l.axis)
    requires var w := At(TableOf(g, v), FirstKey(l.axis));
             Parse(g, w, depth + 1) == Some(l.first) <==>
               Denotes(g, w, l.first) && depth + 1 + Height(l.first) <= DEPTH_MAX
    requires var w := At(TableOf(g, v), SecondKey(l.axis));
             Parse(g, w, depth + 1) == Some(l.second) <==>
               Denotes(g, w, l.second) && depth + 1 + Height(l.second) <= DEPTH_MAX
    ensures ParsePair(g, TableOf(g, v), l.axis, depth) == Some(l) <==>
            Denotes(g, v, l) && depth + Height(l) <= DEPTH_MAX
  {
    hide Parse, ParseScale, ParseOrientation, SplitKeys, OnlyKeys, KindOf, At, TableOf;
  }

  lemma NoSplit(g: Graph, v: Value, depth: nat, l: Layout)
    requires depth <= DEPTH_MAX && l.Split? && !(v.Table? && KindOf(TableOf(g, v)) == ASplit(l.axis))
    ensures Parse(g, v, depth) != Some(l) && !Denotes(g, v, l)
  {
    ContainerIsLeaf(TableOf(g, v));
    hide KindOf, ParseContainer, ParseScale, ParseOrientation, OnlyKeys, NamedFunc;
  }

  lemma ContainerIsLeaf(t: map<Value, Value>)
    ensures ParseContainer(t).Some? ==> ParseContainer(t).value.Container?
  {
  }

  /** A value spells at most one layout. */
  lemma {:induction false} DenotesOne(g: Graph, v: Value, a: Layout, b: Layout)
    requires Denotes(g, v, a) && Denotes(g, v, b)
    ensures a == b
    decreases a
  {
    if a.Container? || b.Container? {
    } else {
      var t := TableOf(g, v);
      DenotesOne(g, At(t, FirstKey(a.axis)), a.first, b.first);
      DenotesOne(g, At(t, SecondKey(a.axis)), a.second, b.second);
    }
  }

  // ------------------------------------------------------- scales in range

  predicate InRange(d: Double) { d.Finite? && SCALE_MIN <= d.value <= SCALE_MAX }

  predicate SoundScale(scale: Scale) {
    match scale
    case Fixed(value) => InRange(value)
    case Dynamic(min, max) => InRange(min) && InRange(max)
  }

  /** What laying out relies on: every scale lies between 0.1 and 0.9. */
  predicate Sound(l: Layout) {
    match l
    case Container(_, _) => true
    case Split(_, _, scale, first, second) => SoundScale(scale) && Sound(first) && Sound(second)
  }

  predicate PlainScale(g: Graph, v: Value) {
    match v
    case Number(num) => num.Finite?
    case Table(_) =>
      var t := TableOf(g, v);
      At(t, "min") != Number(NotANumber) && At(t, "max") != Number(NotANumber)
    case _ => true
  }

  /** No scale read on the way, nor a bound of one, is NaN. */
  predicate ReadsNoNaN(g: Graph, v: Value, depth: nat)
    decreases DEPTH_MAX + 1 - depth
  {
    depth <= DEPTH_MAX && v.Table? && KindOf(TableOf(g, v)).ASplit? ==>
      var t, axis := TableOf(g, v), KindOf(TableOf(g, v)).axis;
      && PlainScale(g, At(t, "scale"))
      && ReadsNoNaN(g, At(t, FirstKey(axis)), depth + 1)
      && ReadsNoNaN(g, At(t, SecondKey(axis)), depth + 1)
  }

  lemma ScaleInRangeIff(g: Graph, v: Value)
    requires ParseScale(g, v).Some?
    ensures SoundScale(ParseScale(g, v).value) <==> PlainScale(g, v)
  {
  }

  /** The range check keeps its promise for a layout exactly when the
      configuration spells none of its scales as NaN. */
  lemma {:induction false} ScalesInRangeIff(g: Graph, v: Value, depth: nat)
    requires Parse(g, v, depth).Some?
    ensures Sound(Parse(g, v, depth).value) <==> ReadsNoNaN(g, v, depth)
    decreases DEPTH_MAX + 1 - depth
  {
    if v.Table? && KindOf(TableOf(g, v)).ASplit? {
      var t, axis := TableOf(g, v), KindOf(TableOf(g, v)).axis;
      ParseSplitTable(g, v, depth, axis);
      ScaleInRangeIff(g, At(t, "scale"));
      ScalesInRangeIff(g, At(t, FirstKey(axis)), depth + 1);
      ScalesInRangeIff(g, At(t, SecondKey(axis)), depth + 1);
      hide Parse, ParseScale, ParseOrientation, KindOf, OnlyKeys, At, TableOf, SoundScale, PlainScale;
    } else {
      ContainerIsLeaf(TableOf(g, v));
    }
  }

  /** A division of zero by zero for a scale is taken as it is. */
  lemma NaNPasses()
    ensures var full := Text("full");
            var g := map[0 := map[Text("left") := full, Text("right") := full, Text("scale") := Number(NotANumber)]];
            var half := Container(256, Full);
            Parse(g, Table(0), 0) == Some(Split(Vertical, true, Fixed(NotANumber), half, half))
  {
    var full := Text("full");
    var t := map[Text("left") := full, Text("right") := full, Text("scale") := Number(NotANumber)];
    var g := map[0 := t];
    assert At(t, "left") == full && At(t, "right") == full && At(t, "scale") == Number(NotANumber);
    assert At(t, "top") == At(t, "bottom") == At(t, "layout") == At(t, "orientation") == Nil;
    assert KindOf(t) == ASplit(Vertical) && OnlyKeys(t, SplitKeys(Vertical));
    assert Parse(g, full, 1) == Some(Container(256, Full));
    ParseSplitTable(g, Table(0), 0, Vertical);
  }

  // ----------------------------------------------------------------- cycles

  /** `w` is one of the two halves of the split table `v`. */
  predicate IsHalf(g: Graph, v: Value, w: Value) {
    v.Table? && KindOf(TableOf(g, v)).ASplit? &&
    var t, axis := TableOf(g, v), KindOf(TableOf(g, v)).axis;
    w == At(t, FirstKey(axis)) || w == At(t, SecondKey(axis))
  }

  predicate IsPath(g: Graph, path: seq<Value>) {
    path != [] && forall i :: 0 <= i < |path| - 1 ==> IsHalf(g, path[i], path[i + 1])
  }

  /** Descending along halves descends in the layout. */
  lemma {:induction false} PathDescends(g: Graph, path: seq<Value>, l: Layout) returns (m: Layout)
    requires IsPath(g, path) && Denotes(g, path[0], l)
    ensures Denotes(g, path[|path| - 1], m) && Height(m) + |path| - 1 <= Height(l)
    decreases |path|
  {
    if |path| == 1 {
      m := l;
    } else {
      assert IsHalf(g, path[0], path[1]);
      var t := TableOf(g, path[0]);
      var half := if path[1] == At(t, FirstKey(KindOf(t).axis)) then l.first else l.second;
      forall i | 0 <= i < |path[1..]| - 1
        ensures IsHalf(g, path[1..][i], path[1..][i + 1])
      {
        assert IsHalf(g, path[i + 1], path[i + 1 + 1]);
      }
      m := PathDescends(g, path[1..], half);
    }
  }

  /** A table that contains itself spells nothing, and the parser refuses it. */
  lemma CyclesAreRefused(g: Graph, path: seq<Value>, depth: nat)
    requires IsPath(g, path) && |path| > 1 && path[0] == path[|path| - 1]
    ensures Parse(g, path[0], depth).None? && forall l :: !Denotes(g, path[0], l)
  {
    forall l
      ensures !Denotes(g, path[0], l)
    {
      if Denotes(g, path[0], l) {
        var m := PathDescends(g, path, l);
        DenotesOne(g, path[0], l, m);
      }
    }
    if Parse(g, path[0], depth).Some? {
      ParseIff(g, path[0], depth, Parse(g, path[0], depth).value);
    }
  }

  // ---------------------------------------------------- tables without order

  /** The entries of a table as lua_next happens to walk them. */
  type Entries = seq<(Value, Value)>

  /** A raw Lua table: no key twice, no nil key, no nil value. */
  ghost predicate IsTable(es: Entries) {
    && (forall i, j :: 0 <= i < j < |es| ==> es[i].0 != es[j].0)
    && (forall i :: 0 <= i < |es| ==> es[i].0 != Nil && es[i].1 != Nil)
  }

  function AsMap(es: Entries): map<Value, Value> {
    if es == [] then map[] else AsMap(es[..|es| - 1])[es[|es| - 1].0 := es[|es| - 1].1]
  }

  lemma {:induction false} AsMapAt(es: Entries, i: nat)
    requires IsTable(es) && i < |es|
    ensures es[i].0 in AsMap(es) && AsMap(es)[es[i].0] == es[i].1
    decreases |es|
  {
    var n := |es| - 1;
    if i == n {
    } else {
      assert es[..n][i] == es[i] && es[i].0 != es[n].0;
      AsMapAt(es[..n], i);
    }
  }

  lemma {:induction false} EntryOf(es: Entries, k: Value) returns (i: nat)
    requires k in AsMap(es)
    ensures i < |es| && es[i] == (k, AsMap(es)[k])
    decreases |es|
  {
    var n := |es| - 1;
    if k == es[n].0 {
      i := n;
    } else {
      i := EntryOf(es[..n], k);
    }
  }

  lemma AsMapHolds(es: Entries)
    requires IsTable(es)
    ensures forall i :: 0 <= i < |es| ==> es[i].0 in AsMap(es) && AsMap(es)[es[i].0] == es[i].1
    ensures forall k :: k in AsMap(es) ==> exists i :: 0 <= i < |es| && es[i] == (k, AsMap(es)[k])
  {
    hide AsMap;
    forall i | 0 <= i < |es|
      ensures es[i].0 in AsMap(es) && AsMap(es)[es[i].0] == es[i].1
    {
      AsMapAt(es, i);
    }
    forall k | k in AsMap(es)
      ensures exists i :: 0 <= i < |es| && es[i] == (k, AsMap(es)[k])
    {
      var i := EntryOf(es, k);
    }
  }

  /** Two walks over the same entries in different orders read the same table. */
  lemma OrderDoesNotMatter(a: Entries, b: Entries)
    requires IsTable(a) && IsTable(b) && multiset(a) == multiset(b)
    ensures AsMap(a) == AsMap(b)
  {
    AsMapHolds(a);
    AsMapHolds(b);
    forall k
      ensures k in AsMap(a) <==> k in AsMap(b)
      ensures k in AsMap(a) ==> AsMap(a)[k] == AsMap(b)[k]
    {
      if k in AsMap(a) {
        assert (k, AsMap(a)[k]) in multiset(a);
        assert (k, AsMap(a)[k]) in b;
      }
      if k in AsMap(b) {
        assert (k, AsMap(b)[k]) in multiset(b);
        assert (k, AsMap(b)[k]) in a;
      }
    }
  }

  /** A configuration as it lies in memory, and without its walking order. */
  function GraphOf(tables: map<nat, Entries>): Graph {
    map id | id in tables :: AsMap(tables[id])
  }

  /** The verdict and the layout do not depend on the order any table is walked in. */
  lemma VerdictIgnoresOrder(a: map<nat, Entries>, b: map<nat, Entries>, v: Value, depth: nat)
    requires a.Keys == b.Keys
    requires forall id :: id in a ==> IsTable(a[id]) && IsTable(b[id]) && multiset(a[id]) == multiset(b[id])
    ensures Parse(GraphOf(a), v, depth) == Parse(GraphOf(b), v, depth)
  {
    forall id | id in a
      ensures GraphOf(a)[id] == GraphOf(b)[id]
    {
      OrderDoesNotMatter(a[id], b[id]);
    }
    assert GraphOf(a) == GraphOf(b);
  }

  /** `t` reads as `m` does, wherever `m` has an entry. */
  predicate Extends(m: map<Value, Value>, t: map<Value, Value>) {
    forall k :: k in m ==> k in t && t[k] == m[k]
  }

  lemma PrefixStep(es: Entries, n: nat)
    requires n < |es|
    ensures AsMap(es[..n + 1]) == AsMap(es[..n])[es[n].0 := es[n].1]
  {
    assert es[..n + 1][..n] == es[..n];
  }

  /** What the first entries say, the whole table says. */
  lemma PrefixAgrees(es: Entries, n: nat)
    requires IsTable(es) && n <= |es|
    ensures Extends(AsMap(es[..n]), AsMap(es))
    ensures n < |es| ==> es[n].0 in AsMap(es) && AsMap(es)[es[n].0] == es[n].1 != Nil && es[n].0 !in AsMap(es[..n])
  {
    AsMapHolds(es);
    AsMapHolds(es[..n]);
    forall k | k in AsMap(es[..n])
      ensures k in AsMap(es) && AsMap(es)[k] == AsMap(es[..n])[k]
    {
      var i :| 0 <= i < |es[..n]| && es[..n][i] == (k, AsMap(es[..n])[k]);
      assert es[i].0 == k;
    }
  }

  lemma OddKeyRefuses(es: Entries, n: nat, keys: set<string>)
    requires IsTable(es) && n < |es| && !PlainText(es[n].0) && forall k :: k in keys ==> '\0' !in k
    ensures !OnlyKeys(AsMap(es), keys)
  {
    AsMapHolds(es);
    assert es[n].0 in AsMap(es);
  }

  lemma NoKeysNoContainer(t: map<Value, Value>)
    requires !OnlyKeys(t, {"layout", "views"})
    ensures ParseContainer(t).None?
  {
  }

  /** One more entry of a table, seen through its fields. */
  lemma AddEntry(m: map<Value, Value>, key: string, v: Value, keys: set<string>)
    ensures At(m[Text(key) := v], key) == v
    ensures forall k :: k != key ==> At(m[Text(key) := v], k) == At(m, k)
    ensures OnlyKeys(m, keys) && key in keys ==> OnlyKeys(m[Text(key) := v], keys)
  {
  }

  /** A single bad field, or a key that does not belong, sinks the split. */
  lemma PairRefused(g: Graph, t: map<Value, Value>, axis: Axis, depth: nat)
    requires depth <= DEPTH_MAX
    requires || !OnlyKeys(t, SplitKeys(axis))
             || ParseScale(g, At(t, "scale")).None?
             || ParseOrientation(At(t, "orientation"), axis).None?
             || Parse(g, At(t, FirstKey(axis)), depth + 1).None?
             || Parse(g, At(t, SecondKey(axis)), depth + 1).None?
    ensures ParsePair(g, t, axis, depth).None?
  {
    hide Parse, ParseScale, ParseOrientation, OnlyKeys, At;
  }
}
