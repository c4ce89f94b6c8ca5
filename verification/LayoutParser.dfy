/**
  The layout parser of src/configuration.c as it runs: a Lua stack pushed and
  reset by hand, a table iterator of src/config_lua.c, nodes allocated and freed
  by hand, and two mutually recursive functions. What it returns is tied to
  LayoutSyntax; what it leaves behind is nothing but the nodes it returns.
 */
module LayoutParser {
  import opened Options
  import opened LayoutSyntax

  /** A struct hikari_split in memory, with the address it was allocated at. */
  datatype Node =
    | Leaf(addr: nat, max: int, func: Func)
    | Branch(addr: nat, axis: Axis, firstLeads: bool, scale: Scale, first: Node, second: Node)

  /** The layout a node stands for. */
  function Shape(n: Node): Layout {
    match n
    case Leaf(_, max, func) => Container(max, func)
    case Branch(_, axis, leads, scale, first, second) => Split(axis, leads, scale, Shape(first), Shape(second))
  }

  function Addrs(n: Node): set<nat> {
    match n
    case Leaf(addr, _, _) => {addr}
    case Branch(addr, _, _, _, first, second) => {addr} + Addrs(first) + Addrs(second)
  }

  /** A tree: no node is reached twice. */
  predicate IsTree(n: Node) {
    match n
    case Leaf(_, _, _) => true
    case Branch(addr, _, _, _, first, second) =>
      addr !in Addrs(first) && addr !in Addrs(second) && Addrs(first) !! Addrs(second) &&
        IsTree(first) && IsTree(second)
  }

  function Held(n: Option<Node>): set<nat> { if n.Some? then Addrs(n.value) else {} }

  /** What the container loop knows after the entries that make up `m`. */
  ghost predicate ContainerRead(m: map<Value, Value>, func: Option<Func>, views: int, explicit: bool, override: bool) {
    && OnlyKeys(m, {"layout", "views"})
    && func == NamedFunc(At(m, "layout")) && (func.None? ==> !Has(m, "layout"))
    && explicit == (func.Some? && FixesViews(func.value))
    && override == Has(m, "views")
    && (override ==> Views(At(m, "views")).Some?)
    && views == if explicit then DefaultViews(func.value)
                else if override then Views(At(m, "views")).value
                else 256
  }

  lemma ContainerStart(es: Entries)
    ensures ContainerRead(AsMap(es[..0]), None, 256, false, false)
  {
  }

  /** What a split level has read so far. */
  datatype Pair = Pair(leads: bool, scale: Scale, first: Option<Node>, second: Option<Node>)

  /** A half is there exactly when the table has named it. */
  ghost predicate HalfRead(g: Graph, v: Value, depth: nat, half: Option<Node>) {
    if v == Nil then half.None?
    else half.Some? && IsTree(half.value) && Parse(g, v, depth) == Some(Shape(half.value))
  }

  /** What the split loop knows after the entries that make up `m`. */
  ghost predicate PairRead(g: Graph, m: map<Value, Value>, axis: Axis, depth: nat, pair: Pair) {
    && OnlyKeys(m, SplitKeys(axis))
    && LayoutSyntax.ParseScale(g, At(m, "scale")) == Some(pair.scale)
    && ParseOrientation(At(m, "orientation"), axis) == Some(pair.leads)
    && HalfRead(g, At(m, FirstKey(axis)), depth + 1, pair.first)
    && HalfRead(g, At(m, SecondKey(axis)), depth + 1, pair.second)
  }

  /** One entry read: the field it names is what the entry says, the rest stands. */
  ghost predicate Turn(g: Graph, key: string, v: Value, axis: Axis, depth: nat, before: Pair, after: Pair) {
    || (key == "scale" && LayoutSyntax.ParseScale(g, v) == Some(after.scale) && after == before.(scale := after.scale))
    || (key == "orientation" && ParseOrientation(v, axis) == Some(after.leads) &&
       after == before.(leads := after.leads))
    || (key == FirstKey(axis) && HalfRead(g, v, depth + 1, after.first) && after == before.(first := after.first))
    || (key == SecondKey(axis) && HalfRead(g, v, depth + 1, after.second) && after == before.(second := after.second))
  }

  lemma TurnReads(g: Graph, m: map<Value, Value>, key: string, v: Value, axis: Axis, depth: nat,
        before: Pair, after: Pair)
    requires PairRead(g, m, axis, depth, before) && Turn(g, key, v, axis, depth, before, after) && v != Nil
    ensures PairRead(g, m[Text(key) := v], axis, depth, after)
  {
    AddEntry(m, key, v, SplitKeys(axis));
    hide LayoutSyntax.ParseScale, ParseOrientation, HalfRead, OnlyKeys, At;
  }

  lemma PairHolds(g: Graph, m: map<Value, Value>, axis: Axis, depth: nat, pair: Pair)
    requires PairRead(g, m, axis, depth, pair)
    ensures Trees(pair)
    ensures !Has(m, FirstKey(axis)) ==> pair.first.None?
    ensures !Has(m, SecondKey(axis)) ==> pair.second.None?
  {
    hide LayoutSyntax.ParseScale, ParseOrientation, OnlyKeys, At;
  }

  predicate Trees(pair: Pair) {
    (pair.first.Some? ==> IsTree(pair.first.value)) && (pair.second.Some? ==> IsTree(pair.second.value))
  }

  lemma NewField(m: map<Value, Value>, t: map<Value, Value>, key: string, v: Value)
    requires Text(key) !in m && Text(key) in t && t[Text(key)] == v
    ensures At(t, key) == v && At(m, key) == Nil
  {
  }

  lemma PairStart(g: Graph, es: Entries, axis: Axis, depth: nat)
    ensures PairRead(g, AsMap(es[..0]), axis, depth, Pair(true, Fixed(Finite(SCALE_DEFAULT)), None, None))
    ensures Trees(Pair(true, Fixed(Finite(SCALE_DEFAULT)), None, None))
  {
    hide Parse, IsTree;
    assert AsMap(es[..0]) == map[];
  }

  lemma PlainKeys(axis: Axis)
    ensures forall k :: k in SplitKeys(axis) ==> '\0' !in k
  {
  }

  /** Once the whole table is read, both halves are all that can be missing. */
  lemma PairVerdict(g: Graph, t: map<Value, Value>, axis: Axis, depth: nat, pair: Pair)
    requires PairRead(g, t, axis, depth, pair) && depth <= DEPTH_MAX
    ensures LayoutSyntax.ParsePair(g, t, axis, depth) ==
            if pair.first.Some? && pair.second.Some?
            then Some(Split(axis, pair.leads, pair.scale, Shape(pair.first.value), Shape(pair.second.value)))
            else None
  {
    assert Parse(g, Nil, depth + 1).None?;
    hide Parse, LayoutSyntax.ParseScale, ParseOrientation, OnlyKeys, At, IsTree, Shape;
  }

  lemma BranchIsTree(n: Node)
    requires n.Branch? && IsTree(n.first) && IsTree(n.second)
    requires Addrs(n.first) !! Addrs(n.second) && n.addr !in Addrs(n.first) + Addrs(n.second)
    ensures IsTree(n) && Addrs(n) == {n.addr} + Addrs(n.first) + Addrs(n.second)
    ensures Shape(n) == Split(n.axis, n.firstLeads, n.scale, Shape(n.first), Shape(n.second))
  {
  }

  lemma ForeignKey(t: map<Value, Value>, key: string, keys: set<string>)
    requires Text(key) in t && key !in keys
    ensures !OnlyKeys(t, keys)
  {
  }

  /** struct hikari_config_iter. */
  datatype Iter = Iter(tidx: nat, top: nat, vidx: int, failed: bool)

  // Slots a level asks lua_checkstack for, and slots it uses when it descends.
  const RESERVED: nat := 16
  const PER_LEVEL: nat := 7

  class Parser {
    const tables: map<nat, Entries>
    const maxStack: nat
    var stack: seq<Value>
    var live: set<nat>
    var nextAddr: nat

    ghost predicate Valid()
      reads this`live, this`nextAddr
    {
      && (forall id :: id in tables ==> IsTable(tables[id]))
      && (forall a :: a in live ==> a < nextAddr)
    }

    /** The configuration without the order its tables are walked in. */
    ghost function Config(): Graph {
      GraphOf(tables)
    }

    function EntriesOf(v: Value): Entries
      requires v.Table?
    {
      if v.id in tables then tables[v.id] else []
    }

    lemma TableHolds(v: Value)
      requires Valid() && v.Table?
      ensures AsMap(EntriesOf(v)) == TableOf(Config(), v) && IsTable(EntriesOf(v))
    {
    }

    constructor (tables: map<nat, Entries>, maxStack: nat, stack: seq<Value>)
      requires forall id :: id in tables ==> IsTable(tables[id])
      ensures Valid() && this.tables == tables && this.maxStack == maxStack && this.stack == stack && live == {}
    {
      this.tables, this.maxStack, this.stack := tables, maxStack, stack;
      live, nextAddr := {}, 0;
    }

    /** Whether the Lua stack can still grow by what every deeper level asks for. */
    predicate Roomy(height: nat, depth: nat) {
      depth <= DEPTH_MAX ==> height + PER_LEVEL * (DEPTH_MAX - depth) + RESERVED <= maxStack
    }

    // ------------------------------------------------------------- memory

    method Malloc() returns (a: nat)
      requires Valid()
      modifies this`live, this`nextAddr
      ensures Valid() && a !in old(live) && live == old(live) + {a}
    {
      a := nextAddr;
      nextAddr := nextAddr + 1;
      live := live + {a};
    }

    method Free(a: nat)
      requires Valid() && a in live
      modifies this`live
      ensures Valid() && live == old(live) - {a}
    {
      live := live - {a};
    }

    /** hikari_split_free: every node once, children first. */
    method SplitFree(n: Node)
      requires Valid() && IsTree(n) && Addrs(n) <= live
      modifies this`live
      ensures Valid() && live == old(live) - Addrs(n)
      decreases n
    {
      match n
      case Branch(addr, _, _, _, first, second) =>
        SplitFree(first);
        SplitFree(second);
        Free(addr);
      case Leaf(addr, _, _) =>
        Free(addr);
    }

    // ----------------------------------------------------------- the stack

    /** Nothing is pushed past what the level reserved. */
    method Push(v: Value, ghost limit: nat)
      requires |stack| < limit
      modifies this`stack
      ensures stack == old(stack) + [v]
    {
      stack := stack + [v];
    }

    method SetTop(n: nat)
      requires n <= |stack|
      modifies this`stack
      ensures stack == old(stack)[..n]
    {
      stack := stack[..n];
    }

    /** hikari_config_field on a table: pushes the value, reports presence. */
    method Field(idx: nat, key: string, ghost limit: nat) returns (present: bool)
      requires 1 <= idx <= |stack| < limit && stack[idx - 1].Table?
      modifies this`stack
      ensures stack == old(stack) + [At(TableOf(Config(), old(stack)[idx - 1]), key)]
      ensures present <==> Has(TableOf(Config(), old(stack)[idx - 1]), key)
    {
      var v := At(AsMap(EntriesOf(stack[idx - 1])), key);
      Push(v, limit);
      return v != Nil;
    }

    // ---------------------------------------------------------- the iterator

    /** The cursor after `n` entries: the key on the stack is the cursor. */
    ghost predicate Walking(it: Iter, es: Entries, n: nat)
      reads this`stack
    {
      && 1 <= it.tidx <= it.top < |stack| && !it.failed && it.vidx >= 0
      && stack[it.tidx - 1].Table? && EntriesOf(stack[it.tidx - 1]) == es
      && n <= |es| && stack[it.top] == if n == 0 then Nil else es[n - 1].0
    }

    /** hikari_config_iter_init on a table. */
    method IterInit(idx: nat, ghost limit: nat) returns (it: Iter)
      requires 1 <= idx <= |stack| < limit && stack[idx - 1].Table?
      modifies this`stack
      ensures stack == old(stack) + [Nil] && it.top == |old(stack)| && it.tidx == idx
      ensures Walking(it, EntriesOf(old(stack)[idx - 1]), 0)
    {
      it := Iter(idx, |stack|, 0, false);
      Push(Nil, limit);
    }

    /** lua_next's search for the entry behind the cursor. */
    method After(es: Entries, cursor: Value, ghost n: nat) returns (i: nat)
      requires IsTable(es) && n <= |es| && cursor == if n == 0 then Nil else es[n - 1].0
      ensures i == n
    {
      i := 0;
      if cursor == Nil {
        return;
      }
      while i < |es| && es[i].0 != cursor
        invariant 0 <= i < n
      {
        i := i + 1;
      }
      i := i + 1;
    }

    /** Where a step leaves the walk of `es` above `base`: on entry `n`, with its
        key and value on the stack, or finished with the stack back at `base`,
        having run through the table or met a key that is not a plain string. */
    ghost predicate Stepped(it: Iter, base: seq<Value>, es: Entries, n: nat, more: bool, key: string)
      reads this`stack
    {
      && it.top == |base| && n <= |es|
      && if more then
           && n < |es| && es[n].0 == Text(key) && PlainText(es[n].0)
           && it.vidx == it.top + 2 && stack == base + [es[n].0, es[n].1] && Walking(it, es, n + 1)
         else
           stack == base && if it.failed then n < |es| && !PlainText(es[n].0) else n == |es|
    }

    /** hikari_config_iter_next: drop what the body left, step, and refuse a key
        that is not a plain string. */
    method IterNext(it0: Iter, ghost base: seq<Value>, ghost es: Entries, ghost n: nat, ghost limit: nat)
      returns (it: Iter, more: bool, key: string)
      requires Valid() && Walking(it0, es, n) && IsTable(es) && it0.top + 2 < limit
      requires it0.top == |base| && stack[..it0.top] == base
      modifies this`stack
      ensures Stepped(it, base, es, n, more, key)
    {
      it, key := it0, "";
      SetTop(it.top + 1);
      var table := EntriesOf(stack[it.tidx - 1]);
      var i := After(table, stack[it.top], n);
      SetTop(it.top);
      if i == |table| {
        return it.(tidx := 0, vidx := 0), false, "";
      }
      Push(table[i].0, limit);
      Push(table[i].1, limit);
      if !PlainText(table[i].0) {
        SetTop(it.top);
        return it.(failed := true, tidx := 0, vidx := 0), false, "";
      }
      return it.(vidx := it.top + 2), true, table[i].0.text;
    }

    /** hikari_config_iter_fini. */
    method IterFini(it: Iter)
      requires it.top <= |stack|
      modifies this`stack
      ensures stack == old(stack)[..it.top]
    {
      SetTop(it.top);
    }

    method CheckStack(n: nat) returns (ok: bool)
      ensures ok <==> |stack| + n <= maxStack
    {
      ok := |stack| + n <= maxStack;
    }

    // -------------------------------------------------------------- scales

    method ParseScaleValue(idx: nat) returns (ok: bool, scale: Double)
      requires 1 <= idx <= |stack|
      ensures ok <==> ScaleValue(stack[idx - 1]).Some?
      ensures ok ==> scale == ScaleValue(stack[idx - 1]).value
    {
      scale := Finite(0.0);
      var v := stack[idx - 1];
      if !v.Number? {
        return false, scale;
      }
      if Below(v.num, SCALE_MIN) || Above(v.num, SCALE_MAX) {
        return false, scale;
      }
      return true, v.num;
    }

    /** Both bounds stay on the stack until the one reset at the end. */
    method ParseScaleDynamic(idx: nat, ghost limit: nat) returns (ok: bool, min: Double, max: Double)
      requires 1 <= idx <= |stack| && |stack| + 2 <= limit && stack[idx - 1].Table?
      modifies this`stack
      ensures stack == old(stack)
      ensures ok <==> LayoutSyntax.ParseScale(Config(), stack[idx - 1]).Some?
      ensures ok ==> LayoutSyntax.ParseScale(Config(), stack[idx - 1]) == Some(Dynamic(min, max))
    {
      var entryTop := |stack|;
      ok, min, max := false, Finite(SCALE_MIN), Finite(SCALE_MAX);
      var given := Field(idx, "min", limit);
      var fine := true;
      if given {
        fine, min := ParseScaleValue(|stack|);
      }
      if fine {
        given := Field(idx, "max", limit);
        if given {
          fine, max := ParseScaleValue(|stack|);
        }
      }
      ok := fine;
      SetTop(entryTop);
    }

    method ParseScale(idx: nat, ghost limit: nat) returns (ok: bool, scale: Scale)
      requires 1 <= idx <= |stack| && |stack| + 2 <= limit && stack[idx - 1] != Nil
      modifies this`stack
      ensures stack == old(stack)
      ensures ok <==> LayoutSyntax.ParseScale(Config(), stack[idx - 1]).Some?
      ensures ok ==> LayoutSyntax.ParseScale(Config(), stack[idx - 1]) == Some(scale)
    {
      ok, scale := false, Fixed(Finite(SCALE_DEFAULT));
      match stack[idx - 1]
      case Number(_) =>
        var value;
        ok, value := ParseScaleValue(idx);
        scale := Fixed(value);
      case Table(_) =>
        var min, max;
        ok, min, max := ParseScaleDynamic(idx, limit);
        scale := Dynamic(min, max);
      case _ =>
    }

    // ---------------------------------------------------------- containers

    /** Leaves the count alone unless the function fixes its own. */
    method ParseLayoutFunc(name: string, views0: int, explicit0: bool)
      returns (func: Option<Func>, views: int, explicit: bool)
      ensures func == FuncNamed(name)
      ensures func.Some? && FixesViews(func.value) ==> explicit && views == DefaultViews(func.value)
      ensures func.None? || !FixesViews(func.value) ==> explicit == explicit0 && views == views0
    {
      func, views, explicit := None, views0, explicit0;
      if name == "queue" {
        func := Some(Queue);
      } else if name == "stack" {
        func := Some(Stack);
      } else if name == "full" {
        func := Some(Full);
      } else if name == "grid" {
        func := Some(Grid);
      } else if name == "single" {
        func, views, explicit := Some(Single), 1, true;
      } else if name == "empty" {
        func, views, explicit := Some(Empty), 0, true;
      }
    }

    /** One turn of the loop: an entry either extends what is known or sinks
        every table that has it. */
    method ContainerEntry(ghost m: map<Value, Value>, ghost t: map<Value, Value>, key: string, value: Value,
                          func0: Option<Func>, views0: int, explicit0: bool, override0: bool)
      returns (ok: bool, func: Option<Func>, views: int, explicit: bool, override: bool)
      requires ContainerRead(m, func0, views0, explicit0, override0) && value != Nil
      requires Text(key) !in m && Extends(m, t) && Text(key) in t && t[Text(key)] == value
      ensures ok ==> ContainerRead(m[Text(key) := value], func, views, explicit, override)
      ensures !ok ==> LayoutSyntax.ParseContainer(t).None?
    {
      ok, func, views, explicit, override := true, func0, views0, explicit0, override0;
      if key == "layout" {
        if !PlainText(value) {
          ok := false;
        } else {
          func, views, explicit := ParseLayoutFunc(value.text, views, explicit);
          ok := func.Some?;
        }
      } else if key == "views" {
        override := true;
        if explicit || Views(value).None? {
          ok := false;
        } else {
          views := Views(value).value;
        }
      } else {
        ok := false;
      }
    }

    /** The loop over the entries; stops at the first one that cannot be. */
    method ScanContainer(it0: Iter, ghost base: seq<Value>, ghost es: Entries, ghost limit: nat)
      returns (ok: bool, func: Option<Func>, views: int, explicit: bool, override: bool)
      requires Valid() && Walking(it0, es, 0) && IsTable(es) && it0.top + 2 < limit
      requires it0.top == |base| && stack[..it0.top] == base
      modifies this`stack
      ensures |base| <= |stack| && stack[..|base|] == base
      ensures if ok then ContainerRead(AsMap(es), func, views, explicit, override)
              else LayoutSyntax.ParseContainer(AsMap(es)).None?
    {
      hide Valid, IsTable, ContainerRead, AsMap, PlainText, LayoutSyntax.ParseContainer;
      func, views, explicit, override := None, 256, false, false;
      ghost var n := 0;
      ok := true;
      ContainerStart(es);
      var it, more, key := IterNext(it0, base, es, n, limit);
      while more && ok
        invariant Stepped(it, base, es, n, more, key)
        invariant ok ==> ContainerRead(AsMap(es[..n]), func, views, explicit, override)
        invariant !ok ==> LayoutSyntax.ParseContainer(AsMap(es)).None?
        modifies this`stack
        decreases more && ok, |es| - n
      {
        PrefixAgrees(es, n);
        ok, func, views, explicit, override :=
          ContainerEntry(AsMap(es[..n]), AsMap(es), key, stack[it.vidx - 1], func, views, explicit, override);
        if ok {
          PrefixStep(es, n);
          n := n + 1;
          it, more, key := IterNext(it, base, es, n, limit);
        }
      }
      if ok && it.failed {
        ok := false;
        OddKeyRefuses(es, n, {"layout", "views"});
        NoKeysNoContainer(AsMap(es));
      } else if ok {
        assert es[..n] == es;
      }
    }

    method ParseContainer(idx: nat, ghost limit: nat) returns (ret: Option<Node>)
      requires Valid() && 1 <= idx <= |stack| && |stack| + 3 <= limit && stack[idx - 1].Table?
      modifies this
      ensures Valid() && stack == old(stack)
      ensures ret.Some? <==> LayoutSyntax.ParseContainer(TableOf(Config(), stack[idx - 1])).Some?
      ensures ret.Some? ==> Some(Shape(ret.value)) == LayoutSyntax.ParseContainer(TableOf(Config(), stack[idx - 1]))
      ensures ret.Some? ==> IsTree(ret.value)
      ensures Held(ret) !! old(live) && live == old(live) + Held(ret)
    {
      hide Valid, Config, IsTable, TableOf;
      ghost var es := EntriesOf(stack[idx - 1]);
      TableHolds(stack[idx - 1]);
      var it := IterInit(idx, limit);
      var ok, func, views, explicit, override := ScanContainer(it, old(stack), es, limit);
      ret := None;
      if ok && func.Some? && !(override && explicit) {
        var a := Malloc();
        ret := Some(Leaf(a, views, func.value));
      }
      IterFini(it);
    }

    // -------------------------------------------------------------- splits

    method ReadOrientation(v: Value, axis: Axis) returns (leads: Option<bool>)
      requires v != Nil
      ensures leads == ParseOrientation(v, axis)
    {
      if !PlainText(v) {
        return None;
      }
      if v.text == FirstKey(axis) {
        return Some(true);
      } else if v.text == SecondKey(axis) {
        return Some(false);
      } else {
        return None;
      }
    }

    /** The frame owns the halves it has built, and nothing else is new. */
    ghost predicate Owns(base: set<nat>, first: Option<Node>, second: Option<Node>)
      reads this`live
    {
      && live == base + Held(first) + Held(second)
      && Held(first) !! base && Held(second) !! base && Held(first) !! Held(second)
    }

    /** One turn of the loop over a split table. */
    method PairEntry(vidx: nat, axis: Axis, depth: nat, key: string, pair0: Pair,
                     ghost m: map<Value, Value>, ghost t: map<Value, Value>, ghost base: set<nat>, ghost limit: nat)
      returns (ok: bool, pair: Pair)
      requires Valid() && depth <= DEPTH_MAX && 1 <= vidx <= |stack| && |stack| + 2 <= limit && stack[vidx - 1] != Nil
      requires PairRead(Config(), m, axis, depth, pair0) && Owns(base, pair0.first, pair0.second)
      requires Text(key) !in m && Extends(m, t) && Text(key) in t && t[Text(key)] == stack[vidx - 1]
      modifies this
      ensures Valid() && stack == old(stack) && Owns(base, pair.first, pair.second)
      ensures Trees(pair)
      ensures ok ==> PairRead(Config(), m[Text(key) := old(stack)[vidx - 1]], axis, depth, pair)
      ensures !ok && Roomy(|stack|, depth + 1) ==> LayoutSyntax.ParsePair(Config(), t, axis, depth).None?
      decreases DEPTH_MAX + 1 - depth, 0
    {
      hide Valid, Config, Roomy, Extends, PairRead, Parse, LayoutSyntax.ParseScale, LayoutSyntax.ParsePair,
           ParseOrientation, OnlyKeys, IsTree, Shape, Addrs, At;
      ok, pair := false, pair0;
      ghost var v := stack[vidx - 1];
      NewField(m, t, key, v);
      PairHolds(Config(), m, axis, depth, pair0);
      if key == "scale" {
        var scale;
        ok, scale := ParseScale(vidx, limit);
        pair := pair.(scale := scale);
      } else if key == "orientation" {
        var leads := ReadOrientation(stack[vidx - 1], axis);
        ok := leads.Some?;
        pair := pair.(leads := leads.Some? && leads.value);
      } else if key == FirstKey(axis) {
        var half := ParseSplit(vidx, depth + 1);
        ok, pair := half.Some?, pair.(first := half);
      } else if key == SecondKey(axis) {
        var half := ParseSplit(vidx, depth + 1);
        ok, pair := half.Some?, pair.(second := half);
      } else {
        ForeignKey(t, key, SplitKeys(axis));
      }
      if ok {
        TurnReads(Config(), m, key, v, axis, depth, pair0, pair);
      }
      if !ok && Roomy(|stack|, depth + 1) {
        PairRefused(Config(), t, axis, depth);
      }
    }

    method ScanPair(it0: Iter, axis: Axis, depth: nat, ghost base: seq<Value>, ghost es: Entries, ghost limit: nat)
      returns (ok: bool, pair: Pair)
      requires Valid() && depth <= DEPTH_MAX && Walking(it0, es, 0) && IsTable(es) && it0.top + 4 <= limit
      requires it0.top == |base| && stack[..it0.top] == base
      modifies this
      ensures Valid() && |base| <= |stack| && stack[..|base|] == base && Owns(old(live), pair.first, pair.second)
      ensures Trees(pair)
      ensures ok ==> PairRead(Config(), AsMap(es), axis, depth, pair)
      ensures !ok && Roomy(|base| + 2, depth + 1) ==> LayoutSyntax.ParsePair(Config(), AsMap(es), axis, depth).None?
      decreases DEPTH_MAX + 1 - depth, 1
    {
      hide Valid, Config, IsTable, Roomy, PairRead, AsMap, PlainText, Parse, LayoutSyntax.ParsePair,
           SplitKeys, Trees, OnlyKeys;
      ok, pair := true, Pair(true, Fixed(Finite(SCALE_DEFAULT)), None, None);
      ghost var n := 0;
      PairStart(Config(), es, axis, depth);
      PlainKeys(axis);
      var it, more, key := IterNext(it0, base, es, n, limit);
      while more && ok
        invariant Valid() && |base| <= |stack| && stack[..|base|] == base && Owns(old(live), pair.first, pair.second)
        invariant ok ==> Stepped(it, base, es, n, more, key)
        invariant Trees(pair)
        invariant ok ==> PairRead(Config(), AsMap(es[..n]), axis, depth, pair)
        invariant !ok && Roomy(|base| + 2, depth + 1) ==> LayoutSyntax.ParsePair(Config(), AsMap(es), axis, depth).None?
        decreases more && ok, |es| - n
      {
        PrefixAgrees(es, n);
        ok, pair := PairEntry(it.vidx, axis, depth, key, pair, AsMap(es[..n]), AsMap(es), old(live), limit);
        if ok {
          PrefixStep(es, n);
          n := n + 1;
          it, more, key := IterNext(it, base, es, n, limit);
        }
      }
      if ok && it.failed {
        ok := false;
        OddKeyRefuses(es, n, SplitKeys(axis));
        PairRefused(Config(), AsMap(es), axis, depth);
      } else if ok {
        assert es[..n] == es;
      }
    }

    /** parse_vertical and parse_horizontal, which one macro spells for both axes. */
    method ParsePair(idx: nat, axis: Axis, depth: nat, ghost limit: nat) returns (ret: Option<Node>)
      requires Valid() && depth <= DEPTH_MAX && 1 <= idx <= |stack| && |stack| + 4 <= limit && stack[idx - 1].Table?
      modifies this
      ensures Valid() && stack == old(stack)
      ensures Held(ret) !! old(live) && live == old(live) + Held(ret)
      ensures ret.Some? ==> IsTree(ret.value)
      ensures ret.Some? ==>
                LayoutSyntax.ParsePair(Config(), TableOf(Config(), stack[idx - 1]), axis, depth) ==
                  Some(Shape(ret.value))
      ensures ret.None? && Roomy(|stack| + 2, depth + 1) ==>
                LayoutSyntax.ParsePair(Config(), TableOf(Config(), stack[idx - 1]), axis, depth).None?
      decreases DEPTH_MAX + 1 - depth, 2
    {
      hide Valid, Config, IsTable, PairRead, IsTree, Shape, Addrs, TableOf, LayoutSyntax.ParsePair;
      ghost var es := EntriesOf(stack[idx - 1]);
      TableHolds(stack[idx - 1]);
      var it := IterInit(idx, limit);
      var ok, pair := ScanPair(it, axis, depth, old(stack), es, limit);
      ret := None;
      var first, second := pair.first, pair.second;
      if ok {
        PairVerdict(Config(), AsMap(es), axis, depth, pair);
        if first.Some? && second.Some? {
          var a := Malloc();
          ret := Some(Branch(a, axis, pair.leads, pair.scale, first.value, second.value));
          BranchIsTree(ret.value);
          first, second := None, None;
        }
      }
      IterFini(it);
      if first.Some? {
        SplitFree(first.value);
      }
      if second.Some? {
        SplitFree(second.value);
      }
    }

    /** The five lookups that tell the kinds of element apart; their values stay
        on the stack while the element is parsed. */
    method Discriminate(idx: nat, ghost limit: nat) returns (kind: Kind)
      requires 1 <= idx <= |stack| && |stack| + 5 <= limit && stack[idx - 1].Table?
      modifies this`stack
      ensures |stack| == |old(stack)| + 5 && stack[..|old(stack)|] == old(stack)
      ensures kind == KindOf(TableOf(Config(), old(stack)[idx - 1]))
    {
      hide At, TableOf, Config;
      var left := Field(idx, "left", limit);
      var right := Field(idx, "right", limit);
      var top := Field(idx, "top", limit);
      var bottom := Field(idx, "bottom", limit);
      var layout := Field(idx, "layout", limit);
      if left && right && !top && !bottom && !layout {
        kind := ASplit(Vertical);
      } else if top && bottom && !left && !right && !layout {
        kind := ASplit(Horizontal);
      } else if layout && !left && !right && !top && !bottom {
        kind := AContainer;
      } else {
        kind := NoElement;
      }
    }

    /** parse_split: the value at `idx`, and whatever it nests. No path leaves a
        node behind that is not in the tree returned, and the stack ends where it
        began. Without room on the Lua stack the parser may refuse what it would
        otherwise take; with room its verdict is Parse's. */
    method ParseSplit(idx: nat, depth: nat) returns (ret: Option<Node>)
      requires Valid() && 1 <= idx <= |stack| && depth <= DEPTH_MAX + 1
      modifies this
      ensures Valid() && stack == old(stack)
      ensures Held(ret) !! old(live) && live == old(live) + Held(ret)
      ensures ret.Some? ==> IsTree(ret.value)
      ensures ret.Some? ==> Parse(Config(), stack[idx - 1], depth) == Some(Shape(ret.value))
      ensures ret.None? && Roomy(|stack|, depth) ==> Parse(Config(), stack[idx - 1], depth).None?
      decreases DEPTH_MAX + 1 - depth, 3
    {
      hide Valid, Config, IsTree, Shape, Addrs, KindOf, TableOf, LayoutSyntax.ParsePair,
           LayoutSyntax.ParseContainer, NamedFunc;
      ret := None;
      var entryTop := |stack|;
      ghost var limit := entryTop + RESERVED;
      if depth > DEPTH_MAX {
        return;
      }
      var room := CheckStack(RESERVED);
      if !room {
        return;
      }
      match stack[idx - 1] {
      case Text(_) =>
        ret := ParseNamed(idx, depth);
      case Table(_) =>
        var kind := Discriminate(idx, limit);
        match kind {
        case ASplit(axis) => ret := ParsePair(idx, axis, depth, limit);
        case AContainer => ret := ParseContainer(idx, limit);
        case NoElement =>
        }
      case _ =>
      }
      SetTop(entryTop);
    }

    /** A layout element that is just a function's name. */
    method ParseNamed(idx: nat, ghost depth: nat) returns (ret: Option<Node>)
      requires Valid() && 1 <= idx <= |stack| && stack[idx - 1].Text? && depth <= DEPTH_MAX
      modifies this`live, this`nextAddr
      ensures Valid() && Held(ret) !! old(live) && live == old(live) + Held(ret)
      ensures ret.Some? ==> IsTree(ret.value)
      ensures if ret.Some? then Some(Shape(ret.value)) == Parse(Config(), stack[idx - 1], depth)
              else Parse(Config(), stack[idx - 1], depth).None?
    {
      ret := None;
      if PlainText(stack[idx - 1]) {
        var func, views, explicit := ParseLayoutFunc(stack[idx - 1].text, 256, false);
        if func.Some? {
          var a := Malloc();
          ret := Some(Leaf(a, views, func.value));
        }
      }
    }
  }
}
