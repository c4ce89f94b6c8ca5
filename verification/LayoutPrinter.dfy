/**
  Writing a layout down: the table a configuration would spell it with, in the
  names its author types. Reading it back gives the layout, so that the names,
  the defaults and the halves mean to the parser what they mean to the author.
 */
module LayoutPrinter {
  import opened Options
  import opened LayoutSyntax

  /** The value that stands for a layout, the tables it needs, and the first table
      number that is still free. */
  datatype Printed = Printed(value: Value, tables: Graph, next: nat)

  function Name(func: Func): string {
    match func
    case Queue => "queue"
    case Stack => "stack"
    case Full => "full"
    case Grid => "grid"
    case Single => "single"
    case Empty => "empty"
  }

  /** Layouts a configuration can ask for. */
  predicate Printable(l: Layout) {
    match l
    case Container(max, func) =>
      if func == Single then max == 1 else if func == Empty then max == 0 else 2 <= max <= 256
    case Split(_, _, scale, first, second) =>
      PrintableScale(scale) && Printable(first) && Printable(second)
  }

  predicate PrintableScale(scale: Scale) {
    match scale
    case Fixed(x) => x.Finite? && 0.1 <= x.value <= 0.9
    case Dynamic(lo, hi) => lo.Finite? && 0.1 <= lo.value <= 0.9 && hi.Finite? && 0.1 <= hi.value <= 0.9
  }

  function With(t: map<Value, Value>, key: string, written: bool, v: Value): map<Value, Value> {
    if written then t[Text(key) := v] else t
  }

  /** `brief` leaves out whatever is the default. */
  function PrintContainer(max: int, func: Func, n: nat, brief: bool): Printed {
    var settled := func == Single || func == Empty;
    if brief && (settled || max == 256) then Printed(Text(Name(func)), map[], n)
    else
      var t := With(map[Text("layout") := Text(Name(func))], "views", !settled, Number(Finite(max as real)));
      Printed(Table(n), map[n := t], n + 1)
  }

  function PrintScale(scale: Scale, n: nat, brief: bool): Printed {
    match scale
    case Fixed(x) => Printed(Number(x), map[], n)
    case Dynamic(lo, hi) =>
      var t := With(With(map[], "min", !(brief && lo == Finite(0.1)), Number(lo)),
                    "max", !(brief && hi == Finite(0.9)), Number(hi));
      Printed(Table(n), map[n := t], n + 1)
  }

  function SplitTable(axis: Axis, leads: bool, scale: Scale, first: Value, second: Value, size: Value, brief: bool)
    : map<Value, Value>
  {
    var one, other := if axis == Vertical then "left" else "top", if axis == Vertical then "right" else "bottom";
    var halves := map[Text(one) := first, Text(other) := second];
    With(With(halves, "orientation", !(brief && leads), Text(if leads then one else other)),
         "scale", !(brief && scale == Fixed(Finite(0.5))), size)
  }

  function Print(l: Layout, n: nat, brief: bool): Printed {
    match l
    case Container(max, func) => PrintContainer(max, func, n, brief)
    case Split(axis, leads, scale, first, second) =>
      var p := Print(first, n + 1, brief);
      var q := Print(second, p.next, brief);
      var s := PrintScale(scale, q.next, brief);
      var t := SplitTable(axis, leads, scale, p.value, q.value, s.value, brief);
      Printed(Table(n), p.tables + q.tables + s.tables + map[n := t], s.next)
  }

  /** The tables of a layout are numbered from `n` on. */
  lemma {:induction false} TablesInRange(l: Layout, n: nat, brief: bool)
    ensures var p := Print(l, n, brief); n <= p.next && forall id :: id in p.tables ==> n <= id < p.next
    decreases l
  {
    hide SplitTable, With, Name, PrintScale;
    match l
    case Container(_, _) =>
    case Split(_, _, scale, first, second) =>
      var p := Print(first, n + 1, brief);
      TablesInRange(first, n + 1, brief);
      TablesInRange(second, p.next, brief);
      ScaleInRange(scale, Print(second, p.next, brief).next, brief);
  }

  ghost predicate Holds(g: Graph, tables: Graph) {
    forall id :: id in tables ==> id in g && g[id] == tables[id]
  }

  // ------------------------------------------------------- reading it back

  lemma WithAt(t: map<Value, Value>, key: string, written: bool, v: Value, k: string)
    ensures At(With(t, key, written, v), k) == if written && k == key then v else At(t, k)
    ensures forall x :: x in With(t, key, written, v) ==> x in t || x == Text(key)
  {
  }

  /** The keys and values a configuration uses are told apart. */
  lemma NamesDiffer()
    ensures "left" != "right" && "left" != "top" && "left" != "bottom" && "right" != "top" && "right" != "bottom"
    ensures "top" != "bottom" && "orientation" != "left" && "orientation" != "right" && "orientation" != "top"
    ensures "orientation" != "bottom" && "orientation" != "scale" && "orientation" != "layout"
    ensures "scale" != "left" && "scale" != "right" && "scale" != "top" && "scale" != "bottom" && "scale" != "layout"
    ensures "layout" != "left" && "layout" != "right" && "layout" != "top" && "layout" != "bottom"
    ensures "layout" != "views" && "min" != "max"
  {
    assert "left"[0] == 'l' && "right"[0] == 'r' && "top"[0] == 't' && "bottom"[0] == 'b';
    assert "scale"[0] == 's' && "layout"[1] == 'a' && "left"[1] == 'e' && "views"[0] == 'v';
    assert "min"[1] == 'i' && "max"[1] == 'a';
  }

  lemma NameIsRead(func: Func)
    ensures NamedFunc(Text(Name(func))) == Some(func)
  {
    assert "queue"[0] == 'q' && "full"[0] == 'f' && "grid"[0] == 'g' && "empty"[0] == 'e';
    assert "stack"[1] == 't' && "single"[1] == 'i';
  }

  lemma ContainerReads(g: Graph, max: int, func: Func, n: nat, brief: bool, depth: nat)
    requires Printable(Container(max, func)) && Holds(g, PrintContainer(max, func, n, brief).tables) && depth <= 64
    ensures Parse(g, PrintContainer(max, func, n, brief).value, depth) == Some(Container(max, func))
  {
    NameIsRead(func);
    hide Name, NamedFunc;
    var settled := func == Single || func == Empty;
    if !(brief && (settled || max == 256)) {
      var base := map[Text("layout") := Text(Name(func))];
      var t := With(base, "views", !settled, Number(Finite(max as real)));
      assert n in PrintContainer(max, func, n, brief).tables && TableOf(g, Table(n)) == t;
      ContainerTable(max, func);
      CountIsRead(max);
      hide PrintContainer, Holds, With, Views;
    }
  }

  lemma CountIsRead(max: int)
    ensures 2 <= max <= 256 ==> Views(Number(Finite(max as real))) == Some(max)
  {
    assert (max as real).Floor == max;
  }

  lemma ContainerTable(max: int, func: Func)
    ensures var settled := func == Single || func == Empty;
            var t := With(map[Text("layout") := Text(Name(func))], "views", !settled, Number(Finite(max as real)));
            && KindOf(t) == AContainer && OnlyKeys(t, {"layout", "views"}) && At(t, "layout") == Text(Name(func))
            && At(t, "views") == if settled then Nil else Number(Finite(max as real))
  {
    NamesDiffer();
    hide Name;
    var settled := func == Single || func == Empty;
    var base, count := map[Text("layout") := Text(Name(func))], Number(Finite(max as real));
    WithAt(base, "views", !settled, count, "layout");
    WithAt(base, "views", !settled, count, "views");
    WithAt(base, "views", !settled, count, "left");
    WithAt(base, "views", !settled, count, "right");
    WithAt(base, "views", !settled, count, "top");
    WithAt(base, "views", !settled, count, "bottom");
    hide With;
    var t := With(base, "views", !settled, count);
    assert forall k :: k in t ==> k.Text? && k.text in {"layout", "views"};
  }

  lemma ScaleReads(g: Graph, scale: Scale, n: nat, brief: bool)
    requires PrintableScale(scale) && Holds(g, PrintScale(scale, n, brief).tables)
    ensures ParseScale(g, PrintScale(scale, n, brief).value) == Some(scale)
  {
    match scale
    case Fixed(_) =>
    case Dynamic(lo, hi) =>
      NamesDiffer();
      var inner := With(map[], "min", !(brief && lo == Finite(0.1)), Number(lo));
      var written := !(brief && hi == Finite(0.9));
      assert n in PrintScale(scale, n, brief).tables;
      assert TableOf(g, Table(n)) == With(inner, "max", written, Number(hi));
      WithAt(map[], "min", !(brief && lo == Finite(0.1)), Number(lo), "min");
      WithAt(map[], "min", !(brief && lo == Finite(0.1)), Number(lo), "max");
      WithAt(inner, "max", written, Number(hi), "min");
      WithAt(inner, "max", written, Number(hi), "max");
      hide With, Holds;
  }

  /** Every key of a split's table, and no other. */
  lemma SplitTableAt(axis: Axis, leads: bool, scale: Scale, first: Value, second: Value, size: Value, brief: bool,
        k: string)
    requires k in {"left", "right", "top", "bottom", "layout", "orientation", "scale"}
    ensures var t := SplitTable(axis, leads, scale, first, second, size, brief);
            var one := if axis == Vertical then "left" else "top";
            var other := if axis == Vertical then "right" else "bottom";
            At(t, k) == if k == one then first else if k == other then second
                        else if k == "orientation" && !(brief && leads) then Text(if leads then one else other)
                        else if k == "scale" && !(brief && scale == Fixed(Finite(0.5))) then size
                        else Nil
  {
    NamesDiffer();
    var one, other := if axis == Vertical then "left" else "top", if axis == Vertical then "right" else "bottom";
    var halves := map[Text(one) := first, Text(other) := second];
    var v := Text(if leads then one else other);
    WithAt(halves, "orientation", !(brief && leads), v, k);
    var ordered := With(halves, "orientation", !(brief && leads), v);
    WithAt(ordered, "scale", !(brief && scale == Fixed(Finite(0.5))), size, k);
    hide With;
  }

  lemma SplitTableKeys(axis: Axis, leads: bool, scale: Scale, first: Value, second: Value, size: Value, brief: bool)
    ensures OnlyKeys(SplitTable(axis, leads, scale, first, second, size, brief), SplitKeys(axis))
  {
  }

  /** The table of a split says what it is, which half leads and how it is scaled. */
  lemma SplitTableReads(g: Graph, axis: Axis, leads: bool, scale: Scale, first: Value, second: Value, size: Value,
        brief: bool)
    requires first != Nil && second != Nil && ParseScale(g, size) == Some(scale)
    ensures var t := SplitTable(axis, leads, scale, first, second, size, brief);
            && KindOf(t) == ASplit(axis)
            && ParseScale(g, At(t, "scale")) == Some(scale)
            && ParseOrientation(At(t, "orientation"), axis) == Some(leads)
            && At(t, FirstKey(axis)) == first && At(t, SecondKey(axis)) == second
  {
    NamesDiffer();
    SplitTableAt(axis, leads, scale, first, second, size, brief, "left");
    SplitTableAt(axis, leads, scale, first, second, size, brief, "right");
    SplitTableAt(axis, leads, scale, first, second, size, brief, "top");
    SplitTableAt(axis, leads, scale, first, second, size, brief, "bottom");
    SplitTableAt(axis, leads, scale, first, second, size, brief, "layout");
    SplitTableAt(axis, leads, scale, first, second, size, brief, "orientation");
    SplitTableAt(axis, leads, scale, first, second, size, brief, "scale");
    NoZeroInNames();
    hide SplitTable, At;
  }

  lemma NoZeroInNames()
    ensures '\0' !in "left" && '\0' !in "right" && '\0' !in "top" && '\0' !in "bottom"
  {
  }

  /** Every layout a configuration can ask for, of any shape up to level 64, is
      what the parser makes of the tables that spell it, defaults left out or
      written. */
  lemma {:induction false} RoundTrip(g: Graph, l: Layout, n: nat, brief: bool, depth: nat)
    requires Printable(l) && Holds(g, Print(l, n, brief).tables) && depth + Height(l) <= 64
    ensures Print(l, n, brief).value != Nil && Parse(g, Print(l, n, brief).value, depth) == Some(l)
    decreases l
  {
    hide Print, PrintContainer, PrintScale, SplitTable, Holds, Parse, TableOf;
    if l.Container? {
      PrintsContainer(l.max, l.func, n, brief);
      ContainerReads(g, l.max, l.func, n, brief, depth);
    } else {
      var p := Print(l.first, n + 1, brief);
      var q := Print(l.second, p.next, brief);
      PrintsSplit(l, n, brief);
      SplitHolds(g, l, n, brief);
      RoundTrip(g, l.first, n + 1, brief, depth + 1);
      RoundTrip(g, l.second, p.next, brief, depth + 1);
      SplitReads(g, l, n, brief, depth);
    }
  }

  lemma PrintsContainer(max: int, func: Func, n: nat, brief: bool)
    ensures Print(Container(max, func), n, brief) == PrintContainer(max, func, n, brief)
    ensures PrintContainer(max, func, n, brief).value != Nil
  {
    hide With, Name;
  }

  lemma PrintsSplit(l: Layout, n: nat, brief: bool)
    requires l.Split?
    ensures var p := Print(l.first, n + 1, brief);
            var q := Print(l.second, p.next, brief);
            var s := PrintScale(l.scale, q.next, brief);
            var t := SplitTable(l.axis, l.firstLeads, l.scale, p.value, q.value, s.value, brief);
            Print(l, n, brief) == Printed(Table(n), p.tables + q.tables + s.tables + map[n := t], s.next)
  {
    hide PrintContainer, PrintScale, SplitTable;
  }

  /** A split reads back once its halves do. */
  lemma SplitReads(g: Graph, l: Layout, n: nat, brief: bool, depth: nat)
    requires l.Split? && PrintableScale(l.scale) && depth < 64 && Holds(g, Print(l, n, brief).tables)
    requires var p := Print(l.first, n + 1, brief);
             var q := Print(l.second, p.next, brief);
             && p.value != Nil && Parse(g, p.value, depth + 1) == Some(l.first)
             && q.value != Nil && Parse(g, q.value, depth + 1) == Some(l.second)
    ensures Parse(g, Table(n), depth) == Some(l)
  {
    hide Print, PrintScale, SplitTable, Holds, Parse, TableOf, KindOf;
    hide ParseScale, ParseOrientation, OnlyKeys, ParsePair;
    var axis, leads, scale := l.axis, l.firstLeads, l.scale;
    var p := Print(l.first, n + 1, brief);
    var q := Print(l.second, p.next, brief);
    var s := PrintScale(scale, q.next, brief);
    SplitHolds(g, l, n, brief);
    ScaleReads(g, scale, q.next, brief);
    SplitTableReads(g, axis, leads, scale, p.value, q.value, s.value, brief);
    SplitTableKeys(axis, leads, scale, p.value, q.value, s.value, brief);
    ParseSplitTable(g, Table(n), depth, axis);
    PairReads(g, TableOf(g, Table(n)), axis, leads, scale, l.first, l.second, depth);
  }

  /** A graph that holds the tables of a split holds those of its parts. */
  lemma SplitHolds(g: Graph, l: Layout, n: nat, brief: bool)
    requires l.Split? && Holds(g, Print(l, n, brief).tables)
    ensures var p := Print(l.first, n + 1, brief);
            var q := Print(l.second, p.next, brief);
            var s := PrintScale(l.scale, q.next, brief);
            && Holds(g, p.tables) && Holds(g, q.tables) && Holds(g, s.tables)
            && TableOf(g, Table(n)) == SplitTable(l.axis, l.firstLeads, l.scale, p.value, q.value, s.value, brief)
  {
    hide Print, PrintScale, SplitTable, Holds, TableOf;
    PrintsSplit(l, n, brief);
    var p := Print(l.first, n + 1, brief);
    var q := Print(l.second, p.next, brief);
    var s := PrintScale(l.scale, q.next, brief);
    TablesInRange(l.first, n + 1, brief);
    TablesInRange(l.second, p.next, brief);
    ScaleInRange(l.scale, q.next, brief);
    var t := SplitTable(l.axis, l.firstLeads, l.scale, p.value, q.value, s.value, brief);
    HoldsParts(g, p.tables, q.tables, s.tables, n, t);
  }

  lemma HoldsParts(g: Graph, a: Graph, b: Graph, c: Graph, n: nat, t: map<Value, Value>)
    requires Holds(g, a + b + c + map[n := t]) && n !in a && n !in b && n !in c
    requires a.Keys !! b.Keys && a.Keys !! c.Keys && b.Keys !! c.Keys
    ensures Holds(g, a) && Holds(g, b) && Holds(g, c) && TableOf(g, Table(n)) == t
  {
    var all := a + b + c + map[n := t];
    assert forall id :: id in a ==> id in all && all[id] == a[id];
    assert forall id :: id in b ==> id in all && all[id] == b[id];
    assert forall id :: id in c ==> id in all && all[id] == c[id];
    assert n in all && all[n] == t;
  }

  lemma ScaleInRange(scale: Scale, n: nat, brief: bool)
    ensures var s := PrintScale(scale, n, brief); n <= s.next && forall id :: id in s.tables ==> n <= id < s.next
  {
    hide With;
  }

  lemma PairReads(g: Graph, t: map<Value, Value>, axis: Axis, leads: bool, scale: Scale, first: Layout, second: Layout,
        depth: nat)
    requires depth < 64 && OnlyKeys(t, SplitKeys(axis))
    requires ParseScale(g, At(t, "scale")) == Some(scale)
    requires ParseOrientation(At(t, "orientation"), axis) == Some(leads)
    requires Parse(g, At(t, FirstKey(axis)), depth + 1) == Some(first)
    requires Parse(g, At(t, SecondKey(axis)), depth + 1) == Some(second)
    ensures ParsePair(g, t, axis, depth) == Some(Split(axis, leads, scale, first, second))
  {
    hide ParseScale, ParseOrientation, Parse, OnlyKeys, At;
  }

  /** In a configuration that holds nothing else. */
  lemma PrintedIsParsed(l: Layout, brief: bool)
    requires Printable(l) && Height(l) <= 64
    ensures Parse(Print(l, 0, brief).tables, Print(l, 0, brief).value, 0) == Some(l)
  {
    RoundTrip(Print(l, 0, brief).tables, l, 0, brief, 0);
  }

  // ------------------------------------------------- nothing else is accepted

  predicate NumberWithin(v: Value, least: real, most: real) {
    v.Number? && (v.num.Finite? ==> least <= v.num.value <= most)
  }

  /** Left out, a number from 0.1 to 0.9, or a table of two such bounds; NaN slips
      through. */
  predicate ScaleSpelt(g: Graph, v: Value) {
    || v == Nil || NumberWithin(v, 0.1, 0.9)
    || (v.Table? &&
        forall key :: key in {"min", "max"} ==>
          var bound := At(TableOf(g, v), key); bound == Nil || NumberWithin(bound, 0.1, 0.9))
  }

  predicate ContainerSpelt(t: map<Value, Value>) {
    && (forall k :: k in t ==> k == Text("layout") || k == Text("views"))
    && At(t, "layout").Text? && At(t, "layout").text in {"queue", "stack", "full", "grid", "single", "empty"}
    && (At(t, "views") != Nil ==>
          && At(t, "layout").text !in {"single", "empty"} && NumberWithin(At(t, "views"), 2.0, 256.0)
          && At(t, "views").num.Finite?)
  }

  predicate SplitSpelt(g: Graph, t: map<Value, Value>, one: string, other: string) {
    && (forall k :: k in t ==>
          k == Text("scale") || k == Text("orientation") || k == Text(one) || k == Text(other))
    && At(t, one) != Nil && At(t, other) != Nil && ScaleSpelt(g, At(t, "scale"))
    && At(t, "orientation") in {Nil, Text(one), Text(other)}
  }

  /** An element that is accepted is one of the six names or a table of one of
      three shapes: a named container, or two halves on one axis; no other key,
      no mixture of them, no value out of its range. */
  lemma AcceptedIsSpelt(g: Graph, v: Value, depth: nat)
    requires Parse(g, v, depth).Some?
    ensures depth <= 64
    ensures v.Text? || v.Table?
    ensures v.Text? ==> v.text in {"queue", "stack", "full", "grid", "single", "empty"}
    ensures v.Table? ==>
              var t := TableOf(g, v);
              ContainerSpelt(t) || SplitSpelt(g, t, "left", "right") || SplitSpelt(g, t, "top", "bottom")
  {
    if v.Table? {
      var t := TableOf(g, v);
      match KindOf(t)
      case AContainer => ContainerAccepted(t);
      case ASplit(axis) => SplitAccepted(g, t, axis, depth);
    }
  }

  lemma ContainerAccepted(t: map<Value, Value>)
    requires ParseContainer(t).Some?
    ensures ContainerSpelt(t)
  {
  }

  lemma SplitAccepted(g: Graph, t: map<Value, Value>, axis: Axis, depth: nat)
    requires depth <= 64 && KindOf(t) == ASplit(axis) && ParsePair(g, t, axis, depth).Some?
    ensures if axis == Vertical then SplitSpelt(g, t, "left", "right") else SplitSpelt(g, t, "top", "bottom")
  {
    hide Parse;
  }

  /** And it is a layout the printer writes, unless a NaN got into its scales. */
  lemma {:induction false} ParsedIsPrintable(g: Graph, v: Value, depth: nat)
    requires Parse(g, v, depth).Some? && Sound(Parse(g, v, depth).value)
    ensures Printable(Parse(g, v, depth).value) && depth + Height(Parse(g, v, depth).value) <= 64
    decreases 65 - depth
  {
    if v.Table? {
      var t := TableOf(g, v);
      match KindOf(t)
      case AContainer =>
      case ASplit(axis) =>
        ParsedIsPrintable(g, At(t, FirstKey(axis)), depth + 1);
        ParsedIsPrintable(g, At(t, SecondKey(axis)), depth + 1);
    }
  }
}
