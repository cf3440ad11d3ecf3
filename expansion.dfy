/**
 * The expansion pass `processMacros` of plugin/macro/transformer.ts and the
 * registry dispatch `visitorImpl`. Macros are opaque: each is a function from the
 * call node to its output and the hoists it requests, in the order it requests them.
 */
module Expansion {
  import opened Options
  import opened Some
  import opened Syntax
  import opened Queries
  import opened Ledger

  /** What a macro returns: nothing, one replacement node, or an array of nodes. */
  datatype MacroOutput = NoNode | Single(node: Node) | Array(items: seq<Node>)

  /** One macro invocation: its output and the `hoist` calls it made, in order. */
  datatype Expansion = Expansion(output: MacroOutput, hoists: seq<HoistCall>)

  datatype MacroEntry = MacroEntry(name: string, expand: Node -> Expansion)

  /** The exported macros, in export order, which is the order `Object.entries` lists them. */
  type Registry = seq<MacroEntry>

  const MacroNames: seq<string> :=
    ["borrow", "$", "borrowMutable", "$$", "stack", "move", "local", "err", "ok", "return"]

  /** `reg` lists exactly the exported macro names, in export order. */
  predicate IsExportedRegistry(reg: Registry) {
    |reg| == |MacroNames| && forall i :: 0 <= i < |reg| ==> reg[i].name == MacroNames[i]
  }

  predicate DistinctNames(reg: Registry) {
    forall i, j :: 0 <= i < j < |reg| ==> reg[i].name != reg[j].name
  }

  lemma ExportedNamesDistinct(reg: Registry)
    requires IsExportedRegistry(reg)
    ensures DistinctNames(reg)
  {
    forall i, j | 0 <= i < j < |reg| ensures reg[i].name != reg[j].name {
      assert MacroNames[i] != MacroNames[j];
    }
  }

  /** The first registry entry whose name the call is written with. */
  function FirstMacro(reg: Registry, n: Node): (r: Option<nat>)
    requires IsMacroCall(n, Undefined)
    ensures r.Some? ==> r.value < |reg| && IsMacroCall(n, Value(reg[r.value].name))
    ensures r.Some? ==> forall j :: 0 <= j < r.value ==> !IsMacroCall(n, Value(reg[j].name))
    ensures r.None? ==> forall j :: 0 <= j < |reg| ==> !IsMacroCall(n, Value(reg[j].name))
  {
    if reg == [] then None
    else if IsMacroCall(n, Value(reg[0].name)) then Some(0)
    else match FirstMacro(reg[1..], n)
      case None => None
      case Some(k) => Some(k + 1)
  }

  /** `visitorImpl`'s answer: the first matching macro's expansion, or nothing. */
  function Dispatch(reg: Registry, n: Node): Option<Expansion>
    requires IsMacroCall(n, Undefined)
  {
    match FirstMacro(reg, n)
    case None => None
    case Some(i) => Some(reg[i].expand(n))
  }

  /**
   * `visitorImpl`: walk the entries in order, skip those whose name the call does
   * not carry, and run the first that matches.
   */
  method VisitorImpl(reg: Registry, n: Node) returns (r: Option<Expansion>)
    requires IsMacroCall(n, Undefined)
    ensures r == Dispatch(reg, n)
  {
    var i := 0;
    while i < |reg|
      invariant i <= |reg|
      invariant forall j :: 0 <= j < i ==> !IsMacroCall(n, Value(reg[j].name))
    {
      if !IsFunctionMacroCall(n, Value(reg[i].name)) && !IsMethodMacroCall(n, Value(reg[i].name)) {
        i := i + 1;
        continue;
      }
      FirstMacroIs(reg, n, i);
      return Some(reg[i].expand(n));
    }
    FirstMacroNone(reg, n);
    return None;
  }

  lemma {:induction false} FirstMacroIs(reg: Registry, n: Node, i: nat)
    requires IsMacroCall(n, Undefined)
    requires i < |reg| && IsMacroCall(n, Value(reg[i].name))
    requires forall j :: 0 <= j < i ==> !IsMacroCall(n, Value(reg[j].name))
    ensures FirstMacro(reg, n) == Some(i)
  {
    if i > 0 {
      FirstMacroIs(reg[1..], n, i - 1);
    }
  }

  lemma {:induction false} FirstMacroNone(reg: Registry, n: Node)
    requires IsMacroCall(n, Undefined)
    requires forall j :: 0 <= j < |reg| ==> !IsMacroCall(n, Value(reg[j].name))
    ensures FirstMacro(reg, n) == None
  {
    if reg != [] {
      FirstMacroNone(reg[1..], n);
    }
  }

  /** With the exported registry, a call written `name!(...)` runs the macro exported as `name`. */
  lemma RegisteredMacroRuns(reg: Registry, n: Node, i: nat)
    requires IsExportedRegistry(reg) && i < |reg|
    requires IsMacroCall(n, Undefined) && CalledName(n) == MacroNames[i]
    ensures FirstMacro(reg, n) == Some(i)
    ensures Dispatch(reg, n) == Some(reg[i].expand(n))
  {
    ExportedNamesDistinct(reg);
    MatchByName(n, MacroNames[i]);
    forall j | 0 <= j < i ensures !IsMacroCall(n, Value(reg[j].name)) {
      MatchByName(n, reg[j].name);
    }
    FirstMacroIs(reg, n, i);
  }

  /** A call whose name no entry carries is given no expansion. */
  lemma UnknownNameNotDispatched(reg: Registry, n: Node)
    requires IsMacroCall(n, Undefined)
    requires forall i :: 0 <= i < |reg| ==> reg[i].name != CalledName(n)
    ensures Dispatch(reg, n) == None
  {
    forall j | 0 <= j < |reg| ensures !IsMacroCall(n, Value(reg[j].name)) {
      MatchByName(n, reg[j].name);
    }
    FirstMacroNone(reg, n);
  }

  /** What `visit` returns for one node: nothing, one node, or an array. */
  datatype Visited = Removed | One(node: Node) | Several(nodes: seq<Node>)

  /**
   * A visit that finishes carries its value and the hoists made along the way, in
   * order. `Crashed` is the host compiler's assertion that a single-node slot
   * received several nodes; `OutOfFuel` marks re-expansion that went deeper than the
   * fuel allowed.
   */
  datatype Run<T> = Done(value: T, hoists: seq<HoistCall>) | OutOfFuel | Crashed

  /** How one visit result enters a `flatMap`: an array is spread, anything else is one element. */
  function Spread(v: Visited): seq<Nullable<Node>> {
    match v
    case Removed => [Undefined]
    case One(m) => [Value(m)]
    case Several(ns) => Values(ns)
  }

  /** How one visit result enters a list slot of its parent. */
  function Flatten(v: Visited): seq<Node> {
    match v
    case Removed => []
    case One(m) => [m]
    case Several(ns) => ns
  }

  /**
   * `processMacros`'s `visit`: children first, then, when the rebuilt node is a
   * macro call, the registry's macro; an array it returns is visited item by item
   * (with one unit of fuel less) and its missing items dropped.
   */
  function Visit(reg: Registry, n: Node, fuel: nat): Run<Visited>
    decreases fuel, n, 1
  {
    match VisitEachChild(reg, n, fuel)
    case OutOfFuel => OutOfFuel
    case Crashed => Crashed
    case Done(result, h1) =>
      if !IsMacroCall(result, Undefined) then Done(One(result), h1)
      else match Dispatch(reg, result)
        case None => Done(Removed, h1)
        case Some(e) =>
          match e.output
          case NoNode => Done(Removed, h1 + e.hoists)
          case Single(m) => Done(One(m), h1 + e.hoists)
          case Array(items) =>
            if items == [] then Done(Several([]), h1 + e.hoists)
            else if fuel == 0 then OutOfFuel
            else match VisitItems(reg, items, fuel - 1)
              case OutOfFuel => OutOfFuel
              case Crashed => Crashed
              case Done(rs, h2) => Done(Several(FilterSome(rs)), h1 + e.hoists + h2)
  }

  /** `visitorResult.flatMap(visit)`. */
  function VisitItems(reg: Registry, items: seq<Node>, fuel: nat): Run<seq<Nullable<Node>>>
    decreases fuel, items, 2
  {
    if items == [] then Done([], [])
    else match Visit(reg, items[0], fuel)
      case OutOfFuel => OutOfFuel
      case Crashed => Crashed
      case Done(v, h1) =>
        match VisitItems(reg, items[1..], fuel)
        case OutOfFuel => OutOfFuel
        case Crashed => Crashed
        case Done(rest, h2) => Done(Spread(v) + rest, h1 + h2)
  }

  /** `ts.visitEachChild`: every child list, then the body slot, which takes at most one node. */
  function VisitEachChild(reg: Registry, n: Node, fuel: nat): Run<Node>
    decreases fuel, n, 0
  {
    match VisitChildren(reg, n.children, fuel)
    case OutOfFuel => OutOfFuel
    case Crashed => Crashed
    case Done(cs, h1) =>
      if n.body.None? then Done(n.(children := cs), h1)
      else match Visit(reg, n.body.value, fuel)
        case OutOfFuel => OutOfFuel
        case Crashed => Crashed
        case Done(v, h2) =>
          var b := Flatten(v);
          if |b| > 1 then Crashed
          else Done(n.(children := cs, body := if b == [] then None else Some(b[0])), h1 + h2)
  }

  function VisitChildren(reg: Registry, cs: seq<Node>, fuel: nat): Run<seq<Node>>
    decreases fuel, cs, 2
  {
    if cs == [] then Done([], [])
    else match Visit(reg, cs[0], fuel)
      case OutOfFuel => OutOfFuel
      case Crashed => Crashed
      case Done(v, h1) =>
        match VisitChildren(reg, cs[1..], fuel)
        case OutOfFuel => OutOfFuel
        case Crashed => Crashed
        case Done(rest, h2) => Done(Flatten(v) + rest, h1 + h2)
  }

  /** No macro-call shape anywhere in the tree. */
  predicate MacroFree(n: Node)
    decreases n, 1
  {
    !IsMacroCall(n, Undefined) && AllMacroFree(n.children) &&
    (n.body.Some? ==> MacroFree(n.body.value))
  }

  predicate AllMacroFree(cs: seq<Node>)
    decreases cs, 0
  {
    cs != [] ==> MacroFree(cs[0]) && AllMacroFree(cs[1..])
  }

  /** A tree without macro calls comes back unchanged, with nothing hoisted, at any fuel. */
  lemma {:induction false} VisitMacroFree(reg: Registry, n: Node, fuel: nat)
    requires MacroFree(n)
    ensures Visit(reg, n, fuel) == Done(One(n), [])
    decreases n, 1
  {
    VisitEachChildMacroFree(reg, n, fuel);
  }

  lemma {:induction false} VisitEachChildMacroFree(reg: Registry, n: Node, fuel: nat)
    requires AllMacroFree(n.children) && (n.body.Some? ==> MacroFree(n.body.value))
    ensures VisitEachChild(reg, n, fuel) == Done(n, [])
    decreases n, 0
  {
    VisitChildrenMacroFree(reg, n.children, fuel);
    if n.body.Some? {
      VisitMacroFree(reg, n.body.value, fuel);
    }
  }

  lemma {:induction false} VisitChildrenMacroFree(reg: Registry, cs: seq<Node>, fuel: nat)
    requires AllMacroFree(cs)
    ensures VisitChildren(reg, cs, fuel) == Done(cs, [])
    decreases cs, 2
  {
    if cs != [] {
      VisitMacroFree(reg, cs[0], fuel);
      VisitChildrenMacroFree(reg, cs[1..], fuel);
      VisitChildrenStep(reg, cs, fuel);
    }
  }

  /** A list whose head and tail come back unchanged comes back unchanged. */
  lemma VisitChildrenStep(reg: Registry, cs: seq<Node>, fuel: nat)
    requires cs != []
    requires Visit(reg, cs[0], fuel) == Done(One(cs[0]), [])
    requires VisitChildren(reg, cs[1..], fuel) == Done(cs[1..], [])
    ensures VisitChildren(reg, cs, fuel) == Done(cs, [])
  {
    assert Flatten(One(cs[0])) + cs[1..] == cs;
  }

  /**
   * A macro call whose name no entry carries is deleted once its children are
   * visited: `visitorImpl` finds nothing and `visit` returns nothing, yet the hoists
   * made while visiting the call's arguments stay.
   */
  lemma UnregisteredCallRemoved(reg: Registry, n: Node, fuel: nat, c: Node, h: seq<HoistCall>)
    requires VisitEachChild(reg, n, fuel) == Done(c, h)
    requires Unregistered(reg, c)
    ensures Visit(reg, n, fuel) == Done(Removed, h)
  {
    UnknownNameNotDispatched(reg, c);
  }

  /** A call with the macro shape whose name no registry entry carries. */
  predicate Unregistered(reg: Registry, c: Node) {
    IsMacroCall(c, Undefined) && forall i :: 0 <= i < |reg| ==> reg[i].name != CalledName(c)
  }

  /**
   * `unknown!(arg)` where visiting `arg` hoists `hs`, as a registered macro call
   * does (`RegisteredCallExpanded`): the outer call is deleted, but `hs` survive it.
   */
  lemma NestedHoistsSurviveRemoval(reg: Registry, fuel: nat, call: nat, bang: nat, callee: nat, name: string,
                                   arg: Node, m: Node, hs: seq<HoistCall>)
    requires forall j :: 0 <= j < |reg| ==> reg[j].name != name
    requires Visit(reg, arg, fuel) == Done(One(m), hs)
    ensures Visit(reg, FunctionMacroCallSyntax(call, bang, callee, name, [arg]), fuel) == Done(Removed, hs)
  {
    var c := FunctionMacroCallSyntax(call, bang, callee, name, [m]);
    ArgumentVisited(reg, fuel, call, bang, callee, name, arg, m, hs);
    StillUnregistered(reg, call, bang, callee, name, m);
    UnregisteredCallRemoved(reg, FunctionMacroCallSyntax(call, bang, callee, name, [arg]), fuel, c, hs);
  }

  /** Visiting the children of `name!(arg)` rebuilds it around what `arg` became. */
  lemma ArgumentVisited(reg: Registry, fuel: nat, call: nat, bang: nat, callee: nat, name: string,
                        arg: Node, m: Node, hs: seq<HoistCall>)
    requires Visit(reg, arg, fuel) == Done(One(m), hs)
    ensures VisitEachChild(reg, FunctionMacroCallSyntax(call, bang, callee, name, [arg]), fuel) ==
      Done(FunctionMacroCallSyntax(call, bang, callee, name, [m]), hs)
  {
    var n := FunctionMacroCallSyntax(call, bang, callee, name, [arg]);
    var b := n.children[0];
    CalleeUnchanged(reg, fuel, bang, callee, name);
    TwoChildren(reg, fuel, b, arg, b, m, [], hs);
    assert n.children == [b, arg] && [] + hs == hs;
    NoBodyVisit(reg, n, fuel, [b, m], hs);
    assert n.(children := [b, m]) == FunctionMacroCallSyntax(call, bang, callee, name, [m]);
  }

  /** The callee `name!` of a function-style call holds no macro call, so it comes back as it is. */
  lemma CalleeUnchanged(reg: Registry, fuel: nat, bang: nat, callee: nat, name: string)
    ensures var b := Node(Parsed(bang), NonNullExpression, "", false, [Leaf(Parsed(callee), Identifier, name)], None);
      Visit(reg, b, fuel) == Done(One(b), [])
  {
    var b := Node(Parsed(bang), NonNullExpression, "", false, [Leaf(Parsed(callee), Identifier, name)], None);
    assert MacroFree(b) by {
      assert MacroFree(b.children[0]);
    }
    VisitMacroFree(reg, b, fuel);
  }

  lemma StillUnregistered(reg: Registry, call: nat, bang: nat, callee: nat, name: string, m: Node)
    requires forall j :: 0 <= j < |reg| ==> reg[j].name != name
    ensures Unregistered(reg, FunctionMacroCallSyntax(call, bang, callee, name, [m]))
  {
    MacroCallShapes(name, [m], [call, bang, callee, 0]);
  }

  /** Two children that each come back as one node come back as those two nodes, hoists in order. */
  lemma TwoChildren(reg: Registry, fuel: nat, a: Node, b: Node, a': Node, b': Node, ha: seq<HoistCall>, hb: seq<HoistCall>)
    requires Visit(reg, a, fuel) == Done(One(a'), ha) && Visit(reg, b, fuel) == Done(One(b'), hb)
    ensures VisitChildren(reg, [a, b], fuel) == Done([a', b'], ha + hb)
  {
    ChildrenCons(reg, b, [], fuel, b', hb, [], []);
    assert [b] + [] == [b] && [b'] + [] == [b'] && hb + [] == hb;
    ChildrenCons(reg, a, [b], fuel, a', ha, [b'], hb);
    assert [a] + [b] == [a, b] && [a'] + [b'] == [a', b'];
  }

  /** One step of `visitEachChild` over a list whose head comes back as one node. */
  lemma ChildrenCons(reg: Registry, x: Node, xs: seq<Node>, fuel: nat, x': Node, h1: seq<HoistCall>,
                     rest: seq<Node>, h2: seq<HoistCall>)
    requires Visit(reg, x, fuel) == Done(One(x'), h1)
    requires VisitChildren(reg, xs, fuel) == Done(rest, h2)
    ensures VisitChildren(reg, [x] + xs, fuel) == Done([x'] + rest, h1 + h2)
  {
    assert ([x] + xs)[0] == x && ([x] + xs)[1..] == xs;
    assert Flatten(One(x')) == [x'];
  }

  /** A node without a body is rebuilt from its visited children. */
  lemma NoBodyVisit(reg: Registry, n: Node, fuel: nat, cs: seq<Node>, h: seq<HoistCall>)
    requires n.body.None? && VisitChildren(reg, n.children, fuel) == Done(cs, h)
    ensures VisitEachChild(reg, n, fuel) == Done(n.(children := cs), h)
  {
  }

  /**
   * A registered call over macro-free arguments is replaced by what its macro
   * returns, after the macro's hoists; a single returned node is not visited again.
   */
  lemma RegisteredCallExpanded(reg: Registry, n: Node, fuel: nat, i: nat)
    requires IsExportedRegistry(reg) && i < |reg|
    requires IsMacroCall(n, Undefined) && CalledName(n) == MacroNames[i]
    requires AllMacroFree(n.children) && (n.body.Some? ==> MacroFree(n.body.value))
    requires reg[i].expand(n).output.Single?
    ensures Visit(reg, n, fuel) == Done(One(reg[i].expand(n).output.node), reg[i].expand(n).hoists)
  {
    VisitEachChildMacroFree(reg, n, fuel);
    RegisteredMacroRuns(reg, n, i);
  }

  /**
   * A registered call whose macro returns an array of macro-free nodes becomes
   * those nodes, in order; an empty array is passed up as it is, so the parent
   * list loses the call's slot.
   */
  lemma RegisteredCallArray(reg: Registry, n: Node, fuel: nat, i: nat)
    requires IsExportedRegistry(reg) && i < |reg|
    requires IsMacroCall(n, Undefined) && CalledName(n) == MacroNames[i]
    requires AllMacroFree(n.children) && (n.body.Some? ==> MacroFree(n.body.value))
    requires reg[i].expand(n).output.Array?
    requires AllMacroFree(reg[i].expand(n).output.items)
    requires reg[i].expand(n).output.items != [] ==> fuel > 0
    ensures Visit(reg, n, fuel) == Done(Several(reg[i].expand(n).output.items), reg[i].expand(n).hoists)
  {
    var e := reg[i].expand(n);
    VisitEachChildMacroFree(reg, n, fuel);
    RegisteredMacroRuns(reg, n, i);
    MacroFreeArray(reg, n, fuel, e, e.output.items);
  }

  lemma MacroFreeArray(reg: Registry, n: Node, fuel: nat, e: Expansion, items: seq<Node>)
    requires CallDispatched(reg, n, fuel, n, [], e)
    requires e.output == Array(items) && AllMacroFree(items) && (items != [] ==> fuel > 0)
    ensures Visit(reg, n, fuel) == Done(Several(items), e.hoists)
  {
    if items == [] {
      DispatchedCall(reg, n, fuel, n, [], e);
      assert [] + e.hoists == e.hoists;
    } else {
      MacroFreeItems(reg, n, fuel, e, items, fuel - 1);
    }
  }

  lemma MacroFreeItems(reg: Registry, n: Node, fuel: nat, e: Expansion, items: seq<Node>, less: nat)
    requires CallDispatched(reg, n, fuel, n, [], e)
    requires e.output == Array(items) && items != [] && AllMacroFree(items) && fuel == less + 1
    ensures Visit(reg, n, fuel) == Done(Several(items), e.hoists)
  {
    ArrayRevisited(reg, n, fuel, n, [], e, items, less);
    AfterDispatchArray(reg, e, [], fuel, items, less);
    VisitChildrenMacroFree(reg, items, less);
    assert [] + e.hoists + [] == e.hoists;
  }

  /** Array items without macro calls all survive, in order, with nothing hoisted. */
  lemma {:induction false} VisitPlainItems(reg: Registry, items: seq<Node>, fuel: nat)
    requires AllMacroFree(items)
    ensures VisitItems(reg, items, fuel) == Done(Values(items), [])
    ensures FilterSome(Values(items)) == items
    decreases items
  {
    FilterSomeKeepsValues(items);
    if items != [] {
      VisitMacroFree(reg, items[0], fuel);
      VisitPlainItems(reg, items[1..], fuel);
      VisitItemsStep(reg, items, fuel);
    }
  }

  /** An array whose head comes back as itself and whose tail comes back whole comes back whole. */
  lemma VisitItemsStep(reg: Registry, items: seq<Node>, fuel: nat)
    requires items != []
    requires Visit(reg, items[0], fuel) == Done(One(items[0]), [])
    requires VisitItems(reg, items[1..], fuel) == Done(Values(items[1..]), [])
    ensures VisitItems(reg, items, fuel) == Done(Values(items), [])
  {
    assert Spread(One(items[0])) + Values(items[1..]) == Values(items);
  }

  /** What `filter(some)` makes of a finished `flatMap(visit)`; failures pass through. */
  function Filtered(r: Run<seq<Nullable<Node>>>): Run<seq<Node>> {
    match r
    case Done(rs, h) => Done(FilterSome(rs), h)
    case OutOfFuel => OutOfFuel
    case Crashed => Crashed
  }

  /** Spreading a visit result and dropping its missing entries is how a list slot takes it. */
  lemma SpreadThenFilter(v: Visited)
    ensures FilterSome(Spread(v)) == Flatten(v)
  {
    if v.Several? {
      FilterSomeKeepsValues(v.nodes);
    }
  }

  /**
   * `flatMap(visit).filter(some)` over a macro's array visits the items exactly as
   * `visitEachChild` visits a child list: same nodes, same order, same hoists, and
   * the same failures.
   */
  lemma {:induction false} ItemsAsList(reg: Registry, items: seq<Node>, fuel: nat)
    ensures VisitChildren(reg, items, fuel) == Filtered(VisitItems(reg, items, fuel))
    decreases items
  {
    if items != [] {
      ItemsAsList(reg, items[1..], fuel);
      var first := Visit(reg, items[0], fuel);
      var rest := VisitItems(reg, items[1..], fuel);
      if first.Done? && rest.Done? {
        ItemsStep(reg, items, fuel, first.value, first.hoists, rest.value, rest.hoists);
      }
    }
  }

  lemma ItemsStep(reg: Registry, items: seq<Node>, fuel: nat,
                  v: Visited, h1: seq<HoistCall>, rs: seq<Nullable<Node>>, h2: seq<HoistCall>)
    requires items != []
    requires Visit(reg, items[0], fuel) == Done(v, h1)
    requires VisitItems(reg, items[1..], fuel) == Done(rs, h2)
    requires VisitChildren(reg, items[1..], fuel) == Done(FilterSome(rs), h2)
    ensures VisitChildren(reg, items, fuel) == Filtered(VisitItems(reg, items, fuel))
  {
    FilterSomeAppend(Spread(v), rs);
    SpreadThenFilter(v);
  }

  /**
   * What a dispatched call becomes, stated through child-list visits: the macro's
   * output after the hoists `h` of its arguments and then the macro's own; a
   * non-empty array is visited again with one unit of fuel less, as a child list.
   */
  function AfterDispatch(reg: Registry, e: Expansion, h: seq<HoistCall>, fuel: nat): Run<Visited> {
    match e.output
    case NoNode => Done(Removed, h + e.hoists)
    case Single(m) => Done(One(m), h + e.hoists)
    case Array(items) =>
      if items == [] then Done(Several([]), h + e.hoists)
      else if fuel == 0 then OutOfFuel
      else AsSeveral(VisitChildren(reg, items, fuel - 1), h + e.hoists)
  }

  /** A finished child-list visit of a macro's array, as the call's result after the hoists `h`. */
  function AsSeveral(r: Run<seq<Node>>, h: seq<HoistCall>): Run<Visited> {
    match r
    case Done(cs, h2) => Done(Several(cs), h + h2)
    case OutOfFuel => OutOfFuel
    case Crashed => Crashed
  }

  /**
   * Once its children are visited, a call the registry dispatches is replaced as
   * `AfterDispatch` says: `flatMap(visit).filter(some)` spreads and strips a
   * returned array exactly as a parent's list slot would.
   */
  lemma DispatchedCall(reg: Registry, n: Node, fuel: nat, c: Node, h: seq<HoistCall>, e: Expansion)
    requires CallDispatched(reg, n, fuel, c, h, e)
    ensures Visit(reg, n, fuel) == AfterDispatch(reg, e, h, fuel)
  {
    if e.output.Array? && e.output.items != [] && fuel > 0 {
      ArrayRevisited(reg, n, fuel, c, h, e, e.output.items, fuel - 1);
    } else {
      DirectOutput(reg, n, fuel, c, h, e);
    }
  }

  lemma DirectOutput(reg: Registry, n: Node, fuel: nat, c: Node, h: seq<HoistCall>, e: Expansion)
    requires CallDispatched(reg, n, fuel, c, h, e)
    requires !(e.output.Array? && e.output.items != [] && fuel > 0)
    ensures Visit(reg, n, fuel) == AfterDispatch(reg, e, h, fuel)
  {
  }

  /** The rebuilt call `c`, reached with hoists `h`, is dispatched to `e`. */
  predicate CallDispatched(reg: Registry, n: Node, fuel: nat, c: Node, h: seq<HoistCall>, e: Expansion) {
    VisitEachChild(reg, n, fuel) == Done(c, h) && IsMacroCall(c, Undefined) && Dispatch(reg, c) == Some(e)
  }

  lemma ArrayRevisited(reg: Registry, n: Node, fuel: nat, c: Node, h: seq<HoistCall>, e: Expansion,
                       items: seq<Node>, less: nat)
    requires CallDispatched(reg, n, fuel, c, h, e)
    requires e.output == Array(items) && items != [] && fuel == less + 1
    ensures Visit(reg, n, fuel) == AfterDispatch(reg, e, h, fuel)
  {
    AfterDispatchArray(reg, e, h, fuel, items, less);
    ItemsAsList(reg, items, less);
    ArrayUnfold(reg, n, fuel, c, h, e, items, less);
    FilteredAsSeveral(VisitItems(reg, items, less), h, e.hoists);
  }

  lemma AfterDispatchArray(reg: Registry, e: Expansion, h: seq<HoistCall>, fuel: nat, items: seq<Node>, less: nat)
    requires e.output == Array(items) && items != [] && fuel == less + 1
    ensures AfterDispatch(reg, e, h, fuel) == AsSeveral(VisitChildren(reg, items, less), h + e.hoists)
  {
  }

  lemma ArrayUnfold(reg: Registry, n: Node, fuel: nat, c: Node, h: seq<HoistCall>, e: Expansion,
                    items: seq<Node>, less: nat)
    requires CallDispatched(reg, n, fuel, c, h, e)
    requires e.output == Array(items) && items != [] && fuel == less + 1
    ensures Visit(reg, n, fuel) ==
      match VisitItems(reg, items, less)
      case Done(rs, h2) => Done(Several(FilterSome(rs)), h + e.hoists + h2)
      case OutOfFuel => OutOfFuel
      case Crashed => Crashed
  {
  }

  lemma FilteredAsSeveral(r: Run<seq<Nullable<Node>>>, h: seq<HoistCall>, h1: seq<HoistCall>)
    ensures AsSeveral(Filtered(r), h + h1) ==
      match r
      case Done(rs, h2) => Done(Several(FilterSome(rs)), h + h1 + h2)
      case OutOfFuel => OutOfFuel
      case Crashed => Crashed
  {
  }

  /** The visit keeps a node's kind unless it is a call, the only kind a macro can replace. */
  lemma KindKept(reg: Registry, n: Node, fuel: nat)
    requires n.kind != CallExpression
    ensures Visit(reg, n, fuel).Done? ==>
      Visit(reg, n, fuel).value.One? && Visit(reg, n, fuel).value.node.kind == n.kind
  {
  }
}
