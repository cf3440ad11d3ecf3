/**
 * The hoist materializer `processHoists` of plugin/macro/transformer.ts: anchor
 * resolution for each origin, the per-destination splice loop, and the
 * bottom-up walk that applies it to every live destination.
 */
module Hoists {
  import opened Options
  import opened Seqs
  import opened Syntax
  import opened Queries
  import opened OrderedMaps
  import opened Ledger
  import opened Splice

  /**
   * The host compiler's statement test, for the kinds of this model. A block is a
   * statement unless it is the body of a function-like declaration or belongs to a
   * `try` statement or `catch` clause.
   */
  predicate IsStatement(n: Node, parent: Option<Node>) {
    match n.kind
    case VariableStatement | ExpressionStatement | ReturnStatement | IfStatement
       | TryStatement | OtherStatement | FunctionDeclaration | ClassDeclaration | ModuleDeclaration => true
    case Block =>
      !(parent.Some? &&
        (parent.value.kind == TryStatement || parent.value.kind == CatchClause ||
         IsFunctionLikeDeclaration(parent.value)))
    case _ => false
  }

  /** Whether `path[j]` is a statement, judged with its parent `path[j + 1]`, if any. */
  predicate StatementAt(path: seq<Node>, j: nat)
    requires j < |path|
  {
    IsStatement(path[j], if j + 1 < |path| then Some(path[j + 1]) else None)
  }

  /** `path[k]` is a proper ancestor that is a destination whose original is `dest`. */
  predicate DestinationAt(path: seq<Node>, k: nat, dest: NodeId) {
    1 <= k < |path| && IsMacroHoistableDestination(path[k]) && path[k].orig == dest
  }

  /** The nearest proper ancestor at or above `path[i]` that is the destination. */
  function FirstDestinationFrom(path: seq<Node>, dest: NodeId, i: nat): (r: Option<nat>)
    requires 1 <= i
    ensures r.Some? ==> i <= r.value && DestinationAt(path, r.value, dest)
    ensures r.Some? ==> forall k :: i <= k < r.value ==> !DestinationAt(path, k, dest)
    ensures r.None? ==> forall k :: i <= k < |path| ==> !DestinationAt(path, k, dest)
    decreases |path| - i
  {
    if i >= |path| then None
    else if DestinationAt(path, i, dest) then Some(i)
    else FirstDestinationFrom(path, dest, i + 1)
  }

  lemma {:induction false} FirstDestinationFromIs(path: seq<Node>, dest: NodeId, m: nat, i: nat)
    requires 1 <= m <= i && DestinationAt(path, i, dest)
    requires forall k :: m <= k < i ==> !DestinationAt(path, k, dest)
    ensures FirstDestinationFrom(path, dest, m) == Some(i)
    decreases i - m
  {
    if m < i {
      FirstDestinationFromIs(path, dest, m + 1, i);
    }
  }

  /** The position on the path of the nearest ancestor that is the destination. */
  function FirstDestination(path: seq<Node>, dest: NodeId): Option<nat> {
    FirstDestinationFrom(path, dest, 1)
  }

  /** The statement furthest up the path strictly below position `k`: the outermost one. */
  function LastStatementBelow(path: seq<Node>, k: nat): (r: Option<nat>)
    requires k <= |path|
    ensures r.Some? ==> r.value < k && StatementAt(path, r.value)
    ensures r.Some? ==> forall j :: r.value < j < k ==> !StatementAt(path, j)
    ensures r.None? ==> forall j :: 0 <= j < k ==> !StatementAt(path, j)
  {
    if k == 0 then None
    else if StatementAt(path, k - 1) then Some(k - 1)
    else LastStatementBelow(path, k - 1)
  }

  /**
   * The list `indexOf` searches: a function's block body's statements, else the
   * node's own statement list, else nothing.
   */
  function StatementsOf(n: Node): seq<Node> {
    if n.body.Some? && n.body.value.kind == Block then n.body.value.children
    else if n.kind == SourceFile || n.kind == Block || n.kind == ModuleBlock then n.children
    else []
  }

  /**
   * A group's anchor: the index, in the destination ancestor's statement list, of
   * the outermost statement between the origin and that ancestor. None when the
   * ancestor is not on the path, no statement was passed, or the statement is not
   * in the list.
   */
  function AnchorOf(path: seq<Node>, dest: NodeId): Option<nat> {
    match FirstDestination(path, dest)
    case None => None
    case Some(k) =>
      match LastStatementBelow(path, k)
      case None => None
      case Some(j) => IndexOf(StatementsOf(path[k]), path[j])
  }

  /** A resolved anchor names, in the ancestor's list, the outermost statement between origin and destination. */
  lemma AnchorNamesOutermostStatement(path: seq<Node>, dest: NodeId)
    requires AnchorOf(path, dest).Some?
    ensures exists k: nat, j: nat ::
      (j < k < |path| &&
       DestinationAt(path, k, dest) && StatementAt(path, j) &&
       (forall m :: 1 <= m < k ==> !DestinationAt(path, m, dest)) &&
       (forall m :: j < m < k ==> !StatementAt(path, m)) &&
       AnchorOf(path, dest).value < |StatementsOf(path[k])| &&
       StatementsOf(path[k])[AnchorOf(path, dest).value] == path[j])
  {
    var k := FirstDestination(path, dest).value;
    var j := LastStatementBelow(path, k).value;
    assert j < k < |path| && DestinationAt(path, k, dest) && StatementAt(path, j);
  }

  /** No destination above, or no statement on the way: the group is unresolved. */
  lemma UnresolvedCases(path: seq<Node>, dest: NodeId)
    ensures (forall k :: 1 <= k < |path| ==> !DestinationAt(path, k, dest)) ==> AnchorOf(path, dest).None?
    ensures (forall j :: 0 <= j < |path| ==> !StatementAt(path, j)) ==> AnchorOf(path, dest).None?
  {
    if FirstDestination(path, dest).Some? {
      assert DestinationAt(path, FirstDestination(path, dest).value, dest);
      var k := FirstDestination(path, dest).value;
      if LastStatementBelow(path, k).Some? {
        assert StatementAt(path, LastStatementBelow(path, k).value);
      }
    }
  }

  /**
   * The walk of `processHoists` from an origin up its parents: remember each
   * statement passed, stop at the first ancestor that is the destination, and
   * look the last statement remembered up in that ancestor's list.
   */
  method ResolveAnchor(source: Origin, dest: NodeId) returns (anchor: Option<nat>)
    ensures anchor == AnchorOf(source.Path(), dest)
  {
    var path := source.Path();
    var i := 0;
    var statement: Option<nat> := None;
    while true
      invariant 0 <= i < |path|
      invariant statement == LastStatementBelow(path, i)
      invariant forall k :: 1 <= k <= i ==> !DestinationAt(path, k, dest)
      decreases |path| - i
    {
      if StatementAt(path, i) {
        statement := Some(i);
      }
      if i + 1 >= |path| {
        NoDestinationNoAnchor(path, dest);
        return None;
      }
      i := i + 1;
      if !IsMacroHoistableDestination(path[i]) {
        continue;
      }
      if path[i].orig != dest {
        continue;
      }
      AnchorAtDestination(path, dest, i);
      match statement {
        case None => return None;
        case Some(j) => return IndexOf(StatementsOf(path[i]), path[j]);
      }
    }
  }

  lemma NoDestinationNoAnchor(path: seq<Node>, dest: NodeId)
    requires forall k :: 1 <= k < |path| ==> !DestinationAt(path, k, dest)
    ensures AnchorOf(path, dest) == None
  {
  }

  /** Once the walk reaches the first matching ancestor, the anchor is read off the statement last passed. */
  lemma AnchorAtDestination(path: seq<Node>, dest: NodeId, i: nat)
    requires DestinationAt(path, i, dest)
    requires forall k :: 1 <= k < i ==> !DestinationAt(path, k, dest)
    ensures AnchorOf(path, dest) ==
      match LastStatementBelow(path, i)
      case None => None
      case Some(j) => IndexOf(StatementsOf(path[i]), path[j])
  {
    FirstDestinationFromIs(path, dest, 1, i);
  }

  /** `[...sourceNodes.entries()].map(...)`: each origin's statements with its anchor. */
  function GroupsOf(sources: Sources, dest: NodeId): (gs: seq<Group<Node>>)
    ensures |gs| == |sources|
    ensures forall i :: 0 <= i < |sources| ==> gs[i] == Group(AnchorOf(sources[i].0.Path(), dest), sources[i].1)
  {
    seq(|sources|, i requires 0 <= i < |sources| => Group(AnchorOf(sources[i].0.Path(), dest), sources[i].1))
  }

  /** A block built by the factory. */
  function BlockOf(stmts: seq<Node>): Node {
    Node(Synthesized, Block, "", false, stmts, None)
  }

  /** `return <e>;` built by the factory. */
  function ReturnOf(e: Node): Node {
    Node(Synthesized, ReturnStatement, "", false, [e], None)
  }

  /** One pass of the `for…of` loop: the destination after splicing one group. */
  function ApplyGroup(d: Node, g: Group<Node>): Node {
    if IsFunctionLikeDeclaration(d) then
      if d.body.None? then d
      else if d.kind == ArrowFunction && d.body.value.kind != Block then
        d.(body := Some(BlockOf(g.stmts + [ReturnOf(d.body.value)])))
      else
        var b := d.body.value;
        d.(body := Some(b.(children := SpliceAt(b.children, InsertionIndex(g), g.stmts))))
    else if d.kind == SourceFile || d.kind == ModuleBlock || d.kind == Block then
      d.(children := SpliceAt(d.children, InsertionIndex(g), g.stmts))
    else d
  }

  /** The destination after the loop has gone through the groups of `s` in order. */
  function ApplyAll(d: Node, s: seq<Group<Node>>): Node {
    if s == [] then d else ApplyGroup(ApplyAll(d, s[..|s| - 1]), s[|s| - 1])
  }

  /** A destination with its groups resolved, sorted and spliced. */
  function Materialize(d: Node, sources: Sources): Node {
    ApplyAll(d, SortDesc(GroupsOf(sources, d.orig)))
  }

  /** The `.map` over the destination's entries: each origin's anchor, resolved in entry order. */
  method IndexGroups(sources: Sources, dest: NodeId) returns (indexed: seq<Group<Node>>)
    ensures indexed == GroupsOf(sources, dest)
  {
    indexed := [];
    var i := 0;
    while i < |sources|
      invariant i <= |sources|
      invariant indexed == GroupsOf(sources, dest)[..i]
    {
      var anchor := ResolveAnchor(sources[i].0, dest);
      indexed := indexed + [Group(anchor, sources[i].1)];
      i := i + 1;
    }
  }

  /** The `for…of` loop: splice group after group, reassigning the destination. */
  method SpliceGroups(destination: Node, sorted: seq<Group<Node>>) returns (r: Node)
    ensures r == ApplyAll(destination, sorted)
  {
    r := destination;
    var n := 0;
    while n < |sorted|
      invariant n <= |sorted|
      invariant r == ApplyAll(destination, sorted[..n])
    {
      assert sorted[..n + 1][..n] == sorted[..n];
      r := ApplyGroup(r, sorted[n]);
      n := n + 1;
    }
    assert sorted[..n] == sorted;
  }

  /** The body of `processHoists`'s visitor for one live destination: resolve, sort, splice. */
  method MaterializeDestination(destination: Node, sources: Sources) returns (r: Node)
    ensures r == Materialize(destination, sources)
  {
    var indexed := IndexGroups(sources, destination.orig);
    r := SpliceGroups(destination, SortDesc(indexed));
  }

  /** `processHoists`'s visitor: children first, then splice into the node if it is a destination with pending groups. */
  function HoistTree(n: Node, l: Ledger): Node
    decreases n, 1
  {
    var r := n.(children := HoistChildren(n.children, l), body := HoistBody(n.body, l));
    if !IsMacroHoistableDestination(r) then r
    else match Get(l, r.orig)
      case None => r
      case Some(sources) => Materialize(r, sources)
  }

  function HoistChildren(cs: seq<Node>, l: Ledger): (r: seq<Node>)
    ensures |r| == |cs|
    decreases cs, 2
  {
    if cs == [] then [] else [HoistTree(cs[0], l)] + HoistChildren(cs[1..], l)
  }

  function HoistBody(b: Option<Node>, l: Ledger): Option<Node>
    decreases b, 2
  {
    match b
    case None => None
    case Some(x) => Some(HoistTree(x, l))
  }

  /** With an empty ledger the walk changes nothing, which is why `processHoists` may return its input. */
  lemma {:induction false} HoistTreeEmpty(n: Node)
    ensures HoistTree(n, []) == n
    decreases n, 1
  {
    HoistChildrenEmpty(n.children);
    if n.body.Some? {
      HoistTreeEmpty(n.body.value);
    }
  }

  lemma {:induction false} HoistChildrenEmpty(cs: seq<Node>)
    ensures HoistChildren(cs, []) == cs
    decreases cs, 2
  {
    if cs != [] {
      HoistTreeEmpty(cs[0]);
      HoistChildrenEmpty(cs[1..]);
    }
  }

  /** The walk as `ts.visitEachChild` performs it: each child, then the body, then the node itself. */
  method VisitHoists(n: Node, l: Ledger) returns (r: Node)
    ensures r == HoistTree(n, l)
    decreases n, 1
  {
    var children := VisitHoistChildren(n.children, l);
    var body: Option<Node> := None;
    if n.body.Some? {
      var b := VisitHoists(n.body.value, l);
      body := Some(b);
    }
    r := n.(children := children, body := body);
    if !IsMacroHoistableDestination(r) {
      return;
    }
    match Get(l, r.orig) {
      case None =>
      case Some(sources) =>
        r := MaterializeDestination(r, sources);
    }
  }

  method VisitHoistChildren(cs: seq<Node>, l: Ledger) returns (r: seq<Node>)
    ensures r == HoistChildren(cs, l)
    decreases cs, 2
  {
    r := [];
    var i := 0;
    while i < |cs|
      invariant i <= |cs|
      invariant r + HoistChildren(cs[i..], l) == HoistChildren(cs, l)
    {
      var c := VisitHoists(cs[i], l);
      assert cs[i..][1..] == cs[i + 1..];
      r := r + [c];
      i := i + 1;
    }
  }

  /** A statement-list destination: every group goes into its own list. */
  lemma {:induction false} ApplyAllList(d: Node, s: seq<Group<Node>>)
    requires d.kind == SourceFile || d.kind == ModuleBlock || d.kind == Block
    ensures ApplyAll(d, s) == d.(children := ApplyGroups(d.children, s))
  {
    if s != [] {
      ApplyAllList(d, s[..|s| - 1]);
    }
  }

  /** A function-like destination with a block body: every group goes into the body's statements. */
  lemma {:induction false} ApplyAllBody(d: Node, s: seq<Group<Node>>)
    requires IsFunctionLikeDeclaration(d) && d.body.Some?
    requires d.kind != ArrowFunction || d.body.value.kind == Block
    ensures ApplyAll(d, s) == d.(body := Some(d.body.value.(children := ApplyGroups(d.body.value.children, s))))
  {
    if s != [] {
      ApplyAllBody(d, s[..|s| - 1]);
    }
  }

  /** A function-like destination without a body is skipped by every pass. */
  lemma {:induction false} ApplyAllNoBody(d: Node, s: seq<Group<Node>>)
    requires IsFunctionLikeDeclaration(d) && d.body.None?
    ensures ApplyAll(d, s) == d
  {
    if s != [] {
      ApplyAllNoBody(d, s[..|s| - 1]);
    }
  }

  /** The loop read from the front: the first group, then the rest on the result. */
  lemma {:induction false} ApplyAllFront(d: Node, s: seq<Group<Node>>)
    requires s != []
    ensures ApplyAll(d, s) == ApplyAll(ApplyGroup(d, s[0]), s[1..])
  {
    if |s| > 1 {
      var p := s[..|s| - 1];
      ApplyAllFront(d, p);
      assert p[1..] == s[1..][..|s[1..]| - 1];
      assert p[0] == s[0];
    } else {
      assert s[..|s| - 1] == [];
    }
  }

  /**
   * The ordering theorem at a statement-list destination: when every anchor lies
   * within the live list, unresolved groups come first and every statement is
   * preceded by the groups anchored at it, latest registered first.
   */
  lemma MaterializeList(d: Node, sources: Sources)
    requires d.kind == SourceFile || d.kind == ModuleBlock || d.kind == Block
    requires AnchorsWithin(GroupsOf(sources, d.orig), |d.children|)
    ensures Materialize(d, sources) == d.(children := Expected(d.children, GroupsOf(sources, d.orig)))
  {
    var gs := GroupsOf(sources, d.orig);
    ApplyAllList(d, SortDesc(gs));
    MaterializedOrder(d.children, gs);
  }

  /** The ordering theorem at a function-like destination whose body is a block. */
  lemma MaterializeBody(d: Node, sources: Sources)
    requires IsFunctionLikeDeclaration(d) && d.body.Some?
    requires d.kind != ArrowFunction || d.body.value.kind == Block
    requires AnchorsWithin(GroupsOf(sources, d.orig), |d.body.value.children|)
    ensures Materialize(d, sources) ==
      d.(body := Some(d.body.value.(children := Expected(d.body.value.children, GroupsOf(sources, d.orig)))))
  {
    var gs := GroupsOf(sources, d.orig);
    ApplyAllBody(d, SortDesc(gs));
    MaterializedOrder(d.body.value.children, gs);
  }

  /**
   * An arrow function with an expression body and at least one group becomes a
   * block: the groups' statements in their intended order, then `return <expression>`.
   */
  lemma MaterializeExpressionArrow(d: Node, sources: Sources)
    requires d.kind == ArrowFunction && d.body.Some? && d.body.value.kind != Block
    requires sources != []
    requires AnchorsWithin(GroupsOf(sources, d.orig), 1)
    ensures Materialize(d, sources) ==
      d.(body := Some(BlockOf(Expected([ReturnOf(d.body.value)], GroupsOf(sources, d.orig)))))
  {
    var gs := GroupsOf(sources, d.orig);
    var s := SortDesc(gs);
    var ret := [ReturnOf(d.body.value)];
    SortedHeadAtFront(gs);
    var front := SpliceAt(ret, InsertionIndex(s[0]), s[0].stmts);
    var first := d.(body := Some(BlockOf(front)));
    ArrowFirstGroup(d, s[0]);
    ApplyAllFront(d, s);
    ApplyAllBody(first, s[1..]);
    ApplyGroupsFront(ret, s);
    MaterializedOrder(ret, gs);
  }

  /** The first pass over an expression-bodied arrow wraps the expression in a block, after the group. */
  lemma ArrowFirstGroup(d: Node, g: Group<Node>)
    requires d.kind == ArrowFunction && d.body.Some? && d.body.value.kind != Block
    requires InsertionIndex(g) == 0
    ensures ApplyGroup(d, g) == d.(body := Some(BlockOf(SpliceAt([ReturnOf(d.body.value)], InsertionIndex(g), g.stmts))))
  {
    var ret := [ReturnOf(d.body.value)];
    assert ret[..0] == [] && ret[0..] == ret;
    assert SpliceAt(ret, 0, g.stmts) == g.stmts + ret;
  }

  /** With every anchor at most 0, the group spliced first goes in at the front. */
  lemma SortedHeadAtFront<T>(gs: seq<Group<T>>)
    requires gs != [] && AnchorsWithin(gs, 1)
    ensures SortDesc(gs) != [] && InsertionIndex(SortDesc(gs)[0]) == 0
  {
    var s := SortDesc(gs);
    assert |multiset(s)| == |multiset(gs)|;
    assert s[0] in multiset(gs);
    var i :| 0 <= i < |gs| && gs[i] == s[0];
  }

  /** Rebuilt lists read from the front, like `ApplyAllFront`. */
  lemma {:induction false} ApplyGroupsFront<T>(xs: seq<T>, s: seq<Group<T>>)
    requires s != []
    ensures ApplyGroups(xs, s) == ApplyGroups(SpliceAt(xs, InsertionIndex(s[0]), s[0].stmts), s[1..])
  {
    if |s| > 1 {
      var p := s[..|s| - 1];
      ApplyGroupsFront(xs, p);
      assert p[1..] == s[1..][..|s[1..]| - 1];
      assert p[0] == s[0];
    } else {
      assert s[..|s| - 1] == [];
    }
  }
}
