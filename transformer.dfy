/**
 * The `MacroTransformer` class of plugin/macro/transformer.ts, which owns the hoist
 * ledger, and the default export's loop that alternates expansion and hoisting
 * until a round hands back the file it was given.
 */
module Transformer {
  import opened Options
  import opened Syntax
  import opened OrderedMaps
  import opened Ledger
  import opened Hoists
  import opened Expansion

  /** One round: expand, then materialize the hoists the expansion recorded. */
  function Round(reg: Registry, f: Node, fuel: nat): Option<Node> {
    match Visit(reg, f, fuel)
    case Done(One(m), h) => Some(HoistTree(m, Record(h)))
    case _ => None
  }

  /** `round` agrees with `Round` on every file. */
  ghost predicate IsRoundOf(round: Node -> Option<Node>, reg: Registry, fuel: nat) {
    forall g {:trigger Round(reg, g, fuel)} :: round(g) == Round(reg, g, fuel)
  }

  /** The round written as a lambda is one. */
  lemma RoundLambda(reg: Registry, fuel: nat)
    ensures IsRoundOf((g => Round(reg, g, fuel)), reg, fuel)
  {
  }

  /**
   * How the loop ends: at a fixed point, with rounds still to go when the bound was
   * reached, or aborted because the expansion crashed, ran out of fuel or did not
   * return one node for the file.
   */
  datatype Outcome = Expanded(file: Node) | Unfinished(file: Node) | Aborted

  /**
   * The loop of the default export, stopped after at most `rounds` rounds: repeat
   * `round` until it hands back the file it was given.
   */
  function Drive(round: Node -> Option<Node>, f: Node, rounds: nat): Outcome
    decreases rounds
  {
    if rounds == 0 then Unfinished(f)
    else match round(f)
      case None => Aborted
      case Some(g) => if g == f then Expanded(g) else Drive(round, g, rounds - 1)
  }

  class MacroTransformer {
    const registry: Registry
    const file: Node
    /** Destination, then origin, then the statements hoisted for that pair. */
    var hoistedNodes: Ledger

    constructor(registry: Registry, file: Node)
      ensures this.registry == registry && this.file == file
      ensures hoistedNodes == []
    {
      this.registry := registry;
      this.file := file;
      hoistedNodes := [];
    }

    /**
     * `hoistImpl`: get or create the destination's map, get or create the origin's
     * list, append the statement.
     */
    method Hoist(source: Origin, destination: NodeId, node: Node)
      modifies this
      ensures hoistedNodes == Push(old(hoistedNodes), source, destination, node)
    {
      PushSteps(hoistedNodes, source, destination, node);
      var sourceNodes: Sources;
      match Get(hoistedNodes, destination) {
        case None =>
          sourceNodes := [];
          hoistedNodes := Set(hoistedNodes, destination, sourceNodes);
        case Some(s) =>
          sourceNodes := s;
      }
      var nodes: seq<Node>;
      match Get(sourceNodes, source) {
        case None =>
          nodes := [];
          sourceNodes := Set(sourceNodes, source, nodes);
        case Some(ns) =>
          nodes := ns;
      }
      nodes := nodes + [node];
      sourceNodes := Set(sourceNodes, source, nodes);
      hoistedNodes := Set(hoistedNodes, destination, sourceNodes);
    }

    /** `Push` as the get-or-create steps `hoistImpl` takes, for each of its three paths. */
    static lemma PushSteps(l: Ledger, source: Origin, dest: NodeId, stmt: Node)
      ensures Get(l, dest).None? ==>
        Push(l, source, dest, stmt) == Set(Set(l, dest, []), dest, Set(Set([], source, []), source, [] + [stmt]))
      ensures Get(l, dest).Some? && Get(Get(l, dest).value, source).None? ==>
        var s := Get(l, dest).value;
        Push(l, source, dest, stmt) == Set(l, dest, Set(Set(s, source, []), source, [] + [stmt]))
      ensures Get(l, dest).Some? && Get(Get(l, dest).value, source).Some? ==>
        var s := Get(l, dest).value;
        Push(l, source, dest, stmt) == Set(l, dest, Set(s, source, Get(s, source).value + [stmt]))
    {
      match Get(l, dest)
      case None =>
        SetTwice(l, dest, [], Set([], source, [stmt]));
        SetTwice([], source, [], [stmt]);
        assert [] + [stmt] == [stmt];
      case Some(s) =>
        if Get(s, source).None? {
          SetTwice(s, source, [], [stmt]);
          assert [] + [stmt] == [stmt];
        }
    }

    /** The hoist calls a macro makes, in the order it makes them. */
    method HoistAll(log: seq<HoistCall>)
      modifies this
      ensures hoistedNodes == RecordOnto(old(hoistedNodes), log)
    {
      var i := 0;
      while i < |log|
        invariant i <= |log|
        invariant hoistedNodes == RecordOnto(old(hoistedNodes), log[..i])
      {
        assert log[..i + 1][..i] == log[..i];
        Hoist(log[i].source, log[i].dest, log[i].stmt);
        i := i + 1;
      }
      assert log[..i] == log;
    }

    /** `processMacros`: the visit, with the hoists it requested recorded in the ledger. */
    method ProcessMacros(node: Node, fuel: nat) returns (r: Run<Visited>)
      modifies this
      ensures r == Visit(registry, node, fuel)
      ensures hoistedNodes == if r.Done? then RecordOnto(old(hoistedNodes), r.hoists) else old(hoistedNodes)
    {
      r := Visit(registry, node, fuel);
      if r.Done? {
        HoistAll(r.hoists);
      }
    }

    /**
     * `processHoists`: an empty ledger returns the node as it is, otherwise every
     * destination is materialized; either way the ledger is cleared.
     */
    method ProcessHoists(node: Node) returns (r: Node)
      modifies this
      ensures r == HoistTree(node, old(hoistedNodes))
      ensures hoistedNodes == []
    {
      if |hoistedNodes| <= 0 {
        HoistTreeEmpty(node);
        r := node;
      } else {
        r := VisitHoists(node, hoistedNodes);
      }
      hoistedNodes := [];
    }

    /**
     * One pass of the loop: expansion, then hoisting; `None` when the expansion gives
     * no file. `round` names the pass as a function, for the loop's specification.
     */
    method ProcessRound(f: Node, fuel: nat, ghost round: Node -> Option<Node>) returns (next: Option<Node>)
      requires hoistedNodes == [] && IsRoundOf(round, registry, fuel)
      modifies this
      ensures next == round(f)
      ensures next.Some? ==> hoistedNodes == []
    {
      var visited := ProcessMacros(f, fuel);
      RoundFromVisit(registry, f, fuel);
      if !(visited.Done? && visited.value.One?) {
        return None;
      }
      var g := ProcessHoists(visited.value.node);
      return Some(g);
    }

    /**
     * The default export: rounds until the file comes back unchanged. `round` is one
     * round as a function, `g => Round(registry, g, fuel)` or any function equal to it.
     */
    method Transform(fuel: nat, rounds: nat, ghost round: Node -> Option<Node>) returns (outcome: Outcome)
      requires hoistedNodes == [] && IsRoundOf(round, registry, fuel)
      modifies this
      ensures outcome == Drive(round, file, rounds)
    {
      var f := file;
      var complete := false;
      var n := 0;
      while !complete && n < rounds
        invariant n <= rounds && hoistedNodes == []
        invariant Drive(round, file, rounds) == if complete then Expanded(f) else Drive(round, f, rounds - n)
        decreases rounds - n
      {
        var next := ProcessRound(f, fuel, round);
        DriveStep(round, f, rounds - n);
        if next.None? {
          return Aborted;
        }
        complete := next.value == f;
        f := next.value;
        n := n + 1;
      }
      outcome := if complete then Expanded(f) else Unfinished(f);
    }
  }

  /** One round of the loop, with rounds still to go. */
  lemma DriveStep(round: Node -> Option<Node>, f: Node, rounds: nat)
    requires rounds > 0
    ensures round(f).None? ==> Drive(round, f, rounds) == Aborted
    ensures round(f).Some? && round(f).value == f ==> Drive(round, f, rounds) == Expanded(f)
    ensures round(f).Some? && round(f).value != f ==> Drive(round, f, rounds) == Drive(round, round(f).value, rounds - 1)
  {
  }

  lemma RoundFromVisit(reg: Registry, f: Node, fuel: nat)
    ensures Round(reg, f, fuel).Some? <==> Visit(reg, f, fuel).Done? && Visit(reg, f, fuel).value.One?
    ensures Round(reg, f, fuel).Some? ==>
      Round(reg, f, fuel).value == HoistTree(Visit(reg, f, fuel).value.node, RecordOnto([], Visit(reg, f, fuel).hoists))
  {
  }

  /** The loop stops only at a fixed point: one more round would hand the file back unchanged. */
  lemma {:induction false} ExpandedIsFixedPoint(round: Node -> Option<Node>, f: Node, rounds: nat)
    requires Drive(round, f, rounds).Expanded?
    ensures round(Drive(round, f, rounds).file) == Some(Drive(round, f, rounds).file)
    decreases rounds
  {
    var g := round(f).value;
    if g != f {
      ExpandedIsFixedPoint(round, g, rounds - 1);
    }
  }

  /** More rounds change nothing once the loop has stopped within the bound. */
  lemma {:induction false} MoreRoundsAgree(round: Node -> Option<Node>, f: Node, rounds: nat, more: nat)
    requires !Drive(round, f, rounds).Unfinished?
    requires rounds <= more
    ensures Drive(round, f, more) == Drive(round, f, rounds)
    decreases rounds
  {
    if round(f).Some? && round(f).value != f {
      MoreRoundsAgree(round, round(f).value, rounds - 1, more - 1);
    }
  }

  /** A file without macro calls is its own fixed point after one round, with nothing hoisted. */
  lemma MacroFreeFileExpanded(reg: Registry, f: Node, fuel: nat, rounds: nat)
    requires MacroFree(f) && rounds > 0
    ensures Round(reg, f, fuel) == Some(f)
    ensures Drive((g => Round(reg, g, fuel)), f, rounds) == Expanded(f)
  {
    VisitMacroFree(reg, f, fuel);
    HoistTreeEmpty(f);
  }

  /** Expanding a source file never loses it: a finished visit returns one source file. */
  lemma RootStaysOneNode(reg: Registry, f: Node, fuel: nat)
    requires f.kind == SourceFile
    ensures Visit(reg, f, fuel).Done? ==>
      Visit(reg, f, fuel).value.One? && Visit(reg, f, fuel).value.node.kind == SourceFile
  {
    KindKept(reg, f, fuel);
  }
}
