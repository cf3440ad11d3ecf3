/**
 * The hoist ledger of plugin/macro/transformer.ts: destination identity, then
 * origin node, then the statements registered for that pair, each level kept
 * in first-insertion order.
 */
module Ledger {
  import opened Options
  import opened Syntax
  import opened OrderedMaps

  type Sources = OrderedMap<Origin, seq<Node>>
  type Ledger = OrderedMap<NodeId, Sources>

  /** One call `hoist(source, destination, statement)` made by a macro. */
  datatype HoistCall = HoistCall(source: Origin, dest: NodeId, stmt: Node)

  /** The origins registered against `dest`, with their statements. */
  function SourcesOf(l: Ledger, dest: NodeId): Sources {
    match Get(l, dest)
    case None => []
    case Some(s) => s
  }

  /** The statements waiting for the pair (`dest`, `source`), in registration order. */
  function Pending(l: Ledger, dest: NodeId, source: Origin): seq<Node> {
    match Get(SourcesOf(l, dest), source)
    case None => []
    case Some(stmts) => stmts
  }

  /** Every level of the ledger holds each key once. */
  predicate Valid(l: Ledger) {
    DistinctKeys(l) && forall i :: 0 <= i < |l| ==> DistinctKeys(l[i].1)
  }

  /**
   * `hoistImpl`: get-or-create the destination's map, get-or-create the origin's
   * list, and push the statement at its end. Nothing else changes.
   */
  function Push(l: Ledger, source: Origin, dest: NodeId, stmt: Node): (r: Ledger)
    ensures Keys(r) == Keys(l) + (if dest in Keys(l) then [] else [dest])
    ensures Keys(SourcesOf(r, dest)) ==
      Keys(SourcesOf(l, dest)) + (if source in Keys(SourcesOf(l, dest)) then [] else [source])
    ensures Pending(r, dest, source) == Pending(l, dest, source) + [stmt]
    ensures forall d :: d != dest ==> SourcesOf(r, d) == SourcesOf(l, d)
    ensures forall s :: s != source ==> Get(SourcesOf(r, dest), s) == Get(SourcesOf(l, dest), s)
    ensures Valid(l) ==> Valid(r)
  {
    var sources := SourcesOf(l, dest);
    var r := Set(l, dest, Set(sources, source, Pending(l, dest, source) + [stmt]));
    assert Valid(l) ==> DistinctKeys(sources) by {
      if Valid(l) && Get(l, dest).Some? {
        var i :| 0 <= i < |l| && l[i] == (dest, Get(l, dest).value);
      }
    }
    assert Valid(l) ==> Valid(r) by {
      if Valid(l) {
        forall i | 0 <= i < |r| ensures DistinctKeys(r[i].1) {
          if r[i].0 != dest {
            assert r[i] in l;
          }
        }
      }
    }
    r
  }

  /** The ledger `l` after the hoist calls of `log`, made in order. */
  function RecordOnto(l: Ledger, log: seq<HoistCall>): Ledger {
    if log == [] then l
    else
      var c := log[|log| - 1];
      Push(RecordOnto(l, log[..|log| - 1]), c.source, c.dest, c.stmt)
  }

  /** The ledger after the hoist calls of `log`, made in order, starting empty. */
  function Record(log: seq<HoistCall>): Ledger {
    RecordOnto([], log)
  }

  /** The statements of the calls in `log` for the pair (`dest`, `source`), in call order. */
  function CallsFor(log: seq<HoistCall>, dest: NodeId, source: Origin): seq<Node> {
    if log == [] then []
    else
      var c := log[|log| - 1];
      CallsFor(log[..|log| - 1], dest, source) + (if c.dest == dest && c.source == source then [c.stmt] else [])
  }

  /** Recording a log keeps, for every pair, exactly that pair's statements in call order. */
  lemma {:induction false} RecordPending(log: seq<HoistCall>, dest: NodeId, source: Origin)
    ensures Pending(Record(log), dest, source) == CallsFor(log, dest, source)
    ensures Valid(Record(log))
  {
    if log != [] {
      var c := log[|log| - 1];
      var prefix := log[..|log| - 1];
      RecordPending(prefix, dest, source);
      if c.dest != dest {
        assert SourcesOf(Record(log), dest) == SourcesOf(Record(prefix), dest);
      } else if c.source != source {
        assert Get(SourcesOf(Record(log), dest), source) == Get(SourcesOf(Record(prefix), dest), source);
      }
    }
  }

  /** A destination is in the ledger exactly when some call of the log named it. */
  lemma {:induction false} RecordDestinations(log: seq<HoistCall>, dest: NodeId)
    ensures dest in Keys(Record(log)) <==> exists i :: 0 <= i < |log| && log[i].dest == dest
  {
    if log != [] {
      var prefix := log[..|log| - 1];
      RecordDestinations(prefix, dest);
      RecordStepKeys(log, dest);
      NamedStep(log, prefix, dest);
    }
  }

  /** One more call adds its destination, and only it. */
  lemma RecordStepKeys(log: seq<HoistCall>, dest: NodeId)
    requires log != []
    ensures dest in Keys(Record(log)) <==> dest in Keys(Record(log[..|log| - 1])) || log[|log| - 1].dest == dest
  {
  }

  lemma NamedStep(log: seq<HoistCall>, prefix: seq<HoistCall>, dest: NodeId)
    requires log != [] && prefix == log[..|log| - 1]
    ensures (exists i :: 0 <= i < |log| && log[i].dest == dest) <==>
      (exists i :: 0 <= i < |prefix| && prefix[i].dest == dest) || log[|log| - 1].dest == dest
  {
    if exists i :: 0 <= i < |prefix| && prefix[i].dest == dest {
      var i :| 0 <= i < |prefix| && prefix[i].dest == dest;
      assert log[i].dest == dest;
    }
    if exists i :: 0 <= i < |log| && log[i].dest == dest {
      var i :| 0 <= i < |log| && log[i].dest == dest;
      if i < |prefix| {
        assert prefix[i].dest == dest;
      }
    }
  }
}
