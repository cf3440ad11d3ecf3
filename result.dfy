/**
 * `getResultIdentifier` of lib/core/result/result.ts: the carrier variable that
 * `ok!`, `err!` and `return!` share within one function, created and hoisted to the
 * file on first use and remembered in a module-wide cache afterwards.
 */
module ResultCarrier {
  import opened Options
  import opened Syntax
  import opened Queries
  import opened Ledger
  import opened Transformer

  /** The position of the nearest function-like node on the path, the node itself included. */
  function ClosestFunction(path: seq<Node>): (r: Option<nat>)
    ensures r.Some? ==> r.value < |path| && IsFunctionLikeDeclaration(path[r.value])
    ensures r.Some? ==> forall j :: 0 <= j < r.value ==> !IsFunctionLikeDeclaration(path[j])
    ensures r.None? ==> forall j :: 0 <= j < |path| ==> !IsFunctionLikeDeclaration(path[j])
  {
    if path == [] then None
    else if IsFunctionLikeDeclaration(path[0]) then Some(0)
    else match ClosestFunction(path[1..])
      case None => None
      case Some(k) => Some(k + 1)
  }

  /** The `do … while ((ancestor = ancestor.parent))` walk. */
  method FindClosestFunction(path: seq<Node>) returns (r: Option<nat>)
    requires path != []
    ensures r == ClosestFunction(path)
  {
    var i := 0;
    while true
      invariant i < |path|
      invariant forall j :: 0 <= j < i ==> !IsFunctionLikeDeclaration(path[j])
      decreases |path| - i
    {
      if IsFunctionLikeDeclaration(path[i]) {
        ClosestFunctionIs(path, i);
        return Some(i);
      }
      if i + 1 >= |path| {
        ClosestFunctionNone(path);
        return None;
      }
      i := i + 1;
    }
  }

  lemma {:induction false} ClosestFunctionIs(path: seq<Node>, i: nat)
    requires i < |path| && IsFunctionLikeDeclaration(path[i])
    requires forall j :: 0 <= j < i ==> !IsFunctionLikeDeclaration(path[j])
    ensures ClosestFunction(path) == Some(i)
  {
    if i > 0 {
      ClosestFunctionIs(path[1..], i - 1);
    }
  }

  lemma {:induction false} ClosestFunctionNone(path: seq<Node>)
    requires forall j :: 0 <= j < |path| ==> !IsFunctionLikeDeclaration(path[j])
    ensures ClosestFunction(path) == None
  {
    if path != [] {
      ClosestFunctionNone(path[1..]);
    }
  }

  /** The text handed to `createUniqueName`: `<name>__result`, or `result` for an anonymous function. */
  function ResultBaseName(fn: Node): string {
    (if fn.text != "" then fn.text + "__" else "") + "result"
  }

  lemma BaseNameShape(fn: Node)
    ensures fn.text == "" ==> ResultBaseName(fn) == "result"
    ensures fn.text != "" ==> ResultBaseName(fn)[..|fn.text|] == fn.text
    ensures |ResultBaseName(fn)| >= 6 && ResultBaseName(fn)[|ResultBaseName(fn)| - 6..] == "result"
    ensures fn.text != "" ==> ResultBaseName(fn)[|fn.text|..|fn.text| + 2] == "__"
  {
  }

  /** Two named functions get the same base name only when they have the same name. */
  lemma BaseNameInjective(f1: Node, f2: Node)
    requires f1.text != "" && f2.text != ""
    requires ResultBaseName(f1) == ResultBaseName(f2)
    ensures f1.text == f2.text
  {
    var b := ResultBaseName(f1);
    assert b == f1.text + "__result" && b == f2.text + "__result";
    assert f1.text == b[..|b| - 8];
    assert f2.text == b[..|b| - 8];
  }

  /** `createUniqueName(base)`: a fresh identifier, told apart from others by its serial. */
  function UniqueIdentifier(base: string, serial: nat): Node {
    Leaf(Unique(serial), Identifier, base)
  }

  /** `{ value: undefined, error: undefined }`. */
  function EmptyResultLiteral(): Node {
    Node(Synthesized, ObjectLiteralExpression, "", false, [
      Node(Synthesized, PropertyAssignment, "value", false,
        [Leaf(Synthesized, Identifier, "value"), Leaf(Synthesized, Identifier, "undefined")], None),
      Node(Synthesized, PropertyAssignment, "error", false,
        [Leaf(Synthesized, Identifier, "error"), Leaf(Synthesized, Identifier, "undefined")], None)
    ], None)
  }

  /** `const <ident> = { value: undefined, error: undefined };` */
  function CarrierDeclaration(ident: Node): Node {
    Node(Synthesized, VariableStatement, "", false, [
      Node(Synthesized, VariableDeclarationList, "const", false, [
        Node(Synthesized, VariableDeclaration, "", false, [ident, EmptyResultLiteral()], None)
      ], None)
    ], None)
  }

  /** The declarations of a variable statement, read back. */
  function Declarations(stmt: Node): seq<Node> {
    if stmt.kind == VariableStatement && |stmt.children| == 1 && stmt.children[0].kind == VariableDeclarationList
    then stmt.children[0].children
    else []
  }

  /** The keyword of a variable statement's declaration list. */
  function Keyword(stmt: Node): string {
    if stmt.kind == VariableStatement && |stmt.children| == 1 then stmt.children[0].text else ""
  }

  /** The names of an object literal's properties, in order. */
  function PropertyNames(o: Node): (r: seq<string>)
    ensures |r| == |o.children|
  {
    seq(|o.children|, i requires 0 <= i < |o.children| => o.children[i].text)
  }

  /** The carrier declares exactly one `const` binding, named by the identifier, holding `value` then `error`, both undefined. */
  lemma CarrierShape(ident: Node)
    ensures Keyword(CarrierDeclaration(ident)) == "const"
    ensures |Declarations(CarrierDeclaration(ident))| == 1
    ensures Declarations(CarrierDeclaration(ident))[0].children[0] == ident
    ensures PropertyNames(Declarations(CarrierDeclaration(ident))[0].children[1]) == ["value", "error"]
    ensures forall i :: 0 <= i < |Declarations(CarrierDeclaration(ident))[0].children[1].children| ==>
      var p := Declarations(CarrierDeclaration(ident))[0].children[1].children[i];
      p.kind == PropertyAssignment && p.children[1] == Leaf(Synthesized, Identifier, "undefined")
  {
    var decl := Node(Synthesized, VariableDeclaration, "", false, [ident, EmptyResultLiteral()], None);
    assert Declarations(CarrierDeclaration(ident)) == [decl];
    EmptyResultLiteralShape();
  }

  lemma EmptyResultLiteralShape()
    ensures PropertyNames(EmptyResultLiteral()) == ["value", "error"]
    ensures forall i :: 0 <= i < |EmptyResultLiteral().children| ==>
      EmptyResultLiteral().children[i].kind == PropertyAssignment &&
      EmptyResultLiteral().children[i].children[1] == Leaf(Synthesized, Identifier, "undefined")
  {
    var o := EmptyResultLiteral();
    assert PropertyNames(o) == [o.children[0].text, o.children[1].text];
  }

  /** Every identifier in `m` was made by `createUniqueName` from a serial below `serial`. */
  predicate CacheBelow(m: map<Node, Node>, serial: nat) {
    forall f :: f in m ==> m[f].orig.Unique? && m[f].orig.serial < serial
  }

  /** No two functions share a carrier identifier. */
  predicate CacheInjective(m: map<Node, Node>) {
    forall f, g :: f in m && g in m && f != g ==> m[f] != m[g]
  }

  /**
   * The name made from the next serial differs from every cached one, so caching
   * it for a new function keeps the cache injective and below the next serial.
   */
  lemma FreshIdentifierIsNew(m: map<Node, Node>, serial: nat, fn: Node, base: string)
    requires CacheBelow(m, serial) && CacheInjective(m) && fn !in m
    ensures forall f :: f in m ==> m[f] != UniqueIdentifier(base, serial)
    ensures CacheBelow(m[fn := UniqueIdentifier(base, serial)], serial + 1)
    ensures CacheInjective(m[fn := UniqueIdentifier(base, serial)])
  {
  }

  /**
   * The module-level `functionToResultIdentifier` cache, with the serial
   * `createUniqueName` would hand out next. It is shared by every file the
   * compiler transforms, not reset per file.
   */
  class ResultCache {
    var functionToResultIdentifier: map<Node, Node>
    var serial: nat

    /** Every cached identifier is a `createUniqueName` result from a serial already handed out, and no two functions share one. */
    ghost predicate Valid()
      reads this
    {
      CacheBelow(functionToResultIdentifier, serial) && CacheInjective(functionToResultIdentifier)
    }

    constructor()
      ensures functionToResultIdentifier == map[] && serial == 0
      ensures Valid()
    {
      functionToResultIdentifier := map[];
      serial := 0;
    }

    /**
     * The carrier identifier for the function enclosing `node`. A miss creates a
     * fresh name, hoists its declaration to the transformer's file attributed to
     * `node`, and remembers it; a hit returns what was remembered and hoists nothing;
     * with no enclosing function there is no answer and nothing changes.
     */
    method GetResultIdentifier(node: Origin, context: MacroTransformer) returns (r: Option<Node>)
      requires Valid()
      modifies this, context
      ensures Valid()
      ensures ClosestFunction(node.Path()).None? ==>
        r.None? && unchanged(this) && context.hoistedNodes == old(context.hoistedNodes)
      ensures ClosestFunction(node.Path()).Some? ==>
        var fn := node.Path()[ClosestFunction(node.Path()).value];
        if fn in old(functionToResultIdentifier) then
          r == Some(old(functionToResultIdentifier)[fn]) && unchanged(this) &&
          context.hoistedNodes == old(context.hoistedNodes)
        else
          var ident := UniqueIdentifier(ResultBaseName(fn), old(serial));
          r == Some(ident) &&
          (forall f :: f in old(functionToResultIdentifier) ==> old(functionToResultIdentifier)[f] != ident) &&
          functionToResultIdentifier == old(functionToResultIdentifier)[fn := ident] &&
          serial == old(serial) + 1 &&
          context.hoistedNodes == Push(old(context.hoistedNodes), node, context.file.orig, CarrierDeclaration(ident))
    {
      var closest := FindClosestFunction(node.Path());
      if closest.None? {
        return None;
      }
      var closestFunction := node.Path()[closest.value];
      if closestFunction in functionToResultIdentifier {
        return Some(functionToResultIdentifier[closestFunction]);
      }
      var resultIdentifier := UniqueIdentifier(ResultBaseName(closestFunction), serial);
      FreshIdentifierIsNew(functionToResultIdentifier, serial, closestFunction, ResultBaseName(closestFunction));
      serial := serial + 1;
      context.Hoist(node, context.file.orig, CarrierDeclaration(resultIdentifier));
      functionToResultIdentifier := functionToResultIdentifier[closestFunction := resultIdentifier];
      return Some(resultIdentifier);
    }

    /**
     * Two macro calls inside the same function, such as an `err!` followed by an
     * `ok!`: both get the same identifier, and at most one carrier is hoisted, by
     * the first of them.
     */
    method SameFunctionSharesCarrier(first: Origin, second: Origin, context: MacroTransformer)
      returns (a: Option<Node>, b: Option<Node>)
      requires Valid()
      requires ClosestFunction(first.Path()).Some? && ClosestFunction(second.Path()).Some?
      requires first.Path()[ClosestFunction(first.Path()).value] == second.Path()[ClosestFunction(second.Path()).value]
      modifies this, context
      ensures Valid()
      ensures a.Some? && a == b
      ensures var fn := first.Path()[ClosestFunction(first.Path()).value];
        context.hoistedNodes ==
          if fn in old(functionToResultIdentifier) then old(context.hoistedNodes)
          else Push(old(context.hoistedNodes), first, context.file.orig, CarrierDeclaration(a.value))
    {
      a := GetResultIdentifier(first, context);
      b := GetResultIdentifier(second, context);
    }
  }
}
