/**
 * Node classifiers: plugin/queries/isFunctionLikeDeclaration.ts,
 * plugin/queries/isMacroHoistableDestination.ts and plugin/queries/isMacroCall.ts.
 */
module Queries {
  import opened Options
  import opened Some
  import opened Syntax

  /** The seven kinds of function-like declaration. */
  predicate IsFunctionLikeDeclaration(n: Node) {
    n.kind == ArrowFunction ||
    n.kind == FunctionDeclaration ||
    n.kind == MethodDeclaration ||
    n.kind == FunctionExpression ||
    n.kind == Constructor ||
    n.kind == GetAccessor ||
    n.kind == SetAccessor
  }

  /** A scope a macro may hoist statements into. */
  predicate IsMacroHoistableDestination(n: Node) {
    n.kind == SourceFile ||
    n.kind == Block ||
    n.kind == ModuleBlock ||
    IsFunctionLikeDeclaration(n)
  }

  /** A call whose callee is a non-null assertion, written without `?.`. */
  predicate IsBaseMacroCall(n: Node) {
    n.kind == CallExpression &&
    |n.children| > 0 && n.children[0].kind == NonNullExpression && |n.children[0].children| > 0 &&
    !n.questionDot
  }

  /** The expression under the callee's non-null assertion: `f` in `f!(x)`, `o.f` in `o.f!(x)`. */
  function Asserted(n: Node): Node
    requires IsBaseMacroCall(n)
  {
    n.children[0].children[0]
  }

  /** `name!(...)`; with a present `name`, the identifier's text must equal it. */
  predicate IsFunctionMacroCall(n: Node, name: Nullable<string>)
    requires IsBaseMacroCall(n)
  {
    Asserted(n).kind == Identifier && (!IsSome(name) || Asserted(n).text == name.v)
  }

  /** `obj.name!(...)`; only the accessed property's name is compared, never the object. */
  predicate IsMethodMacroCall(n: Node, name: Nullable<string>)
    requires IsBaseMacroCall(n)
  {
    Asserted(n).kind == PropertyAccessExpression && (!IsSome(name) || Asserted(n).text == name.v)
  }

  predicate IsMacroCall(n: Node, name: Nullable<string>) {
    IsBaseMacroCall(n) && (IsFunctionMacroCall(n, name) || IsMethodMacroCall(n, name))
  }

  /** The name a macro call is written with: the identifier, or the accessed property. */
  function CalledName(n: Node): string
    requires IsMacroCall(n, Undefined)
  {
    Asserted(n).text
  }

  /** A node is never both a function-style and a method-style macro call. */
  lemma StylesExclusive(n: Node, a: Nullable<string>, b: Nullable<string>)
    requires IsBaseMacroCall(n)
    ensures !(IsFunctionMacroCall(n, a) && IsMethodMacroCall(n, b))
  {
  }

  /** Matching a name is exactly: being a macro call, and being called by that name. */
  lemma MatchByName(n: Node, name: string)
    ensures IsMacroCall(n, Value(name)) <==> IsMacroCall(n, Undefined) && CalledName(n) == name
  {
  }

  /** `null` and `undefined` as the name both mean "any name". */
  lemma MissingNameMatchesAny(n: Node)
    ensures IsMacroCall(n, Null) == IsMacroCall(n, Undefined)
    ensures IsMacroCall(n, Undefined) ==> IsMacroCall(n, Value(CalledName(n)))
  {
  }

  /** Giving a name only narrows the match. */
  lemma NameNarrows(n: Node, name: Nullable<string>)
    ensures IsMacroCall(n, name) ==> IsMacroCall(n, Undefined)
  {
  }

  /** `name!(args)`, built from parsed identities. */
  function FunctionMacroCallSyntax(call: nat, bang: nat, callee: nat, name: string, args: seq<Node>): Node {
    Node(Parsed(call), CallExpression, "", false,
      [Node(Parsed(bang), NonNullExpression, "", false, [Leaf(Parsed(callee), Identifier, name)], None)] + args, None)
  }

  /** `f!!(args)`: the outer assertion wraps another assertion, not an identifier. */
  function DoubleAssertedCallSyntax(call: nat, outer: nat, inner: nat, callee: nat, name: string, args: seq<Node>): Node {
    Node(Parsed(call), CallExpression, "", false,
      [Node(Parsed(outer), NonNullExpression, "", false,
        [Node(Parsed(inner), NonNullExpression, "", false, [Leaf(Parsed(callee), Identifier, name)], None)], None)] + args,
      None)
  }

  /** `(f)!(args)`: the assertion wraps a parenthesized expression. */
  function ParenthesizedCallSyntax(call: nat, bang: nat, paren: nat, callee: nat, name: string, args: seq<Node>): Node {
    Node(Parsed(call), CallExpression, "", false,
      [Node(Parsed(bang), NonNullExpression, "", false,
        [Node(Parsed(paren), ParenthesizedExpression, "", false, [Leaf(Parsed(callee), Identifier, name)], None)], None)] + args,
      None)
  }

  /** `name!(args)` is a macro call of exactly that name; `f!!()` and `(f)!()` are no macro calls at all. */
  lemma MacroCallShapes(name: string, args: seq<Node>, ids: seq<nat>)
    requires |ids| == 4
    ensures IsMacroCall(FunctionMacroCallSyntax(ids[0], ids[1], ids[2], name, args), Value(name))
    ensures CalledName(FunctionMacroCallSyntax(ids[0], ids[1], ids[2], name, args)) == name
    ensures !IsMacroCall(DoubleAssertedCallSyntax(ids[0], ids[1], ids[2], ids[3], name, args), Undefined)
    ensures !IsMacroCall(ParenthesizedCallSyntax(ids[0], ids[1], ids[2], ids[3], name, args), Undefined)
  {
  }

  /** Optional chaining rules a call out, whatever its callee. */
  lemma OptionalCallIsNoMacroCall(n: Node, name: Nullable<string>)
    requires n.questionDot
    ensures !IsMacroCall(n, name)
  {
  }

  /** Every function-like declaration, expression-bodied arrows included, is a hoisting destination. */
  lemma FunctionLikeIsDestination(n: Node)
    requires IsFunctionLikeDeclaration(n)
    ensures IsMacroHoistableDestination(n)
  {
  }

  /** The kinds `isFunctionLikeDeclaration` accepts. */
  const FunctionLikeKinds: set<Kind> :=
    {ArrowFunction, FunctionDeclaration, MethodDeclaration, FunctionExpression, Constructor, GetAccessor, SetAccessor}

  /** The kinds `isMacroHoistableDestination` accepts: the three statement-list scopes and the function-likes. */
  const DestinationKinds: set<Kind> := {SourceFile, Block, ModuleBlock} + FunctionLikeKinds

  /** A node is function-like exactly when its kind is one of the seven; blocks and source files are not. */
  lemma FunctionLikeKindsExactly(n: Node)
    ensures IsFunctionLikeDeclaration(n) <==> n.kind in FunctionLikeKinds
  {
  }

  /**
   * A node receives hoists exactly when its kind is a destination kind: class
   * declarations, calls, and every statement other than a block receive none.
   */
  lemma DestinationKindsExactly(n: Node)
    ensures IsMacroHoistableDestination(n) <==> n.kind in DestinationKinds
  {
  }
}
