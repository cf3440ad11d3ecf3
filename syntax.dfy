/**
 * The abstract syntax tree the macro engine works on. It stands for the host
 * compiler's node objects: a kind, an identity, child lists and, for function-like
 * declarations, a body.
 */
module Syntax {
  import opened Options

  /**
   * The identity `ts.getOriginalNode` resolves to. Nodes of the parsed file have a
   * `Parsed` identity, which every updated copy keeps; nodes the factory builds
   * from scratch are `Synthesized`, except a name from `createUniqueName`, whose
   * `Unique` serial keeps two such names apart even when they share their text.
   */
  datatype NodeId = Parsed(n: nat) | Synthesized | Unique(serial: nat)

  datatype Kind =
    | SourceFile | Block | ModuleBlock
    | ArrowFunction | FunctionDeclaration | MethodDeclaration | FunctionExpression
    | Constructor | GetAccessor | SetAccessor
    | ClassDeclaration | ModuleDeclaration
    | VariableStatement | ExpressionStatement | ReturnStatement | IfStatement
    | TryStatement | CatchClause | OtherStatement
    | VariableDeclarationList | VariableDeclaration
    | CallExpression | NonNullExpression | ParenthesizedExpression
    | Identifier | PropertyAccessExpression
    | ObjectLiteralExpression | PropertyAssignment | OtherExpression

  /**
   * A syntax node.
   * - `text`: an identifier's text, the accessed name of a property access, the
   *   name of a function-like declaration ("" when it has none), the keyword of a
   *   variable declaration list.
   * - `questionDot`: a call written with `?.`.
   * - `children`: the node's child lists in source order (a call: callee, then
   *   arguments; a non-null assertion or property access: its operand; a source
   *   file, block or module block: its statements).
   * - `body`: the body of a function-like declaration, if it has one.
   */
  datatype Node = Node(
    orig: NodeId,
    kind: Kind,
    text: string,
    questionDot: bool,
    children: seq<Node>,
    body: Option<Node>)

  /**
   * A node together with its chain of parents in the parsed tree, nearest first.
   * A node the factory built has no parent, so its chain is empty.
   */
  datatype Origin = Origin(node: Node, ancestors: seq<Node>) {
    /** The node itself followed by its ancestors: `Path()[i + 1]` is the parent of `Path()[i]`. */
    function Path(): (p: seq<Node>)
      ensures |p| == |ancestors| + 1 && p[0] == node
    {
      [node] + ancestors
    }
  }

  /** A node with no children and no body. */
  function Leaf(id: NodeId, kind: Kind, text: string): Node {
    Node(id, kind, text, false, [], None)
  }
}
