/** The compiler's operation tree over a document, as the analyzer and the
    code fix see it: every operation has a kind, an implicit flag, the
    syntax node it was bound from, and a link to its parent operation. */
module Operations {
  import opened Wrappers
  import opened Symbols
  import opened Syntax

  type OpId = nat

  /** Operation kinds.  A conversion carries what the code fix reads from
      it: the user-defined operator method it calls (absent for a built-in
      conversion) and its operand. */
  datatype OperationKind =
    | Conversion(operatorMethod: Option<MethodSymbol>, operand: OpId)
    | Literal
    | Argument
    | Invocation
    | VariableInitializer
    | VariableDeclarator
    | VariableDeclaration
    | VariableDeclarationGroup

  /** One operation.  `syntax` is the path of its syntax node in the
      document's tree.  `depth` is its distance from the root of the
      operation tree; it only witnesses that parent links end. */
  datatype Operation = Operation(kind: OperationKind, isImplicit: bool, syntax: Path, parent: Option<OpId>, depth: nat)

  /** The semantic model of one document: its operations, and the
      operation (if any) bound to each syntax node. */
  datatype SemanticModel = SemanticModel(operations: map<OpId, Operation>, operationOf: map<Path, OpId>)

  datatype Document = Document(root: SyntaxNode, semantics: SemanticModel)

  /** Every parent link leads to a known operation closer to the root. */
  predicate ParentsWellFormed(ops: map<OpId, Operation>) {
    forall id :: id in ops && ops[id].parent.Some? ==>
      ops[id].parent.value in ops && ops[ops[id].parent.value].depth < ops[id].depth
  }

  /** Every conversion's operand is a known operation. */
  predicate OperandsExist(ops: map<OpId, Operation>) {
    forall id :: id in ops && ops[id].kind.Conversion? ==> ops[id].kind.operand in ops
  }

  /** Every operation is bound from a node of `root`. */
  predicate SyntaxInTree(root: SyntaxNode, ops: map<OpId, Operation>) {
    forall id :: id in ops ==> ValidPath(root, ops[id].syntax)
  }

  /** Every bound syntax node is a node of the tree and is bound to a known
      operation. */
  predicate BindingsInTree(doc: Document) {
    forall p :: p in doc.semantics.operationOf ==>
      ValidPath(doc.root, p) && doc.semantics.operationOf[p] in doc.semantics.operations
  }

  /** The guarantees the compiler gives about a semantic model: parent
      links are well founded, a conversion's operand exists, and every
      syntax reference is a node of the document's tree. */
  predicate WellFormed(doc: Document) {
    && ParentsWellFormed(doc.semantics.operations)
    && OperandsExist(doc.semantics.operations)
    && SyntaxInTree(doc.root, doc.semantics.operations)
    && BindingsInTree(doc)
  }

  /** The operation bound to a syntax node, or None. */
  function GetOperation(sm: SemanticModel, p: Path): (r: Option<OpId>)
    ensures r.Some? <==> p in sm.operationOf
    ensures r.Some? ==> r.value == sm.operationOf[p]
  {
    if p in sm.operationOf then Some(sm.operationOf[p]) else None
  }

  /** The parent chain of `id`: `id` itself, its parent, its grandparent,
      ... up to the operation that has no parent. */
  function Ancestors(ops: map<OpId, Operation>, id: OpId): (chain: seq<OpId>)
    requires ParentsWellFormed(ops) && id in ops
    ensures |chain| >= 1 && chain[0] == id
    ensures forall i :: 0 <= i < |chain| ==> chain[i] in ops
    ensures forall i :: 0 <= i < |chain| - 1 ==> ops[chain[i]].parent == Some(chain[i + 1])
    ensures ops[chain[|chain| - 1]].parent.None?
    decreases ops[id].depth
  {
    match ops[id].parent
    case None => [id]
    case Some(p) => [id] + Ancestors(ops, p)
  }

  lemma AncestorsUnfold(ops: map<OpId, Operation>, id: OpId, p: OpId)
    requires ParentsWellFormed(ops) && id in ops && ops[id].parent == Some(p)
    ensures Ancestors(ops, id) == [id] + Ancestors(ops, p)
  {
  }

  /** The chain followed from a possibly missing start operation. */
  function Chain(ops: map<OpId, Operation>, start: Option<OpId>): (chain: seq<OpId>)
    requires ParentsWellFormed(ops)
    ensures start.None? || start.value !in ops ==> chain == []
    ensures start.Some? && start.value in ops ==> chain == Ancestors(ops, start.value)
  {
    if start.Some? && start.value in ops then Ancestors(ops, start.value) else []
  }

  predicate IsConversion(ops: map<OpId, Operation>, id: OpId) {
    id in ops && ops[id].kind.Conversion?
  }

  /** How the compiler binds the syntax of an implicit conversion, which
      has no syntax of its own: the node is bound either to the conversion
      or to its operand, an operation that is not itself a conversion and
      whose parent is the conversion. */
  predicate BoundThroughOperand(sm: SemanticModel, c: OpId) {
    && IsConversion(sm.operations, c)
    && var op := sm.operations[c];
       var bound := GetOperation(sm, op.syntax);
       || bound == Some(c)
       || (&& bound == Some(op.kind.operand)
           && op.kind.operand in sm.operations
           && !sm.operations[op.kind.operand].kind.Conversion?
           && sm.operations[op.kind.operand].parent == Some(c))
  }
}
