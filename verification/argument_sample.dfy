/** A conversion in a method argument, `Bar("Hello")` with
    `static string Bar(Test t)`, as the initial value of a declaration.  The
    literal is converted to `Test` by the implicit operator.  The string
    `Bar` returns is converted to the declared type: to `object` by a
    built-in conversion (`object o = Bar("Hello");`), or to `Test` by the
    implicit operator again (`Test t = Bar("Hello");`).  The literal and its
    argument have the same span. */
module ArgumentSample {
  import opened Wrappers
  import opened Symbols
  import opened Syntax
  import opened Operations
  import opened Analyzer
  import opened CodeFix
  import opened Sample

  /** `Bar("Hello")` */
  const Call: SyntaxNode :=
    SyntaxNode(InvocationExpression, [
      SyntaxNode(IdentifierName("Bar"), []),
      SyntaxNode(ArgumentList, [SyntaxNode(Syntax.Argument, [HelloLiteral])])])

  /** The declared type: `object` when the call's result is converted by a
      built-in conversion (`outer` is None), `Test` when by an operator. */
  function DeclaredType(outer: Option<MethodSymbol>): (name: string) {
    if outer.None? then "object" else "Test"
  }

  /** `object o = Bar("Hello");` or `Test t = Bar("Hello");` */
  function CallStatement(outer: Option<MethodSymbol>): (n: SyntaxNode) {
    DeclarationOf(DeclaredType(outer), if outer.None? then "o" else "t", Call)
  }

  const ArgumentPath: Path := ValuePath + [1, 0]
  const ArgumentLiteralPath: Path := ValuePath + [1, 0, 0]

  /** The syntax node each operation is bound from. */
  function CallSyntax(id: OpId): (p: Path) {
    if id == 1 then [] else if id == 2 then [0] else if id == 3 then [0, 1]
    else if id == 4 then [0, 1, 0] else if id <= 6 then ValuePath
    else if id == 7 then ArgumentPath else ArgumentLiteralPath
  }

  /** Operations 1 to 9 from the declaration group down to the literal;
      each one's parent is the one before it.  Operation 5 is the
      conversion of the call's result, with `outer` as its operator method,
      and 8 the user-defined conversion of the literal. */
  function CallOperation(outer: Option<MethodSymbol>, id: OpId): (op: Operation) {
    var kind :=
      if id == 1 then VariableDeclarationGroup
      else if id == 2 then OperationKind.VariableDeclaration
      else if id == 3 then OperationKind.VariableDeclarator
      else if id == 4 then VariableInitializer
      else if id == 5 then OperationKind.Conversion(outer, 6)
      else if id == 6 then Invocation
      else if id == 7 then OperationKind.Argument
      else if id == 8 then OperationKind.Conversion(Some(ImplicitOperator), 9)
      else Literal;
    Operation(kind, id == 5 || id == 8, CallSyntax(id), if id <= 1 then None else Some(id - 1), if id <= 1 then 0 else id - 1)
  }

  function CallOperations(outer: Option<MethodSymbol>): (ops: map<OpId, Operation>)
    ensures forall id :: id in ops <==> 1 <= id <= 9
  {
    map id: OpId | 1 <= id <= 9 :: CallOperation(outer, id)
  }

  const CallBindings: map<Path, OpId> :=
    map[[] := 1, [0] := 2, [0, 1] := 3, [0, 1, 0] := 4, ValuePath := 6, ArgumentPath := 7, ArgumentLiteralPath := 9]

  function CallDocument(outer: Option<MethodSymbol>): (doc: Document) {
    Document(CallStatement(outer), SemanticModel(CallOperations(outer), CallBindings))
  }

  /** The diagnostic the analyzer reports at the literal. */
  const LiteralDiagnostic: Diagnostic := Diagnostic(Rule, ArgumentLiteralPath)

  lemma CallPathsValid(outer: Option<MethodSymbol>)
    ensures var s := CallStatement(outer);
      && ValidPath(s, ValuePath) && At(s, ValuePath) == Call
      && ValidPath(s, ArgumentPath) && At(s, ArgumentPath) == Call.children[1].children[0]
      && ValidPath(s, ArgumentLiteralPath) && At(s, ArgumentLiteralPath) == HelloLiteral
    ensures forall j :: 0 <= j < |ValuePath| ==>
      ValidPath(CallStatement(outer), ValuePath[..j])
      && Width(At(CallStatement(outer), ValuePath[..j])) > Width(Call)
  {
    var s := CallStatement(outer);
    DeclarationLevels(DeclaredType(outer), if outer.None? then "o" else "t", Call);
    AtChild(s, ValuePath, 1);
    AtChild(s, ValuePath + [1], 0);
    assert ValuePath + [1] + [0] == ArgumentPath;
    AtChild(s, ArgumentPath, 0);
    assert ArgumentPath + [0] == ArgumentLiteralPath;
  }

  lemma CallPrefixesValid(outer: Option<MethodSymbol>)
    ensures ValidPath(CallStatement(outer), []) && ValidPath(CallStatement(outer), [0])
    ensures ValidPath(CallStatement(outer), [0, 1]) && ValidPath(CallStatement(outer), [0, 1, 0])
  {
    CallPathsValid(outer);
    assert ValuePath[..0] == [] && ValuePath[..1] == [0] && ValuePath[..2] == [0, 1] && ValuePath[..3] == [0, 1, 0];
  }

  /** The argument sits in an argument list's slot, which takes only an
      argument; the literal sits in the argument's expression slot. */
  lemma CallSlots(outer: Option<MethodSymbol>)
    ensures ValidPath(CallStatement(outer), ArgumentPath)
      && SlotAt(StatementSlot, CallStatement(outer), ArgumentPath) == ArgumentSlot
    ensures ValidPath(CallStatement(outer), ArgumentLiteralPath)
      && SlotAt(StatementSlot, CallStatement(outer), ArgumentLiteralPath) == ExpressionSlot
  {
    var s := CallStatement(outer);
    CallPathsValid(outer);
    AtChild(s, ValuePath, 1);
    assert ValuePath + [1] + [0] == ArgumentPath;
    SlotAtChild(StatementSlot, s, ValuePath + [1], 0);
    assert ArgumentPath + [0] == ArgumentLiteralPath;
    SlotAtChild(StatementSlot, s, ArgumentPath, 0);
  }

  lemma RenderCall()
    ensures Render(Call.children[1]) == "(\"Hello\")"
    ensures Render(Call) == "Bar(\"Hello\")"
  {
    var args := Call.children[1];
    assert RenderChildren(args.children[0], 0, "") == Render(HelloLiteral);
    assert RenderChildren(args, 0, ", ") == Render(HelloLiteral);
    assert RenderChildren(Call, 1, "") == Render(args);
    assert RenderChildren(Call, 0, "") == "Bar" + "" + Render(args);
  }

  lemma CallParentsWellFormed(outer: Option<MethodSymbol>)
    ensures ParentsWellFormed(CallOperations(outer))
  {
  }

  lemma CallOperandsExist(outer: Option<MethodSymbol>)
    ensures OperandsExist(CallOperations(outer))
  {
  }

  lemma CallSyntaxInTree(outer: Option<MethodSymbol>)
    ensures SyntaxInTree(CallStatement(outer), CallOperations(outer))
  {
    CallPathsValid(outer);
    CallPrefixesValid(outer);
    assert forall id :: 1 <= id <= 9 ==> ValidPath(CallStatement(outer), CallSyntax(id));
  }

  lemma CallBindingsInTree(outer: Option<MethodSymbol>)
    ensures BindingsInTree(CallDocument(outer))
  {
    CallPathsValid(outer);
    CallPrefixesValid(outer);
    assert CallBindings.Keys == {[], [0], [0, 1], [0, 1, 0], ValuePath, ArgumentPath, ArgumentLiteralPath};
  }

  lemma CallIsWellFormed(outer: Option<MethodSymbol>)
    ensures WellFormed(CallDocument(outer))
  {
    CallParentsWellFormed(outer);
    CallOperandsExist(outer);
    CallSyntaxInTree(outer);
    CallBindingsInTree(outer);
  }

  /** The user-defined conversion of the literal is reported; the
      conversion of the call's result is reported only when it has an
      operator method. */
  lemma CallDiagnostics(outer: Option<MethodSymbol>)
    ensures RunAnalyzer(CallDocument(outer).semantics)
      == if outer.None? then map[8 := LiteralDiagnostic]
         else map[5 := Diagnostic(Rule, ValuePath), 8 := LiteralDiagnostic]
  {
    var ds := RunAnalyzer(CallDocument(outer).semantics);
    assert 8 in ds;
    if outer.None? {
      assert ds.Keys == {8};
    } else {
      assert 5 in ds;
      assert ds.Keys == {5, 8};
    }
  }

  /** The span lookup for the literal returns its argument. */
  lemma CallFindNode(outer: Option<MethodSymbol>)
    ensures ValidPath(CallStatement(outer), ArgumentLiteralPath)
    ensures FindNode(CallStatement(outer), ArgumentLiteralPath) == ArgumentPath
  {
    var s := CallStatement(outer);
    CallPathsValid(outer);
    FindNodeLeavesArgument(s, ArgumentPath);
    assert ArgumentPath + [0] == ArgumentLiteralPath;
    RenderCall();
    var p := ArgumentLiteralPath;
    var q := FindNode(s, p);
    var m := |q|;
    assert q == p[..m];
    assert Width(At(s, q)) == Width(HelloLiteral) == 7;
    assert p[..5] == ValuePath + [1];
    AtChild(s, ValuePath, 1);
    assert p[..4] == ValuePath;
    assert forall j :: 0 <= j <= 4 ==> p[..j] == ValuePath[..j];
    assert At(s, p[..5]) == Call.children[1];
    if m < 6 {
      assert false;
    }
    assert q == ArgumentPath;
  }

  /** From the argument the walk passes the invocation and stops at the
      conversion of the call's result. */
  lemma WalkFromArgument(outer: Option<MethodSymbol>)
    ensures WellFormed(CallDocument(outer))
    ensures FoundConversion(CallDocument(outer), ArgumentPath) == Some(5)
  {
    CallIsWellFormed(outer);
    CallParentsWellFormed(outer);
    var ops := CallOperations(outer);
    assert GetOperation(CallDocument(outer).semantics, ArgumentPath) == Some(7);
    assert ops[7] == CallOperation(outer, 7) && ops[6] == CallOperation(outer, 6) && ops[5] == CallOperation(outer, 5);
    assert !IsConversion(ops, 7) && ops[7].parent == Some(6);
    assert !IsConversion(ops, 6) && ops[6].parent == Some(5) && IsConversion(ops, 5);
    WalkSkipsNonConversion(ops, 7, 6);
    WalkStopsAtParentConversion(ops, 6, 5);
  }

  /** `object o = Bar("Hello");`: the registered fix, run for the one
      diagnostic of this statement, raises.  It targets the argument, whose
      walk ends at a conversion without an operator method. */
  lemma ArgumentFixRaises()
    ensures RunAnalyzer(CallDocument(None).semantics) == map[8 := LiteralDiagnostic]
    ensures WellFormed(CallDocument(None)) && ValidPath(CallStatement(None), ArgumentLiteralPath)
    ensures FixDiagnostic(CallDocument(None), TestSymbols, LiteralDiagnostic) == Err(NullReference)
  {
    CallDiagnostics(None);
    CallFindNode(None);
    WalkFromArgument(None);
    assert CallOperations(None)[5].kind.operatorMethod.None?;
    FixRaisesOnMissingOperatorMethod(CallDocument(None), TestSymbols, ArgumentPath, 5);
  }

  /** `Test t = Bar("Hello");`: for the literal's diagnostic the registered
      fix targets the argument and walks to the conversion of the call's
      result, which has the operator.  It builds
      `new ConsoleApplication1.Test(Bar("Hello"))` and puts it in the
      argument's slot, which takes only an argument: the rebuild fails on
      the cast. */
  lemma ArgumentFixInvalidCast()
    ensures RunAnalyzer(CallDocument(Some(ImplicitOperator)).semantics)[8] == LiteralDiagnostic
    ensures WellFormed(CallDocument(Some(ImplicitOperator)))
    ensures ValidPath(CallStatement(Some(ImplicitOperator)), ArgumentLiteralPath)
    ensures FixDiagnostic(CallDocument(Some(ImplicitOperator)), TestSymbols, LiteralDiagnostic) == Err(InvalidCast)
  {
    CallDiagnostics(Some(ImplicitOperator));
    CallFindNode(Some(ImplicitOperator));
    ArgumentTargetInvalidCast();
  }

  /** The fix aimed at the argument of `Test t = Bar("Hello");`. */
  lemma ArgumentTargetInvalidCast()
    ensures WellFormed(CallDocument(Some(ImplicitOperator)))
    ensures ValidPath(CallStatement(Some(ImplicitOperator)), ArgumentPath)
    ensures ReplaceImplicitCastOperator(CallDocument(Some(ImplicitOperator)), TestSymbols, ArgumentPath)
      == Err(InvalidCast)
  {
    var doc := CallDocument(Some(ImplicitOperator));
    WalkFromArgument(Some(ImplicitOperator));
    CallSlots(Some(ImplicitOperator));
    SampleConstructorSelected();
    OuterOperator();
    FixRaisesOnNonExpressionSlot(doc, TestSymbols, ArgumentPath, 5, ImplicitOperator, 0);
  }

  lemma OuterOperator()
    ensures 5 in CallOperations(Some(ImplicitOperator))
    ensures CallOperations(Some(ImplicitOperator))[5].kind.operatorMethod == Some(ImplicitOperator)
  {
    assert CallOperations(Some(ImplicitOperator))[5] == CallOperation(Some(ImplicitOperator), 5);
  }

  /** The literal is bound to operation 9, the operand of the conversion
      the analyzer reports. */
  lemma LiteralBoundThroughOperand(outer: Option<MethodSymbol>)
    ensures BoundThroughOperand(CallDocument(outer).semantics, 8)
    ensures var ops := CallOperations(outer);
      ops[8].kind == OperationKind.Conversion(Some(ImplicitOperator), 9) && ops[9].syntax == ArgumentLiteralPath
  {
    var ops := CallOperations(outer);
    assert ops[8] == CallOperation(outer, 8) && ops[9] == CallOperation(outer, 9);
    assert GetOperation(CallDocument(outer).semantics, ArgumentLiteralPath) == Some(9);
  }

  /** Aimed at the reported literal instead, the fix rewrites the argument
      to `Bar(new ConsoleApplication1.Test("Hello"))`, whatever the
      conversion of the call's result. */
  lemma ReportedNodeFixed(outer: Option<MethodSymbol>)
    ensures WellFormed(CallDocument(outer)) && ValidPath(CallStatement(outer), ArgumentLiteralPath)
    ensures FixReportedNode(CallDocument(outer), TestSymbols, LiteralDiagnostic)
      == Ok(ReplaceAt(CallStatement(outer), ArgumentLiteralPath, Creation))
  {
    var doc := CallDocument(outer);
    CallIsWellFormed(outer);
    CallPathsValid(outer);
    CallSlots(outer);
    CallDiagnostics(outer);
    LiteralBoundThroughOperand(outer);
    ReportedNodeNeverRaisesNull(doc, TestSymbols, 8);
    SampleConstructorSelected();
    TestConstruction();
    FixRewritesLocatedNode(doc, TestSymbols, ArgumentLiteralPath, 8, ImplicitOperator, 0);
  }

  /** In `Test t = Bar("Hello");` both conversions are reported, and the
      call's location is a prefix of the literal's: the fixes of the two
      diagnostics target nested nodes, not disjoint ones. */
  lemma NestedTargets()
    ensures var ds := RunAnalyzer(CallDocument(Some(ImplicitOperator)).semantics);
      && ds.Keys == {5, 8}
      && ds[5].location <= ds[8].location && !Disjoint(ds[5].location, ds[8].location)
  {
    CallDiagnostics(Some(ImplicitOperator));
    assert ValuePath <= ArgumentLiteralPath;
  }
}
