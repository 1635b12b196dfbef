/** The program of the unit test: a type `ConsoleApplication1.Test` with a
    constructor from `string` and an implicit operator from `string`, and
    the statement `Test test = "Hello";` that uses the operator. */
module Sample {
  import opened Wrappers
  import opened Symbols
  import opened Syntax
  import opened Operations
  import opened Analyzer
  import opened CodeFix

  const StringType: TypeSymbol := NamedType(["System"], "String")
  const ObjectType: TypeSymbol := NamedType(["System"], "Object")
  const TestType: TypeSymbol := NamedType(["ConsoleApplication1"], "Test")

  const TestConstructor: MethodSymbol := MethodSymbol(Constructor, [Parameter("_", StringType)], TestType)
  const ImplicitOperator: MethodSymbol := MethodSymbol(MethodKind.Conversion, [Parameter("_", StringType)], TestType)

  /** The members of `Test`: its constructor and its conversion operator. */
  const TestSymbols: SymbolTable := map[TestType := [Method(TestConstructor), Method(ImplicitOperator)]]

  const HelloLiteral: SyntaxNode := SyntaxNode(StringLiteralExpression("Hello"), [])

  /** `typeName variable = value;` */
  function DeclarationOf(typeName: string, variable: string, value: SyntaxNode): (n: SyntaxNode) {
    SyntaxNode(LocalDeclarationStatement, [
      SyntaxNode(SyntaxKind.VariableDeclaration, [
        SyntaxNode(IdentifierName(typeName), []),
        SyntaxNode(SyntaxKind.VariableDeclarator(variable), [
          SyntaxNode(EqualsValueClause, [value])])])])
  }

  /** Where the initial value sits in a declaration. */
  const ValuePath: Path := [0, 1, 0, 0]

  /** The initial value of a declaration sits where an expression may. */
  lemma ValueSlot(typeName: string, variable: string, value: SyntaxNode)
    ensures ValidPath(DeclarationOf(typeName, variable, value), ValuePath)
    ensures SlotAt(StatementSlot, DeclarationOf(typeName, variable, value), ValuePath) == ExpressionSlot
  {
    var d := DeclarationOf(typeName, variable, value);
    assert ValuePath[1..] == [1, 0, 0] && [1, 0, 0][1..] == [0, 0] && [0, 0][1..] == [0] && [0][1..] == [];
    assert SlotAt(StatementSlot, d, ValuePath) == SlotAt(DeclarationSlot, d.children[0], [1, 0, 0]);
    assert SlotAt(DeclarationSlot, d.children[0], [1, 0, 0])
      == SlotAt(DeclaratorSlot, d.children[0].children[1], [0, 0]);
  }

  /** `Test test = "Hello";` */
  const Statement: SyntaxNode := DeclarationOf("Test", "test", HelloLiteral)

  /** The literal, which is also where the implicit conversion is bound. */
  const LiteralPath: Path := ValuePath

  /** The syntax node each operation of the statement is bound from. */
  function SampleSyntax(id: OpId): (p: Path) {
    if id == 1 then [] else if id == 2 then [0] else if id == 3 then [0, 1]
    else if id == 4 then [0, 1, 0] else LiteralPath
  }

  /** Operation `id` of the statement, 1 to 6 from the declaration group
      down to the literal; each one's parent is the one before it.
      Operation 5 is the implicit conversion wrapping the literal; with
      `operatorMethod` absent it is a built-in conversion instead. */
  function SampleOperation(id: OpId, operatorMethod: Option<MethodSymbol>): (op: Operation) {
    var kind :=
      if id == 1 then VariableDeclarationGroup
      else if id == 2 then OperationKind.VariableDeclaration
      else if id == 3 then OperationKind.VariableDeclarator
      else if id == 4 then VariableInitializer
      else if id == 5 then OperationKind.Conversion(operatorMethod, 6)
      else Literal;
    Operation(kind, id == 5, SampleSyntax(id), if id <= 1 then None else Some(id - 1), if id <= 1 then 0 else id - 1)
  }

  function SampleOperations(operatorMethod: Option<MethodSymbol>): (ops: map<OpId, Operation>)
    ensures forall id :: id in ops <==> 1 <= id <= 6
  {
    map id: OpId | 1 <= id <= 6 :: SampleOperation(id, operatorMethod)
  }

  const Bindings: map<Path, OpId> := map[[] := 1, [0] := 2, [0, 1] := 3, [0, 1, 0] := 4, LiteralPath := 6]

  function SampleDocument(operatorMethod: Option<MethodSymbol>): (doc: Document) {
    Document(Statement, SemanticModel(SampleOperations(operatorMethod), Bindings))
  }

  /** `new ConsoleApplication1.Test("Hello")` */
  const Creation: SyntaxNode :=
    SyntaxNode(ObjectCreationExpression, [
      SyntaxNode(ParsedTypeName("ConsoleApplication1.Test"), []),
      SyntaxNode(ArgumentList, [SyntaxNode(Syntax.Argument, [HelloLiteral])])])

  /** `Test test = new ConsoleApplication1.Test("Hello");` */
  const FixedStatement: SyntaxNode := DeclarationOf("Test", "test", Creation)

  lemma LiteralPathValid()
    ensures ValidPath(Statement, LiteralPath) && At(Statement, LiteralPath) == HelloLiteral
    ensures ValidPath(Statement, [0, 1, 0]) && ValidPath(Statement, [0, 1]) && ValidPath(Statement, [0])
  {
    var d := Statement.children[0].children[1];
    var e := d.children[0];
    assert ValidPath(e, [0]) && At(e, [0]) == HelloLiteral;
    assert [0, 0][1..] == [0];
    assert ValidPath(d, [0, 0]) && At(d, [0, 0]) == HelloLiteral;
    assert [1, 0, 0][1..] == [0, 0];
    assert ValidPath(Statement.children[0], [1, 0, 0]);
    assert LiteralPath[1..] == [1, 0, 0];
    assert [0, 1, 0][1..] == [1, 0];
    assert [1, 0][1..] == [0];
    assert [0, 1][1..] == [1];
  }

  lemma SampleParentsWellFormed(operatorMethod: Option<MethodSymbol>)
    ensures ParentsWellFormed(SampleOperations(operatorMethod))
  {
  }

  lemma SampleOperandsExist(operatorMethod: Option<MethodSymbol>)
    ensures OperandsExist(SampleOperations(operatorMethod))
  {
  }

  lemma SampleSyntaxInTree(operatorMethod: Option<MethodSymbol>)
    ensures SyntaxInTree(Statement, SampleOperations(operatorMethod))
  {
    LiteralPathValid();
    assert forall id :: 1 <= id <= 6 ==> ValidPath(Statement, SampleSyntax(id));
  }

  lemma SampleBindingsInTree(operatorMethod: Option<MethodSymbol>)
    ensures BindingsInTree(SampleDocument(operatorMethod))
  {
    LiteralPathValid();
    assert Bindings.Keys == {[], [0], [0, 1], [0, 1, 0], LiteralPath};
  }

  lemma SampleIsWellFormed(operatorMethod: Option<MethodSymbol>)
    ensures WellFormed(SampleDocument(operatorMethod))
  {
    SampleParentsWellFormed(operatorMethod);
    SampleOperandsExist(operatorMethod);
    SampleSyntaxInTree(operatorMethod);
    SampleBindingsInTree(operatorMethod);
  }

  lemma SampleLiteralBinding(operatorMethod: Option<MethodSymbol>)
    ensures GetOperation(SampleDocument(operatorMethod).semantics, LiteralPath) == Some(6)
  {
    assert LiteralPath in Bindings && Bindings[LiteralPath] == 6;
  }

  /** The walk from the literal's operation passes the literal and stops
      at the implicit conversion. */
  lemma SampleWalk(operatorMethod: Option<MethodSymbol>)
    ensures ParentsWellFormed(SampleOperations(operatorMethod))
    ensures EnclosingConversion(SampleOperations(operatorMethod), Some(6)) == Some(5)
  {
    SampleParentsWellFormed(operatorMethod);
    var ops := SampleOperations(operatorMethod);
    assert ops[6].parent == Some(5) && ops[5].kind.Conversion? && !ops[6].kind.Conversion?;
    WalkStopsAtParentConversion(ops, 6, 5);
  }

  lemma SampleFoundConversion(operatorMethod: Option<MethodSymbol>)
    ensures WellFormed(SampleDocument(operatorMethod))
    ensures FoundConversion(SampleDocument(operatorMethod), LiteralPath) == Some(5)
  {
    SampleIsWellFormed(operatorMethod);
    SampleLiteralBinding(operatorMethod);
    SampleWalk(operatorMethod);
  }

  /** Renders the declaration `typeName variable = value;`. */
  lemma RenderDeclaration(typeName: string, variable: string, value: SyntaxNode)
    ensures Render(DeclarationOf(typeName, variable, value))
      == typeName + " " + variable + " = " + Render(value) + ";"
  {
    var eq := SyntaxNode(EqualsValueClause, [value]);
    assert RenderChildren(eq, 0, "") == Render(value);
    var declarator := SyntaxNode(SyntaxKind.VariableDeclarator(variable), [eq]);
    assert RenderChildren(declarator, 0, "") == Render(eq);
    assert Render(declarator) == variable + " = " + Render(value);
    var typeName := SyntaxNode(IdentifierName(typeName), []);
    var decl := SyntaxNode(SyntaxKind.VariableDeclaration, [typeName, declarator]);
    assert RenderChildren(decl, 1, " ") == Render(declarator);
    assert RenderChildren(decl, 0, " ") == typeName.kind.identifier + " " + Render(declarator);
    var statement := SyntaxNode(LocalDeclarationStatement, [decl]);
    assert RenderChildren(statement, 0, "") == Render(decl);
  }

  /** The value of a declaration is reached by `ValuePath`, and every node
      above it is wider than it: each adds `=`, the variable, the type or
      the semicolon. */
  lemma DeclarationLevels(typeName: string, variable: string, value: SyntaxNode)
    ensures var n := DeclarationOf(typeName, variable, value);
      && ValidPath(n, ValuePath) && At(n, ValuePath) == value
      && forall j :: 0 <= j < |ValuePath| ==>
           ValidPath(n, ValuePath[..j]) && Width(At(n, ValuePath[..j])) > Width(value)
  {
    var n := DeclarationOf(typeName, variable, value);
    var decl := n.children[0];
    var declarator := decl.children[1];
    var eq := declarator.children[0];
    assert RenderChildren(eq, 0, "") == Render(value);
    assert RenderChildren(declarator, 0, "") == Render(eq);
    assert RenderChildren(decl, 1, " ") == Render(declarator);
    assert RenderChildren(n, 0, "") == Render(decl);
    assert ValuePath[..0] == [] && ValuePath[..1] == [0] && ValuePath[..2] == [0, 1] && ValuePath[..3] == [0, 1, 0];
    assert ValuePath[1..] == [1, 0, 0] && [1, 0, 0][1..] == [0, 0] && [0, 0][1..] == [0];
    assert [0, 1][1..] == [1] && [0, 1, 0][1..] == [1, 0] && [1, 0][1..] == [0];
  }

  /** The span lookup for a declaration's value returns the value itself. */
  lemma FindDeclarationValue(typeName: string, variable: string, value: SyntaxNode)
    ensures ValidPath(DeclarationOf(typeName, variable, value), ValuePath)
    ensures FindNode(DeclarationOf(typeName, variable, value), ValuePath) == ValuePath
  {
    var n := DeclarationOf(typeName, variable, value);
    DeclarationLevels(typeName, variable, value);
    var q := FindNode(n, ValuePath);
    var m := |q|;
    assert q == ValuePath[..m];
    if m < |ValuePath| {
      assert false;
    }
  }

  lemma RenderArguments()
    ensures Render(Creation.children[1]) == "(" + Render(HelloLiteral) + ")"
  {
    var argument := SyntaxNode(Syntax.Argument, [HelloLiteral]);
    assert RenderChildren(argument, 0, "") == Render(HelloLiteral);
    var args := SyntaxNode(ArgumentList, [argument]);
    assert RenderChildren(args, 0, ", ") == Render(HelloLiteral);
  }

  lemma RenderCreationShape()
    ensures Render(Creation) == "new ConsoleApplication1.Test" + Render(Creation.children[1])
  {
    assert RenderChildren(Creation, 1, "") == Render(Creation.children[1]);
    assert RenderChildren(Creation, 0, "") == "ConsoleApplication1.Test" + "" + Render(Creation.children[1]);
  }

  lemma RenderCreation()
    ensures Render(Creation) == "new ConsoleApplication1.Test(\"Hello\")"
  {
    RenderCreationShape();
    RenderArguments();
    assert Render(HelloLiteral) == "\"Hello\"";
  }

  lemma RenderTestDeclaration(value: SyntaxNode)
    ensures Render(DeclarationOf("Test", "test", value)) == "Test test = " + Render(value) + ";"
  {
    RenderDeclaration("Test", "test", value);
    assert "Test" + " " + "test" + " = " == "Test test = ";
  }

  lemma RenderOriginal()
    ensures Render(Statement) == "Test test = \"Hello\";"
  {
    RenderTestDeclaration(HelloLiteral);
    assert Render(HelloLiteral) == "\"Hello\"";
  }

  lemma RenderFixed()
    ensures Render(FixedStatement) == "Test test = new ConsoleApplication1.Test(\"Hello\");"
  {
    RenderTestDeclaration(Creation);
    RenderCreation();
  }

  lemma ReplaceLiteral()
    ensures ValidPath(Statement, LiteralPath)
    ensures ReplaceAt(Statement, LiteralPath, Creation) == FixedStatement
  {
    LiteralPathValid();
    var decl := Statement.children[0];
    var declarator := decl.children[1];
    var eq := declarator.children[0];
    assert ReplaceAt(eq, [0], Creation) == SyntaxNode(EqualsValueClause, [Creation]);
    assert [0, 0][1..] == [0];
    assert ReplaceAt(declarator, [0, 0], Creation) == FixedStatement.children[0].children[1];
    assert [1, 0, 0][1..] == [0, 0];
    assert ReplaceAt(decl, [1, 0, 0], Creation) == FixedStatement.children[0];
    assert LiteralPath[1..] == [1, 0, 0];
  }

  /** The replacement for the literal is `new ConsoleApplication1.Test("Hello")`. */
  lemma TestConstruction()
    ensures ExplicitConstruction(TestType, HelloLiteral) == Creation
  {
    DisplayTestType();
  }

  lemma DisplayTestType()
    ensures DisplayString(TestType) == "ConsoleApplication1.Test"
  {
    var segs := ["ConsoleApplication1", "Test"];
    assert TestType.containers + [TestType.name] == segs;
    assert segs[..1] == ["ConsoleApplication1"];
  }

  /** `Test`'s constructor from `string` is the one accepted constructor. */
  lemma SampleConstructorSelected()
    ensures var members := GetMembers(TestSymbols, TestType);
      && 0 < |members| && IsMatchingConstructor(members[0], ImplicitOperator)
      && forall i :: 0 <= i < |members| && IsMatchingConstructor(members[i], ImplicitOperator) ==> i == 0
  {
    var members := GetMembers(TestSymbols, TestType);
    assert members == [Method(TestConstructor), Method(ImplicitOperator)];
    assert ParameterTypes(TestConstructor) == [StringType] == ParameterTypes(ImplicitOperator);
  }

  /** Operation 5 is the conversion calling `ImplicitOperator`, with the
      literal as its operand. */
  lemma SampleConversion()
    ensures var ops := SampleOperations(Some(ImplicitOperator));
      && 5 in ops && ops[5].kind == OperationKind.Conversion(Some(ImplicitOperator), 6)
      && 6 in ops && ops[6].syntax == LiteralPath
  {
  }

  /** The replacement built for the sample is `new ConsoleApplication1.Test("Hello")`. */
  lemma SampleReplacement()
    ensures var ops := SampleOperations(Some(ImplicitOperator));
      && ops[5].kind.Conversion? && ops[5].kind.operatorMethod == Some(ImplicitOperator)
      && ops[5].kind.operand in ops && ValidPath(Statement, ops[ops[5].kind.operand].syntax)
      && ExplicitConstruction(TestType, At(Statement, ops[ops[5].kind.operand].syntax)) == Creation
  {
    SampleConversion();
    LiteralPathValid();
    DisplayTestType();
  }

  /** The fix rewrites the sample to the expected statement. */
  lemma SampleFix()
    ensures WellFormed(SampleDocument(Some(ImplicitOperator)))
    ensures ValidPath(Statement, LiteralPath)
    ensures ReplaceImplicitCastOperator(SampleDocument(Some(ImplicitOperator)), TestSymbols, LiteralPath)
      == Ok(FixedStatement)
  {
    SampleFoundConversion(Some(ImplicitOperator));
    LiteralPathValid();
    SampleConstructorSelected();
    SampleReplacement();
    ValueSlot("Test", "test", HelloLiteral);
    FixRewritesLocatedNode(SampleDocument(Some(ImplicitOperator)), TestSymbols, LiteralPath, 5, ImplicitOperator, 0);
    ReplaceLiteral();
  }

  /** The unit test's expectation: one diagnostic, with the rule's id and
      warning severity, located at the literal "Hello" (line 14, column 29
      of the test's source), and the registered fix for it producing
      `Test test = new ConsoleApplication1.Test("Hello");`.  The span
      lookup returns the literal itself here, so aiming the fix at the
      reported node gives the same result. */
  lemma WorkedExample()
    ensures RunAnalyzer(SampleDocument(Some(ImplicitOperator)).semantics)
      == map[5 := Diagnostic(DiagnosticDescriptor("AnalyzerPlayground", Warning, true), LiteralPath)]
    ensures Render(Statement) == "Test test = \"Hello\";"
    ensures ValidPath(Statement, LiteralPath) && WellFormed(SampleDocument(Some(ImplicitOperator)))
    ensures var r := FixDiagnostic(SampleDocument(Some(ImplicitOperator)), TestSymbols, Diagnostic(Rule, LiteralPath));
      r.Ok? && Render(r.value) == "Test test = new ConsoleApplication1.Test(\"Hello\");"
    ensures FixReportedNode(SampleDocument(Some(ImplicitOperator)), TestSymbols, Diagnostic(Rule, LiteralPath))
      == FixDiagnostic(SampleDocument(Some(ImplicitOperator)), TestSymbols, Diagnostic(Rule, LiteralPath))
  {
    SampleDiagnostic(Some(ImplicitOperator));
    RenderOriginal();
    SampleFix();
    RenderFixed();
    FindDeclarationValue("Test", "test", HelloLiteral);
  }

  /** Diagnostics on the sample: one exactly when the conversion calls an
      operator method, none for a built-in conversion. */
  lemma SampleDiagnostic(operatorMethod: Option<MethodSymbol>)
    ensures operatorMethod.Some? ==>
      RunAnalyzer(SampleDocument(operatorMethod).semantics) == map[5 := Diagnostic(Rule, LiteralPath)]
    ensures operatorMethod.None? ==> RunAnalyzer(SampleDocument(operatorMethod).semantics) == map[]
  {
    var ds := RunAnalyzer(SampleDocument(operatorMethod).semantics);
    if operatorMethod.Some? {
      assert 5 in ds;
      assert ds.Keys == {5};
    } else {
      assert ds.Keys == {};
    }
  }

  const ObjectConstructor: MethodSymbol := MethodSymbol(Constructor, [Parameter("value", ObjectType)], TestType)

  /** `Test` with a constructor from `object` instead of one from `string`. */
  const ObjectOnlySymbols: SymbolTable := map[TestType := [Method(ObjectConstructor), Method(ImplicitOperator)]]

  lemma ObjectConstructorRejected()
    ensures var members := GetMembers(ObjectOnlySymbols, TestType);
      forall i :: 0 <= i < |members| ==> !IsMatchingConstructor(members[i], ImplicitOperator)
  {
    var members := GetMembers(ObjectOnlySymbols, TestType);
    assert members == [Method(ObjectConstructor), Method(ImplicitOperator)];
    assert ParameterTypes(ObjectConstructor) == [ObjectType];
    assert ParameterTypes(ImplicitOperator) == [StringType];
  }

  /** With only a constructor from `object`, the fix declines and leaves
      the statement unchanged (the analyzer still reports, as
      `SampleDiagnostic` shows): constructor parameters must have the
      operator's types exactly. */
  lemma SampleWithoutMatchingConstructor()
    ensures WellFormed(SampleDocument(Some(ImplicitOperator))) && ValidPath(Statement, LiteralPath)
    ensures ReplaceImplicitCastOperator(SampleDocument(Some(ImplicitOperator)), ObjectOnlySymbols, LiteralPath)
      == Ok(Statement)
  {
    SampleFoundConversion(Some(ImplicitOperator));
    SampleConversion();
    LiteralPathValid();
    ObjectConstructorRejected();
    FixDeclinesWithoutConstructor(SampleDocument(Some(ImplicitOperator)), ObjectOnlySymbols, LiteralPath, 5, ImplicitOperator);
  }

  /** A second constructor taking one `string`, as `Test(ref string s)`
      would be: parameter modifiers are not modelled, and the fix compares
      parameter types only. */
  const RefConstructor: MethodSymbol := MethodSymbol(Constructor, [Parameter("s", StringType)], TestType)

  const AmbiguousSymbols: SymbolTable :=
    map[TestType := [Method(TestConstructor), Method(RefConstructor), Method(ImplicitOperator)]]

  lemma BothConstructorsMatch()
    ensures TwoMatchesAmong(GetMembers(AmbiguousSymbols, TestType), ImplicitOperator)
  {
    var members := GetMembers(AmbiguousSymbols, TestType);
    assert members == [Method(TestConstructor), Method(RefConstructor), Method(ImplicitOperator)];
    assert ParameterTypes(TestConstructor) == [StringType] == ParameterTypes(ImplicitOperator);
    assert ParameterTypes(RefConstructor) == [StringType];
    assert IsMatchingConstructor(members[0], ImplicitOperator) && IsMatchingConstructor(members[1], ImplicitOperator);
  }

  /** With two constructors from `string` the fix raises instead of
      declining. */
  lemma SampleAmbiguousConstructors()
    ensures WellFormed(SampleDocument(Some(ImplicitOperator))) && ValidPath(Statement, LiteralPath)
    ensures ReplaceImplicitCastOperator(SampleDocument(Some(ImplicitOperator)), AmbiguousSymbols, LiteralPath)
      == Err(MoreThanOneMatch)
  {
    SampleFoundConversion(Some(ImplicitOperator));
    SampleConversion();
    LiteralPathValid();
    BothConstructorsMatch();
    FixRaisesOnAmbiguousConstructors(SampleDocument(Some(ImplicitOperator)), AmbiguousSymbols, LiteralPath, 5, ImplicitOperator);
  }

  /** Invoked on the statement when its conversion is built in, the fix
      finds that conversion and dereferences its missing operator method. */
  lemma SampleBuiltInConversionRaises()
    ensures WellFormed(SampleDocument(None)) && ValidPath(Statement, LiteralPath)
    ensures ReplaceImplicitCastOperator(SampleDocument(None), TestSymbols, LiteralPath) == Err(NullReference)
  {
    SampleFoundConversion(None);
    LiteralPathValid();
    assert SampleOperations(None)[5].kind.operatorMethod.None?;
    FixRaisesOnMissingOperatorMethod(SampleDocument(None), TestSymbols, LiteralPath, 5);
  }
}
