/** The code fix: from the node a diagnostic points at, walk up to the
    enclosing conversion, look for the constructor of the operator's return
    type whose parameter types equal the operator's, and if there is exactly
    one, replace the node by an explicit construction of that type from the
    conversion's operand. */
module CodeFix {
  import opened Wrappers
  import opened Symbols
  import opened Syntax
  import opened Operations
  import Analyzer

  /** The exceptions the fix can raise: dereferencing a missing operator
      method, more than one constructor matching, and the rebuilt tree
      failing a cast because the new node does not fit the replaced one's
      slot. */
  datatype FixError = NullReference | MoreThanOneMatch | InvalidCast

  // ----- Ancestor walk ---------------------------------------------------

  /** The index of the first conversion in `chain`, or `|chain|` if there is none. */
  function FirstConversionIndex(ops: map<OpId, Operation>, chain: seq<OpId>): (i: nat)
    ensures i <= |chain|
    ensures forall j :: 0 <= j < i ==> !IsConversion(ops, chain[j])
    ensures i < |chain| ==> IsConversion(ops, chain[i])
    decreases |chain|
  {
    if |chain| == 0 then 0
    else if IsConversion(ops, chain[0]) then 0
    else 1 + FirstConversionIndex(ops, chain[1..])
  }

  /** The conversion the walk stops at: the first element of the parent
      chain from `start` (inclusive) that is a conversion. */
  function EnclosingConversion(ops: map<OpId, Operation>, start: Option<OpId>): (r: Option<OpId>)
    requires ParentsWellFormed(ops)
    ensures r.None? <==> forall j :: 0 <= j < |Chain(ops, start)| ==> !IsConversion(ops, Chain(ops, start)[j])
    ensures r.Some? ==> IsConversion(ops, r.value)
    ensures r.Some? ==> exists i :: 0 <= i < |Chain(ops, start)| && Chain(ops, start)[i] == r.value
                          && forall j :: 0 <= j < i ==> !IsConversion(ops, Chain(ops, start)[j])
  {
    var chain := Chain(ops, start);
    var i := FirstConversionIndex(ops, chain);
    if i < |chain| then Some(chain[i]) else None
  }

  /** The walk as the fix performs it: follow parent links from `start`
      while the current operation is not a conversion. */
  method FindEnclosingConversion(ops: map<OpId, Operation>, start: Option<OpId>) returns (found: Option<OpId>)
    requires ParentsWellFormed(ops)
    requires start.Some? ==> start.value in ops
    ensures found == EnclosingConversion(ops, start)
  {
    ghost var chain := Chain(ops, start);
    ghost var k := 0;
    var operation := start;
    while operation.Some? && !ops[operation.value].kind.Conversion?
      invariant k <= |chain|
      invariant operation == (if k < |chain| then Some(chain[k]) else None)
      invariant forall j :: 0 <= j < k ==> !IsConversion(ops, chain[j])
      decreases |chain| - k
    {
      operation := ops[operation.value].parent;
      k := k + 1;
    }
    assert FirstConversionIndex(ops, chain) == k;
    found := operation;
  }

  /** One step of the walk: from an operation that is not a conversion
      the walk continues at its parent. */
  lemma WalkSkipsNonConversion(ops: map<OpId, Operation>, x: OpId, p: OpId)
    requires ParentsWellFormed(ops) && x in ops && !IsConversion(ops, x) && ops[x].parent == Some(p)
    ensures EnclosingConversion(ops, Some(x)) == EnclosingConversion(ops, Some(p))
  {
    AncestorsUnfold(ops, x, p);
    var chain, rest := Chain(ops, Some(x)), Chain(ops, Some(p));
    assert chain == [x] + rest;
    assert chain[1..] == rest;
    var i := FirstConversionIndex(ops, rest);
    assert FirstConversionIndex(ops, chain) == 1 + i;
    assert i < |rest| ==> chain[1 + i] == rest[i];
  }

  /** The walk from an operation that is not a conversion but whose
      parent is one (a conversion's operand, say) stops at that parent. */
  lemma WalkStopsAtParentConversion(ops: map<OpId, Operation>, x: OpId, c: OpId)
    requires ParentsWellFormed(ops) && x in ops && !IsConversion(ops, x)
    requires ops[x].parent == Some(c) && IsConversion(ops, c)
    ensures EnclosingConversion(ops, Some(x)) == Some(c)
  {
    AncestorsUnfold(ops, x, c);
    var chain := Chain(ops, Some(x));
    assert chain[1..] == Ancestors(ops, c);
    assert FirstConversionIndex(ops, chain[1..]) == 0;
  }

  // ----- Constructor selection -------------------------------------------

  /** `c` is a constructor taking as many parameters as `operator`. */
  predicate IsConstructorOfArity(c: MethodSymbol, operator: MethodSymbol) {
    c.kind == Constructor && |c.parameters| == |operator.parameters|
  }

  /** The method members that are constructors of the operator's arity, in
      declaration order. */
  function Candidates(members: seq<Member>, operator: MethodSymbol): (cs: seq<MethodSymbol>)
    ensures |cs| <= |members|
    ensures forall c :: c in cs <==> Method(c) in members && IsConstructorOfArity(c, operator)
    decreases |members|
  {
    if |members| == 0 then []
    else
      var init, last := members[..|members| - 1], members[|members| - 1];
      assert members == init + [last];
      Candidates(init, operator)
        + (if last.Method? && IsConstructorOfArity(last.symbol, operator) then [last.symbol] else [])
  }

  /** The parameter types of `c` equal those of `operator`, pairwise and in
      order (type identity, not assignability). */
  predicate SameParameterTypes(c: MethodSymbol, operator: MethodSymbol) {
    ParameterTypes(c) == ParameterTypes(operator)
  }

  /** The elements of `cs` whose parameter types equal the operator's, in order. */
  function ExactMatches(cs: seq<MethodSymbol>, operator: MethodSymbol): (ms: seq<MethodSymbol>)
    ensures |ms| <= |cs|
    ensures forall c :: c in ms <==> c in cs && SameParameterTypes(c, operator)
    decreases |cs|
  {
    if |cs| == 0 then []
    else
      var init, last := cs[..|cs| - 1], cs[|cs| - 1];
      assert cs == init + [last];
      ExactMatches(init, operator) + (if SameParameterTypes(last, operator) then [last] else [])
  }

  lemma {:induction false} ExactMatchesAppend(a: seq<MethodSymbol>, b: seq<MethodSymbol>, operator: MethodSymbol)
    ensures ExactMatches(a + b, operator) == ExactMatches(a, operator) + ExactMatches(b, operator)
    decreases |b|
  {
    if |b| > 0 {
      var init, last := b[..|b| - 1], b[|b| - 1];
      assert (a + b)[..|a + b| - 1] == a + init;
      ExactMatchesAppend(a, init, operator);
    } else {
      assert a + b == a;
    }
  }

  /** A member the fix accepts as the constructor to call. */
  predicate IsMatchingConstructor(m: Member, operator: MethodSymbol) {
    m.Method? && m.symbol.kind == Constructor && SameParameterTypes(m.symbol, operator)
  }

  /** The accepted constructors among `members`, in declaration order. */
  function MatchingConstructors(members: seq<Member>, operator: MethodSymbol): (ms: seq<MethodSymbol>)
    ensures forall c :: c in ms <==> IsMatchingConstructor(Method(c), operator) && Method(c) in members
    decreases |members|
  {
    if |members| == 0 then []
    else
      var init, last := members[..|members| - 1], members[|members| - 1];
      assert members == init + [last];
      MatchingConstructors(init, operator)
        + (if IsMatchingConstructor(last, operator) then [last.symbol] else [])
  }

  /** The arity filter followed by the type filter keeps exactly the
      accepted constructors: equal parameter-type sequences already have
      equal lengths. */
  lemma {:induction false} FiltersCompose(members: seq<Member>, operator: MethodSymbol)
    ensures ExactMatches(Candidates(members, operator), operator) == MatchingConstructors(members, operator)
    decreases |members|
  {
    if |members| > 0 {
      var init, last := members[..|members| - 1], members[|members| - 1];
      var tail := if last.Method? && IsConstructorOfArity(last.symbol, operator) then [last.symbol] else [];
      FiltersCompose(init, operator);
      ExactMatchesAppend(Candidates(init, operator), tail, operator);
      if last.Method? && SameParameterTypes(last.symbol, operator) {
        assert |ParameterTypes(last.symbol)| == |ParameterTypes(operator)|;
      }
      assert ExactMatches(tail, operator) ==
        (if IsMatchingConstructor(last, operator) then [last.symbol] else []) by {
        if |tail| == 1 {
          assert tail[..0] == [];
        }
      }
    }
  }

  /** Some member is an accepted constructor. */
  predicate SomeMatchAmong(members: seq<Member>, operator: MethodSymbol) {
    exists i :: 0 <= i < |members| && IsMatchingConstructor(members[i], operator)
  }

  /** Two different members are accepted constructors. */
  predicate TwoMatchesAmong(members: seq<Member>, operator: MethodSymbol) {
    exists i, j :: 0 <= i < j < |members|
      && IsMatchingConstructor(members[i], operator) && IsMatchingConstructor(members[j], operator)
  }

  lemma SomeMatchIff(members: seq<Member>, operator: MethodSymbol)
    ensures |MatchingConstructors(members, operator)| >= 1 <==> SomeMatchAmong(members, operator)
  {
    var ms := MatchingConstructors(members, operator);
    if |ms| >= 1 {
      assert Method(ms[0]) in members;
      var i :| 0 <= i < |members| && members[i] == Method(ms[0]);
      assert IsMatchingConstructor(members[i], operator);
    }
    if SomeMatchAmong(members, operator) {
      var i :| 0 <= i < |members| && IsMatchingConstructor(members[i], operator);
      assert members[i].symbol in ms;
    }
  }

  /** Two matches among `members` are two matches before the last
      member, or one before it and the last member itself. */
  lemma TwoMatchesSnoc(members: seq<Member>, operator: MethodSymbol)
    requires |members| > 0
    ensures var n := |members| - 1;
      TwoMatchesAmong(members, operator) <==>
        if IsMatchingConstructor(members[n], operator) then SomeMatchAmong(members[..n], operator)
        else TwoMatchesAmong(members[..n], operator)
  {
    var n := |members| - 1;
    var init := members[..n];
    if TwoMatchesAmong(members, operator) {
      var i, j :| 0 <= i < j < |members|
        && IsMatchingConstructor(members[i], operator) && IsMatchingConstructor(members[j], operator);
      assert init[i] == members[i];
      if j < n {
        assert init[j] == members[j];
      }
    }
    if IsMatchingConstructor(members[n], operator) && SomeMatchAmong(init, operator) {
      var i :| 0 <= i < n && IsMatchingConstructor(init[i], operator);
      assert members[i] == init[i];
    }
    if TwoMatchesAmong(init, operator) {
      var i, j :| 0 <= i < j < n
        && IsMatchingConstructor(init[i], operator) && IsMatchingConstructor(init[j], operator);
      assert init[i] == members[i] && init[j] == members[j];
    }
  }

  /** There are at least two accepted constructors exactly when two
      different members are accepted. */
  lemma {:induction false} TwoMatchesIff(members: seq<Member>, operator: MethodSymbol)
    ensures |MatchingConstructors(members, operator)| >= 2 <==> TwoMatchesAmong(members, operator)
    decreases |members|
  {
    if |members| > 0 {
      var n := |members| - 1;
      var init := members[..n];
      TwoMatchesIff(init, operator);
      TwoMatchesSnoc(members, operator);
      SomeMatchIff(init, operator);
    }
  }

  /** `Enumerable.SingleOrDefault` with the parameter-type predicate: the
      one match, none when nothing matches, an error when several do. */
  function SingleOrDefault(cs: seq<MethodSymbol>, operator: MethodSymbol): (r: Result<Option<MethodSymbol>, FixError>)
    ensures r == Ok(None) <==> forall c :: c in cs ==> !SameParameterTypes(c, operator)
    ensures r.Ok? && r.value.Some? ==> r.value.value in cs && SameParameterTypes(r.value.value, operator)
    ensures r.Err? <==> |ExactMatches(cs, operator)| >= 2
    ensures r.Err? ==> r.error == MoreThanOneMatch
  {
    var ms := ExactMatches(cs, operator);
    if |ms| == 0 then Ok(None)
    else
      assert ms[0] in ms;
      if |ms| == 1 then Ok(Some(ms[0])) else Err(MoreThanOneMatch)
  }

  lemma ExactMatchesSnoc(cs: seq<MethodSymbol>, i: nat, operator: MethodSymbol)
    requires i < |cs|
    ensures ExactMatches(cs[..i + 1], operator)
      == ExactMatches(cs[..i], operator) + (if SameParameterTypes(cs[i], operator) then [cs[i]] else [])
  {
    assert cs[..i + 1][..i] == cs[..i];
  }

  lemma ExactMatchesOfPrefix(cs: seq<MethodSymbol>, i: nat, operator: MethodSymbol)
    requires i <= |cs|
    ensures |ExactMatches(cs[..i], operator)| <= |ExactMatches(cs, operator)|
  {
    assert cs == cs[..i] + cs[i..];
    ExactMatchesAppend(cs[..i], cs[i..], operator);
  }

  /** The enumeration `SingleOrDefault` performs: scan once, remember the
      first match, and fail at the second. */
  method SingleOrDefaultScan(cs: seq<MethodSymbol>, operator: MethodSymbol) returns (r: Result<Option<MethodSymbol>, FixError>)
    ensures r == SingleOrDefault(cs, operator)
  {
    var found: Option<MethodSymbol> := None;
    ghost var ms: seq<MethodSymbol> := [];
    var i := 0;
    while i < |cs|
      invariant 0 <= i <= |cs|
      invariant ms == ExactMatches(cs[..i], operator)
      invariant |ms| <= 1
      invariant found.None? <==> |ms| == 0
      invariant found.Some? ==> found.value == ms[0]
    {
      ExactMatchesSnoc(cs, i, operator);
      if SameParameterTypes(cs[i], operator) {
        if found.Some? {
          ExactMatchesOfPrefix(cs, i + 1, operator);
          assert SingleOrDefault(cs, operator) == Err(MoreThanOneMatch);
          return Err(MoreThanOneMatch);
        }
        found := Some(cs[i]);
        ms := ms + [cs[i]];
      }
      i := i + 1;
    }
    assert cs[..i] == cs;
    r := Ok(found);
  }

  /** The constructor the fix settles on among the members of the
      operator's return type. */
  function SelectConstructor(members: seq<Member>, operator: MethodSymbol): (r: Result<Option<MethodSymbol>, FixError>)
    ensures r == Ok(None) <==> forall i :: 0 <= i < |members| ==> !IsMatchingConstructor(members[i], operator)
    ensures r.Err? <==> TwoMatchesAmong(members, operator)
    ensures r.Err? ==> r.error == MoreThanOneMatch
    ensures r.Ok? && r.value.Some? ==>
      Method(r.value.value) in members && IsMatchingConstructor(Method(r.value.value), operator)
  {
    var cs := Candidates(members, operator);
    FiltersCompose(members, operator);
    TwoMatchesIff(members, operator);
    var r := SingleOrDefault(cs, operator);
    assert r == Ok(None) <== forall i :: 0 <= i < |members| ==> !IsMatchingConstructor(members[i], operator) by {
      if r != Ok(None) {
        var c :| c in cs && SameParameterTypes(c, operator);
        assert Method(c) in members;
      }
    }
    r
  }

  // ----- Replacement -----------------------------------------------------

  /** The object creation `new typeText(operand)` as a tree. */
  function CreationNode(typeText: string, operand: SyntaxNode): (r: SyntaxNode) {
    SyntaxNode(ObjectCreationExpression, [
      SyntaxNode(ParsedTypeName(typeText), []),
      SyntaxNode(ArgumentList, [SyntaxNode(Syntax.Argument, [operand])])])
  }

  lemma RenderCreationNode(typeText: string, operand: SyntaxNode)
    ensures Render(CreationNode(typeText, operand)) == "new " + typeText + "(" + Render(operand) + ")"
  {
    var r := CreationNode(typeText, operand);
    var arguments := r.children[1];
    var argument := arguments.children[0];
    assert Render(argument) == Render(operand);
    assert Render(arguments) == "(" + Render(operand) + ")" by {
      assert RenderChildren(arguments, 0, ", ") == Render(argument);
    }
    assert RenderChildren(r, 0, "") == typeText + "" + Render(arguments) by {
      assert RenderChildren(r, 1, "") == Render(arguments);
    }
  }

  /** `new T(operand)`, the type written as the parsed display text of `t`. */
  function ExplicitConstruction(t: TypeSymbol, operand: SyntaxNode): (r: SyntaxNode)
    ensures r.kind == ObjectCreationExpression
    ensures ValidPath(r, [1, 0, 0]) && At(r, [1, 0, 0]) == operand
    ensures Render(r) == "new " + DisplayString(t) + "(" + Render(operand) + ")"
  {
    RenderCreationNode(DisplayString(t), operand);
    assert [1, 0, 0][1..] == [0, 0] && [0, 0][1..] == [0];
    CreationNode(DisplayString(t), operand)
  }

  /** The whole fix for the node at `located`: the new document root, the
      unchanged root when the fix declines, or the exception raised. */
  function ReplaceImplicitCastOperator(doc: Document, symbols: SymbolTable, located: Path): (r: Result<SyntaxNode, FixError>)
    requires WellFormed(doc) && ValidPath(doc.root, located)
    ensures r.Err? ==> EnclosingConversion(doc.semantics.operations, GetOperation(doc.semantics, located)).Some?
    ensures r == Err(InvalidCast) ==> SlotAt(StatementSlot, doc.root, located) != ExpressionSlot
    ensures r.Ok? && r.value != doc.root ==>
      && SlotAt(StatementSlot, doc.root, located) == ExpressionSlot
      && ValidPath(r.value, located)
      && At(r.value, located).kind == ObjectCreationExpression
      && forall q :: ValidPath(doc.root, q) && Disjoint(q, located) ==>
           ValidPath(r.value, q) && At(r.value, q) == At(doc.root, q)
  {
    var ops := doc.semantics.operations;
    var operation := EnclosingConversion(ops, GetOperation(doc.semantics, located));
    if operation.None? then Ok(doc.root)
    else
      var conversion := ops[operation.value].kind;
      match conversion.operatorMethod
      case None => Err(NullReference)
      case Some(operator) =>
        match SelectConstructor(GetMembers(symbols, operator.returnType), operator)
        case Err(e) => Err(e)
        case Ok(None) => Ok(doc.root)
        case Ok(Some(_)) =>
          var operand := At(doc.root, ops[conversion.operand].syntax);
          var newNode := ExplicitConstruction(operator.returnType, operand);
          ReplaceAtFrame(doc.root, located, newNode);
          FitsCreation(doc.root, located, newNode);
          match ReplaceNode(doc.root, located, newNode)
          case None => Err(InvalidCast)
          case Some(newRoot) => Ok(newRoot)
  }

  // ----- Properties of the whole fix -------------------------------------

  /** The conversion the walk from the located node stops at. */
  function FoundConversion(doc: Document, located: Path): (r: Option<OpId>)
    requires WellFormed(doc)
  {
    EnclosingConversion(doc.semantics.operations, GetOperation(doc.semantics, located))
  }

  /** No conversion on the parent chain of the located node's operation
      (or no operation at all): the document comes back unchanged. */
  lemma FixDeclinesWithoutConversion(doc: Document, symbols: SymbolTable, located: Path)
    requires WellFormed(doc) && ValidPath(doc.root, located)
    requires var chain := Chain(doc.semantics.operations, GetOperation(doc.semantics, located));
      forall j :: 0 <= j < |chain| ==> !IsConversion(doc.semantics.operations, chain[j])
    ensures ReplaceImplicitCastOperator(doc, symbols, located) == Ok(doc.root)
  {
  }

  /** The found conversion's operator method is dereferenced unchecked:
      a built-in conversion found by the walk raises. */
  lemma FixRaisesOnMissingOperatorMethod(doc: Document, symbols: SymbolTable, located: Path, id: OpId)
    requires WellFormed(doc) && ValidPath(doc.root, located)
    requires FoundConversion(doc, located) == Some(id)
    requires doc.semantics.operations[id].kind.operatorMethod.None?
    ensures ReplaceImplicitCastOperator(doc, symbols, located) == Err(NullReference)
  {
  }

  /** Two accepted constructors make `SingleOrDefault` raise. */
  lemma FixRaisesOnAmbiguousConstructors(doc: Document, symbols: SymbolTable, located: Path, id: OpId, operator: MethodSymbol)
    requires WellFormed(doc) && ValidPath(doc.root, located)
    requires FoundConversion(doc, located) == Some(id)
    requires doc.semantics.operations[id].kind.operatorMethod == Some(operator)
    requires TwoMatchesAmong(GetMembers(symbols, operator.returnType), operator)
    ensures ReplaceImplicitCastOperator(doc, symbols, located) == Err(MoreThanOneMatch)
  {
    var members := GetMembers(symbols, operator.returnType);
    var r := SelectConstructor(members, operator);
    assert r.Err?;
  }

  /** No accepted constructor: the document comes back unchanged. */
  lemma FixDeclinesWithoutConstructor(doc: Document, symbols: SymbolTable, located: Path, id: OpId, operator: MethodSymbol)
    requires WellFormed(doc) && ValidPath(doc.root, located)
    requires FoundConversion(doc, located) == Some(id)
    requires doc.semantics.operations[id].kind.operatorMethod == Some(operator)
    requires var members := GetMembers(symbols, operator.returnType);
      forall i :: 0 <= i < |members| ==> !IsMatchingConstructor(members[i], operator)
    ensures ReplaceImplicitCastOperator(doc, symbols, located) == Ok(doc.root)
  {
  }

  /** Exactly one accepted constructor: the located node, and nothing else,
      is replaced by `new T(operand)` where T is the operator's return type
      and the operand is the conversion's operand syntax.  The constructor
      itself does not appear in the result.  The rebuild fails on a cast
      when the located node does not sit where an expression may. */
  lemma FixRewritesLocatedNode(doc: Document, symbols: SymbolTable, located: Path, id: OpId, operator: MethodSymbol, k: nat)
    requires WellFormed(doc) && ValidPath(doc.root, located)
    requires FoundConversion(doc, located) == Some(id)
    requires doc.semantics.operations[id].kind.operatorMethod == Some(operator)
    requires var members := GetMembers(symbols, operator.returnType);
      && k < |members| && IsMatchingConstructor(members[k], operator)
      && forall i :: 0 <= i < |members| && IsMatchingConstructor(members[i], operator) ==> i == k
    ensures var ops := doc.semantics.operations;
      var operand := At(doc.root, ops[ops[id].kind.operand].syntax);
      ReplaceImplicitCastOperator(doc, symbols, located)
        == if SlotAt(StatementSlot, doc.root, located) == ExpressionSlot
           then Ok(ReplaceAt(doc.root, located, ExplicitConstruction(operator.returnType, operand)))
           else Err(InvalidCast)
  {
    var members := GetMembers(symbols, operator.returnType);
    var r := SelectConstructor(members, operator);
    var ops := doc.semantics.operations;
    var operand := At(doc.root, ops[ops[id].kind.operand].syntax);
    FitsCreation(doc.root, located, ExplicitConstruction(operator.returnType, operand));
    assert r != Ok(None) by {
      assert IsMatchingConstructor(members[k], operator);
    }
  }

  /** Exactly one accepted constructor, but the located node sits where no
      expression may: rebuilding the tree with the object creation in its
      place fails on the cast. */
  lemma FixRaisesOnNonExpressionSlot(doc: Document, symbols: SymbolTable, located: Path, id: OpId, operator: MethodSymbol, k: nat)
    requires WellFormed(doc) && ValidPath(doc.root, located)
    requires FoundConversion(doc, located) == Some(id)
    requires doc.semantics.operations[id].kind.operatorMethod == Some(operator)
    requires var members := GetMembers(symbols, operator.returnType);
      && k < |members| && IsMatchingConstructor(members[k], operator)
      && forall i :: 0 <= i < |members| && IsMatchingConstructor(members[i], operator) ==> i == k
    requires SlotAt(StatementSlot, doc.root, located) != ExpressionSlot
    ensures ReplaceImplicitCastOperator(doc, symbols, located) == Err(InvalidCast)
  {
    FixRewritesLocatedNode(doc, symbols, located, id, operator, k);
  }

  /** The diagnostics the fix is offered for. */
  const FixableDiagnosticIds: seq<string> := [Analyzer.DiagnosticId]

  /** The fix the host runs for a diagnostic, as registered: the node it
      targets is the one the span lookup returns for the diagnostic's
      location, that is, the outermost node with the reported node's span
      (for a method argument, the argument rather than its expression). */
  function FixDiagnostic(doc: Document, symbols: SymbolTable, d: Analyzer.Diagnostic): (r: Result<SyntaxNode, FixError>)
    requires d.descriptor.id in FixableDiagnosticIds
    requires WellFormed(doc) && ValidPath(doc.root, d.location)
    ensures var target := FindNode(doc.root, d.location);
      && target <= d.location
      && (r.Err? ==> FoundConversion(doc, target).Some?)
      && (r == Err(InvalidCast) ==> SlotAt(StatementSlot, doc.root, target) != ExpressionSlot)
      && (r.Ok? && r.value != doc.root ==>
            && SlotAt(StatementSlot, doc.root, target) == ExpressionSlot
            && ValidPath(r.value, target) && At(r.value, target).kind == ObjectCreationExpression)
  {
    ReplaceImplicitCastOperator(doc, symbols, FindNode(doc.root, d.location))
  }

  /** The fix aimed at the node the diagnostic was reported at, which is
      what a span lookup preferring the innermost node of a tie returns. */
  function FixReportedNode(doc: Document, symbols: SymbolTable, d: Analyzer.Diagnostic): (r: Result<SyntaxNode, FixError>)
    requires d.descriptor.id in FixableDiagnosticIds
    requires WellFormed(doc) && ValidPath(doc.root, d.location)
    ensures r.Err? ==> FoundConversion(doc, d.location).Some?
    ensures r == Err(InvalidCast) ==> SlotAt(StatementSlot, doc.root, d.location) != ExpressionSlot
    ensures r.Ok? && r.value != doc.root ==>
      ValidPath(r.value, d.location) && At(r.value, d.location).kind == ObjectCreationExpression
  {
    ReplaceImplicitCastOperator(doc, symbols, d.location)
  }

  /** Aimed at the reported node, the fix walks back to the reported
      conversion itself, whose operator method the analyzer has checked:
      the unchecked dereference never fails. */
  lemma ReportedNodeNeverRaisesNull(doc: Document, symbols: SymbolTable, id: OpId)
    requires WellFormed(doc)
    requires id in Analyzer.RunAnalyzer(doc.semantics)
    requires BoundThroughOperand(doc.semantics, id)
    ensures ValidPath(doc.root, Analyzer.RunAnalyzer(doc.semantics)[id].location)
    ensures FoundConversion(doc, Analyzer.RunAnalyzer(doc.semantics)[id].location) == Some(id)
    ensures FixReportedNode(doc, symbols, Analyzer.RunAnalyzer(doc.semantics)[id]) != Err(NullReference)
  {
    var sm := doc.semantics;
    var ops := sm.operations;
    var c := ops[id];
    if GetOperation(sm, c.syntax) == Some(id) {
      assert FirstConversionIndex(ops, Chain(ops, Some(id))) == 0;
    } else {
      WalkStopsAtParentConversion(ops, c.kind.operand, id);
    }
  }
}
