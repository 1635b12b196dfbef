/** The diagnostic analyzer: it is registered for conversion operations
    only, and reports every implicit conversion that calls a user-defined
    operator method. */
module Analyzer {
  import opened Wrappers
  import opened Syntax
  import opened Operations

  const DiagnosticId: string := "AnalyzerPlayground"

  datatype DiagnosticSeverity = Hidden | Info | Warning | Error

  datatype DiagnosticDescriptor = DiagnosticDescriptor(id: string, severity: DiagnosticSeverity, isEnabledByDefault: bool)

  /** The one rule the analyzer supports. */
  const Rule: DiagnosticDescriptor := DiagnosticDescriptor(DiagnosticId, Warning, true)

  /** A reported diagnostic: its rule and the syntax node it is located at. */
  datatype Diagnostic = Diagnostic(descriptor: DiagnosticDescriptor, location: Path)

  /** The operation kinds the analyzer registers its action for. */
  predicate IsRegisteredKind(k: OperationKind) {
    k.Conversion?
  }

  /** The registered action, applied to one conversion operation. */
  function AnalyzeConversionOperator(op: Operation): (d: Option<Diagnostic>)
    requires op.kind.Conversion?
    ensures d.Some? <==> op.isImplicit && op.kind.operatorMethod.Some?
    ensures d.Some? ==> d.value.descriptor == Rule && d.value.location == op.syntax
  {
    if op.isImplicit && op.kind.operatorMethod.Some? then Some(Diagnostic(Rule, op.syntax)) else None
  }

  /** What the host collects from one analysis pass over a document: the
      registered action runs once on each operation of a registered kind,
      so there is at most one diagnostic per operation. */
  function RunAnalyzer(sm: SemanticModel): (ds: map<OpId, Diagnostic>)
    ensures forall id :: id in ds <==>
      id in sm.operations && sm.operations[id].kind.Conversion?
      && sm.operations[id].isImplicit && sm.operations[id].kind.operatorMethod.Some?
    ensures forall id :: id in ds ==>
      ds[id].descriptor.id == "AnalyzerPlayground" && ds[id].descriptor.severity == Warning
      && ds[id].location == sm.operations[id].syntax
  {
    var ops := sm.operations;
    map id | id in ops && IsRegisteredKind(ops[id].kind) && AnalyzeConversionOperator(ops[id]).Some?
      :: AnalyzeConversionOperator(ops[id]).value
  }

  /** Only conversion operations are inspected: two semantic models that
      agree on their conversions yield the same diagnostics, whatever their
      other operations are. */
  lemma OnlyConversionsInspected(sm1: SemanticModel, sm2: SemanticModel)
    requires forall id :: IsConversion(sm2.operations, id) ==> IsConversion(sm1.operations, id)
    requires forall id :: IsConversion(sm1.operations, id) ==>
      IsConversion(sm2.operations, id) && sm1.operations[id] == sm2.operations[id]
    ensures RunAnalyzer(sm1) == RunAnalyzer(sm2)
  {
    var d1, d2 := RunAnalyzer(sm1), RunAnalyzer(sm2);
    assert forall id :: id in d1 <==> id in d2 by {
      forall id ensures id in d1 <==> id in d2 {
        assert id in d1 ==> IsConversion(sm1.operations, id);
        assert id in d2 ==> IsConversion(sm2.operations, id);
      }
    }
    assert d1.Keys == d2.Keys;
  }
}
