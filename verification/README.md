# AnalyzerPlayground in Dafny

AnalyzerPlayground is one C# analyzer rule and its code fix. The analyzer
reports every implicit conversion that calls a user-defined conversion
operator. The fix replaces the conversion with an explicit constructor call
of the operator's return type, `Test test = "Hello";` becoming
`Test test = new ConsoleApplication1.Test("Hello");`.

This project models both halves over an immutable syntax tree and a
semantic model given as data:

- `Wrappers`: `Option` and `Result`. The fix's null results and exceptions
  are values here.
- `Symbols`: type and method symbols, the members of each type, and the
  fully qualified display text of a type.
- `Syntax`: syntax nodes. A node is identified by its path from the root.
  `ReplaceAt` rebuilds a tree with one node replaced, and `Render` gives
  the source text of the kinds the example uses. Each child position has
  a slot type, the node type the typed rewriter casts the rebuilt child
  back to. `ReplaceNode` fails when the new node does not fit the slot of
  the node it replaces.
- `Operations`: the operation tree of the semantic model. Operations live
  in a map with parent links, and each records the syntax node it is bound
  to. A `depth` field bounds the parent chain, so the upward walk
  terminates.
- `Analyzer`: the rule `AnalyzerPlayground` (severity Warning, enabled by
  default), registered for conversion operations only, and one analysis
  pass over a document.
- `CodeFix`: the fix.
  - Look up the node with the diagnostic's span. This is the outermost
    node with that span.
  - Walk up from the operation bound to that node to the first
    conversion.
  - Keep the constructors of the operator's return type that take the
    operator's number of parameters.
  - Pick the single one whose parameter types equal the operator's, in
    order.
  - Replace the node that the span lookup returns for the diagnostic by
    `new T(operand)`.
- `Sample`: the program from the repository's unit test, with the
  diagnostic and the fixed text that test expects.
- `ArgumentSample`: the same conversion inside a method argument, in
  `object o = Bar("Hello");` and in `Test t = Bar("Hello");`. The fix as
  registered raises a null dereference on the first statement and a cast
  error on the second (see "## Findings").

Three error paths of the fix are exceptions in the code, and the model
returns them as values:

- `SingleOrDefault` (AnalyzerPlaygroundCodeFixProvider.cs:67) throws when
  more than one constructor matches. The model returns
  `Err(MoreThanOneMatch)`.
- `OperatorMethod` is dereferenced without a null check (:65), so a walk
  that stops at a built-in conversion throws. The model returns
  `Err(NullReference)`.
- `root.ReplaceNode` (:77) rebuilds the tree through a typed rewriter. The
  rewriter casts every rebuilt child to the type of its slot, so an object
  creation put where only an argument may stand throws. The model returns
  `Err(InvalidCast)`.

## Model

| member | source | states |
|---|---|---|
| Analyzer.AnalyzeConversionOperator | AnalyzerPlayground/AnalyzerPlayground/AnalyzerPlaygroundAnalyzer.cs:30-37 | A conversion is reported exactly when it is implicit and has an operator method. The report uses the rule and is located at the conversion's syntax. |
| Analyzer.RunAnalyzer | AnalyzerPlayground/AnalyzerPlayground/AnalyzerPlaygroundAnalyzer.cs:21-37 | One pass reports an operation if and only if it is an implicit conversion with an operator method, at most once per operation. Every report carries id "AnalyzerPlayground" and severity Warning, located at that operation's syntax. |
| Analyzer.OnlyConversionsInspected | AnalyzerPlayground/AnalyzerPlayground/AnalyzerPlaygroundAnalyzer.cs:25-28 | The action is registered for conversions only. Two semantic models with the same conversions produce the same diagnostics, whatever their other operations are. |
| Operations.Ancestors | AnalyzerPlayground/AnalyzerPlayground/AnalyzerPlaygroundCodeFixProvider.cs:57-60 | The parent chain starts at the given operation and follows parent links, one link per step, through existing operations. It ends at an operation with no parent. |
| CodeFix.FirstConversionIndex | AnalyzerPlayground/AnalyzerPlayground/AnalyzerPlaygroundCodeFixProvider.cs:57 | The index of the first conversion in a chain: nothing before it is a conversion, and it is the chain's length when the chain has none. |
| CodeFix.EnclosingConversion | AnalyzerPlayground/AnalyzerPlayground/AnalyzerPlaygroundCodeFixProvider.cs:55-60 | The walk finds nothing if and only if no operation on the parent chain is a conversion. Otherwise it finds a conversion on the chain with no conversion before it. |
| CodeFix.FindEnclosingConversion | AnalyzerPlayground/AnalyzerPlayground/AnalyzerPlaygroundCodeFixProvider.cs:57-60 | The loop over parent links stops at exactly the conversion `EnclosingConversion` specifies, or reaches the root with none. |
| CodeFix.WalkStopsAtParentConversion | AnalyzerPlayground/AnalyzerPlayground/AnalyzerPlaygroundCodeFixProvider.cs:57-60 | The walk from an operation that is not a conversion stops at its parent when the parent is a conversion. This is the case of a conversion's operand. |
| CodeFix.Candidates | AnalyzerPlayground/AnalyzerPlayground/AnalyzerPlaygroundCodeFixProvider.cs:66 | A method is kept if and only if it is a member of the type, is a constructor, and takes as many parameters as the operator. |
| CodeFix.ExactMatches | AnalyzerPlayground/AnalyzerPlayground/AnalyzerPlaygroundCodeFixProvider.cs:67 | A candidate is kept if and only if its parameter types equal the operator's, position by position. |
| CodeFix.FiltersCompose | AnalyzerPlayground/AnalyzerPlayground/AnalyzerPlaygroundCodeFixProvider.cs:66-67 | Applying the arity filter and then the type comparison gives the same constructors, in member order, as the single matching predicate. |
| CodeFix.TwoMatchesIff | AnalyzerPlayground/AnalyzerPlayground/AnalyzerPlaygroundCodeFixProvider.cs:66-67 | The exact matches contain two or more entries if and only if two distinct members of the type match. |
| CodeFix.SingleOrDefault | AnalyzerPlayground/AnalyzerPlayground/AnalyzerPlaygroundCodeFixProvider.cs:67 | There are three outcomes: no match gives none, one match gives that constructor, and more than one raises. The result is always one of the candidates. |
| CodeFix.SingleOrDefaultScan | AnalyzerPlayground/AnalyzerPlayground/AnalyzerPlaygroundCodeFixProvider.cs:67 | Scanning the candidates once and raising at the second match gives the same result as `SingleOrDefault`. |
| CodeFix.SelectConstructor | AnalyzerPlayground/AnalyzerPlayground/AnalyzerPlaygroundCodeFixProvider.cs:65-68 | None if and only if no member matches. An exception if and only if two members match. A chosen constructor is always a matching member. |
| CodeFix.ReplaceImplicitCastOperator | AnalyzerPlayground/AnalyzerPlayground/AnalyzerPlaygroundCodeFixProvider.cs:51-83 | It raises only after the walk found a conversion. It raises a cast error only when the located node sits where no expression may. A changed document has an object creation at the located node, which sits in an expression slot, and every node outside the located subtree is unchanged. |
| CodeFix.FixDeclinesWithoutConversion | AnalyzerPlayground/AnalyzerPlayground/AnalyzerPlaygroundCodeFixProvider.cs:57-62 | The document comes back unchanged when there is no conversion on the parent chain, or no operation bound to the node. |
| CodeFix.FixRaisesOnMissingOperatorMethod | AnalyzerPlayground/AnalyzerPlayground/AnalyzerPlaygroundCodeFixProvider.cs:64-66 | A found conversion with no operator method raises a null dereference. |
| CodeFix.FixRaisesOnAmbiguousConstructors | AnalyzerPlayground/AnalyzerPlayground/AnalyzerPlaygroundCodeFixProvider.cs:66-67 | Two matching constructors make the fix raise. |
| CodeFix.FixDeclinesWithoutConstructor | AnalyzerPlayground/AnalyzerPlayground/AnalyzerPlaygroundCodeFixProvider.cs:66-82 | With no matching constructor the document comes back unchanged. |
| CodeFix.FixRewritesLocatedNode | AnalyzerPlayground/AnalyzerPlayground/AnalyzerPlaygroundCodeFixProvider.cs:65-78 | With exactly one matching constructor and the located node in an expression slot, the located node alone is replaced. The replacement is `new T(operand)`, with T the display text of the operator's return type and the operand the conversion's operand syntax. In any other slot the rebuild raises a cast error. |
| CodeFix.FixRaisesOnNonExpressionSlot | AnalyzerPlayground/AnalyzerPlayground/AnalyzerPlaygroundCodeFixProvider.cs:75-77 | With exactly one matching constructor, a located node where no expression may stand, such as an argument, makes the replacement raise a cast error. |
| CodeFix.FixDiagnostic | AnalyzerPlayground/AnalyzerPlayground/AnalyzerPlaygroundCodeFixProvider.cs:36-46 | The registered fix targets the node the span lookup returns for the diagnostic's location, which is the reported node or one of its ancestors. It raises only after a walk from that node found a conversion, and raises a cast error only when that node is not in an expression slot. A changed document has an object creation there, in an expression slot. |
| CodeFix.FixReportedNode | AnalyzerPlayground/AnalyzerPlayground/AnalyzerPlaygroundCodeFixProvider.cs:40 | The corrected fix (see "## Findings") targets the reported node itself. It raises only after the walk from that node found a conversion, and raises a cast error only when that node is not in an expression slot. A changed document has an object creation at that node. |
| CodeFix.ReportedNodeNeverRaisesNull | AnalyzerPlayground/AnalyzerPlayground/AnalyzerPlaygroundCodeFixProvider.cs:36-65 | Suppose a diagnostic the analyzer reported sits on a node bound to the conversion or to its operand. Then the walk from that node finds that very conversion, and the corrected fix never raises a null dereference. |
| CodeFix.WalkSkipsNonConversion | AnalyzerPlayground/AnalyzerPlayground/AnalyzerPlaygroundCodeFixProvider.cs:57-60 | From an operation that is not a conversion, the walk finds what the walk from its parent finds. |
| CodeFix.ExplicitConstruction | AnalyzerPlayground/AnalyzerPlayground/AnalyzerPlaygroundCodeFixProvider.cs:75 | The generated node is an object creation whose only argument is the operand. Its text is `new ` + the type's display text + `(` + the operand's text + `)`. |
| Symbols.DisplayString | AnalyzerPlayground/AnalyzerPlayground/AnalyzerPlaygroundCodeFixProvider.cs:75 | The display text of a type is its name qualified by its containers, joined with dots. A type with no containers displays as its bare name. |
| Syntax.FindNode | AnalyzerPlayground/AnalyzerPlayground/AnalyzerPlaygroundCodeFixProvider.cs:40 | The lookup returns the reported node or an ancestor of it with the same span. No node above the one returned has that span, so the outermost tie wins. |
| Syntax.FindNodeIdempotent | AnalyzerPlayground/AnalyzerPlayground/AnalyzerPlaygroundCodeFixProvider.cs:40 | Looking up the span of the node found returns that node again. |
| Syntax.FindNodeLeavesArgument | AnalyzerPlayground/AnalyzerPlayground/AnalyzerPlaygroundCodeFixProvider.cs:40 | For the expression of an argument, the lookup returns the argument or a node above it, never the expression. |
| Syntax.ReplaceAt | AnalyzerPlayground/AnalyzerPlayground/AnalyzerPlaygroundCodeFixProvider.cs:77 | The untyped rebuild behind `ReplaceNode`. After replacement the new node sits at the given path. The root keeps its kind and its number of children. |
| Syntax.ReplaceNode | AnalyzerPlayground/AnalyzerPlayground/AnalyzerPlaygroundCodeFixProvider.cs:77 | The replacement succeeds exactly when the new node fits the slot of the node it replaces. For a well-typed statement and a new node whose children are well typed, that is exactly when the rebuilt statement is well typed. |
| Syntax.ReplaceAtWellTyped | AnalyzerPlayground/AnalyzerPlayground/AnalyzerPlaygroundCodeFixProvider.cs:77 | A well-typed tree stays well typed under a replacement if and only if the new node's kind is accepted by the slot of the replaced node. |
| Syntax.ReplaceAtElsewhere | AnalyzerPlayground/AnalyzerPlayground/AnalyzerPlaygroundCodeFixProvider.cs:77 | Every node on a path disjoint from the replaced one is unchanged. |
| Syntax.ReplaceAtKeepsAncestors | AnalyzerPlayground/AnalyzerPlayground/AnalyzerPlaygroundCodeFixProvider.cs:77 | The nodes above the replaced one keep their kind and their number of children. |
| Syntax.ReplaceAtSelf | AnalyzerPlayground/AnalyzerPlayground/AnalyzerPlaygroundCodeFixProvider.cs:77 | Replacing a node by itself leaves the tree unchanged. |
| Syntax.ReplaceAtCommutes | AnalyzerPlayground/AnalyzerPlayground/AnalyzerPlaygroundCodeFixProvider.cs:26-30 | Replacements at two disjoint nodes give the same tree in either order. For fixes with disjoint targets the batch fix-all is therefore order-independent. Nested targets are not covered. |
| Symbols.ParameterTypes | AnalyzerPlayground/AnalyzerPlayground/AnalyzerPlaygroundCodeFixProvider.cs:67 | The parameter types of a method, in declaration order. Names play no part. |
| Sample.SampleDiagnostic | AnalyzerPlayground/AnalyzerPlayground.Test/AnalyzerPlaygroundUnitTests.cs:32-43 | `Test test = "Hello";` gets exactly one diagnostic, at the literal, when the conversion calls `operator Test(string)`. It gets none when the conversion is built in. |
| Sample.SampleFix | AnalyzerPlayground/AnalyzerPlayground.Test/AnalyzerPlaygroundUnitTests.cs:45-62 | The fix rewrites the statement's tree into the expected fixed tree. |
| Sample.WorkedExample | AnalyzerPlayground/AnalyzerPlayground.Test/AnalyzerPlaygroundUnitTests.cs:15-62 | The unit test's expectations hold. There is one diagnostic with id "AnalyzerPlayground" and severity Warning, at the literal. The registered fix for it produces the text `Test test = new ConsoleApplication1.Test("Hello");`. Here the corrected fix gives the same result. |
| Sample.SampleWithoutMatchingConstructor | AnalyzerPlayground/AnalyzerPlayground/AnalyzerPlaygroundCodeFixProvider.cs:66-68 | With only a constructor from `object`, the fix leaves the statement unchanged. The type comparison is exact, not assignability. |
| Sample.SampleAmbiguousConstructors | AnalyzerPlayground/AnalyzerPlayground/AnalyzerPlaygroundCodeFixProvider.cs:66-67 | When `Test` has a second constructor from `string`, the fix on the sample raises instead of leaving the document unchanged. |
| Sample.SampleBuiltInConversionRaises | AnalyzerPlayground/AnalyzerPlayground/AnalyzerPlaygroundCodeFixProvider.cs:62-65 | Invoked on the sample with a built-in conversion, the walk stops at that conversion, and the fix raises a null dereference on its missing operator method. |
| ArgumentSample.CallDiagnostics | AnalyzerPlayground/AnalyzerPlayground/AnalyzerPlaygroundAnalyzer.cs:30-37 | In `object o = Bar("Hello");` only the user-defined conversion of the literal is reported. The built-in conversion of the call's result is not. In `Test t = Bar("Hello");` both conversions are reported, the call's at the call. |
| ArgumentSample.CallFindNode | AnalyzerPlayground/AnalyzerPlayground/AnalyzerPlaygroundCodeFixProvider.cs:40 | The span lookup for that literal returns its argument node. |
| ArgumentSample.ArgumentFixRaises | AnalyzerPlayground/AnalyzerPlayground/AnalyzerPlaygroundCodeFixProvider.cs:40-65 | The registered fix for that one diagnostic raises a null dereference. |
| ArgumentSample.ArgumentFixInvalidCast | AnalyzerPlayground/AnalyzerPlayground/AnalyzerPlaygroundCodeFixProvider.cs:40-77 | In `Test t = Bar("Hello");` the registered fix for the literal's diagnostic targets the argument. It walks to the call's user-defined conversion and raises a cast error, because an object creation cannot take an argument's place. |
| ArgumentSample.ReportedNodeFixed | AnalyzerPlayground/AnalyzerPlayground/AnalyzerPlaygroundCodeFixProvider.cs:40 | For both statements the corrected fix rewrites the literal to `new ConsoleApplication1.Test("Hello")` inside the call, as a tree. |
| ArgumentSample.NestedTargets | AnalyzerPlayground/AnalyzerPlayground/AnalyzerPlaygroundCodeFixProvider.cs:26-30 | In `Test t = Bar("Hello");` the two diagnostics' locations are nested, not disjoint, so `ReplaceAtCommutes` does not apply to their fixes. |

## Left out

- The host services are given as data, not computed:
  - The semantic model, meaning the operation tree and the syntax-to-operation binding.
  - The member lists of types.
  - Parsing. `ParseTypeName` is a leaf node that carries the type's display text.
  - `DocumentEditor` and `SyntaxGenerator`. The generated node is built directly.
- Syntax.FindNode: spans are compared through the length of each node's rendered text. An ancestor covers its descendants' text, so equal length means equal span. Text positions are left out, as are line and column numbers, so the unit test's "line 14, column 29" is the literal's path here. Trivia is left out, and so are named and `ref` arguments, whose argument node is wider than its expression.
- Symbols.DisplayString: special types are not written as keywords (`string` for `System.String`), and type arguments (`N.Wrapper<string>`) are not modelled. A type symbol has only containers and a name.
- The operation bound to a syntax node is given data. `BoundThroughOperand` states how the compiler binds the node of an implicit conversion, and it is assumed, not derived.
- The semantic model of the rewritten document is never recomputed. So idempotence, meaning that a fixed document draws no further diagnostic, is left out. The model only shows that the new node is an object creation and that diagnostics come from conversions alone.
- The batch fix-all provider is represented by `ReplaceAtCommutes` only, which covers fixes with disjoint targets. Nested conversions give nested targets (`NestedTargets`), and the overlapping edits these produce are left to the host's merge, which is not modelled. Merging document edits across a solution is host behaviour too.
- Syntax.ReplaceAt: the rebuild itself is untyped. The cast a typed rewriter performs is modelled separately by `ReplaceNode`, through the slot type of each child position of the kinds modelled here. The statement at the root is taken to sit in a block's statement list.
- Asynchrony and cancellation tokens are left out. They do not affect results.
- The message, title and description resource strings, the `Category` constant, the fix title and the equivalence key are left out. They are display text with no effect on behaviour, and the resource file is not part of this model.
- `RegisterCodeFixesAsync` takes only the first diagnostic of its context, and `CodeFix.FixDiagnostic` takes one diagnostic. Registering the code action is host behaviour.
- The `Test` and `Actual` classes inside the code-fix provider file are left out. They are unused fixtures.
- Operations.Ancestors: a `depth` field on each operation, decreasing toward the root, bounds the parent chain. This rules out the cyclic parent links a real operation tree never has.
- The test verifier helpers are left out, as are all other test infrastructure, project files and resources.

## Findings

| source | as written | input that shows it | evidently intended | confidence | as-written member | corrected member |
|---|---|---|---|---|---|---|
| AnalyzerPlayground/AnalyzerPlayground/AnalyzerPlaygroundCodeFixProvider.cs:40 | `root.FindNode(diagnosticSpan)` keeps the default tie rule, which returns the outermost node with the span. For a conversion in a method argument, that node is the argument, not the reported expression. | `object o = Bar("Hello");` with `static string Bar(Test t)`. The walk from the argument passes the invocation and stops at the built-in conversion of its result to `object`. Its missing operator method is then dereferenced at :65. | The fix acts on the reported conversion's own node, for instance through `getInnermostNodeForTie: true`. | medium; not executed | ArgumentSample.ArgumentFixRaises | CodeFix.ReportedNodeNeverRaisesNull |
| AnalyzerPlayground/AnalyzerPlayground/AnalyzerPlaygroundCodeFixProvider.cs:40 | The same outermost tie rule, in a statement where the call's result is converted by a user-defined operator too. | `Test t = Bar("Hello");` with `static string Bar(Test t)`. For the literal's diagnostic the fix targets the argument and walks to the call's conversion. It builds `new ConsoleApplication1.Test(Bar("Hello"))` and hands it to `ReplaceNode` (:77) in place of the argument, and the typed rewriter's cast to an argument throws. | The fix replaces the literal, giving `Test t = Bar(new ConsoleApplication1.Test("Hello"));`. | medium; not executed | ArgumentSample.ArgumentFixInvalidCast | ArgumentSample.ReportedNodeFixed |

