/** An immutable syntax tree.  A node is identified within its tree by its
    path from the root (the child index taken at each level), so replacing
    "a node" of a tree means rebuilding the tree with the subtree at one
    path substituted; every other subtree is shared unchanged. */
module Syntax {
  import opened Wrappers

  /** The syntax kinds that occur in the statements the rule rewrites. */
  datatype SyntaxKind =
    | StringLiteralExpression(text: string)   // leaf: "text"
    | IdentifierName(identifier: string)      // leaf
    | ParsedTypeName(typeText: string)        // leaf: a type name parsed from its display text
    | ObjectCreationExpression                // children: type, argument list
    | InvocationExpression                    // children: method name, argument list
    | ArgumentList                            // children: arguments
    | Argument                                // children: expression
    | LocalDeclarationStatement               // children: variable declaration
    | VariableDeclaration                     // children: type, declarators
    | VariableDeclarator(variable: string)    // children: optional initializer
    | EqualsValueClause                       // children: value

  datatype SyntaxNode = SyntaxNode(kind: SyntaxKind, children: seq<SyntaxNode>)

  type Path = seq<nat>

  /** `p` leads from `t` to one of its nodes. */
  predicate ValidPath(t: SyntaxNode, p: Path)
    decreases p
  {
    |p| == 0 || (p[0] < |t.children| && ValidPath(t.children[p[0]], p[1..]))
  }

  /** The node at path `p`. */
  function At(t: SyntaxNode, p: Path): (n: SyntaxNode)
    requires ValidPath(t, p)
    decreases p
  {
    if |p| == 0 then t else At(t.children[p[0]], p[1..])
  }

  /** Two paths of which neither is a prefix of the other lead to
      non-overlapping subtrees. */
  predicate Disjoint(p: Path, q: Path) {
    !(p <= q) && !(q <= p)
  }

  /** The tree `t` with the node at path `p` replaced by `n`: the
      persistent counterpart of replacing one node of a tree. */
  function ReplaceAt(t: SyntaxNode, p: Path, n: SyntaxNode): (r: SyntaxNode)
    requires ValidPath(t, p)
    ensures ValidPath(r, p) && At(r, p) == n
    ensures |p| > 0 ==> r.kind == t.kind && |r.children| == |t.children|
    decreases p
  {
    if |p| == 0 then n
    else
      var i := p[0];
      SyntaxNode(t.kind, t.children[i := ReplaceAt(t.children[i], p[1..], n)])
  }

  /** Nothing outside the replaced subtree changes: every node on a path
      disjoint from `p` is the same in the new tree. */
  lemma {:induction false} ReplaceAtElsewhere(t: SyntaxNode, p: Path, q: Path, n: SyntaxNode)
    requires ValidPath(t, p) && ValidPath(t, q) && Disjoint(p, q)
    ensures ValidPath(ReplaceAt(t, p, n), q)
    ensures At(ReplaceAt(t, p, n), q) == At(t, q)
  {
    var r := ReplaceAt(t, p, n);
    assert |p| > 0 && |q| > 0;
    if p[0] != q[0] {
      assert r.children[q[0]] == t.children[q[0]];
    } else {
      assert Disjoint(p[1..], q[1..]) by {
        assert p == [p[0]] + p[1..] && q == [q[0]] + q[1..];
      }
      ReplaceAtElsewhere(t.children[p[0]], p[1..], q[1..], n);
    }
  }

  /** `ReplaceAtElsewhere` for every disjoint path at once. */
  lemma ReplaceAtFrame(t: SyntaxNode, p: Path, n: SyntaxNode)
    requires ValidPath(t, p)
    ensures forall q :: ValidPath(t, q) && Disjoint(p, q) ==>
      ValidPath(ReplaceAt(t, p, n), q) && At(ReplaceAt(t, p, n), q) == At(t, q)
  {
    forall q | ValidPath(t, q) && Disjoint(p, q)
      ensures ValidPath(ReplaceAt(t, p, n), q) && At(ReplaceAt(t, p, n), q) == At(t, q)
    {
      ReplaceAtElsewhere(t, p, q, n);
    }
  }

  /** The nodes above the replaced one keep their kind and their number of
      children: the shape of the tree is unchanged on the way down to `p`. */
  lemma {:induction false} ReplaceAtKeepsAncestors(t: SyntaxNode, p: Path, q: Path, n: SyntaxNode)
    requires ValidPath(t, p) && q < p
    ensures ValidPath(t, q) && ValidPath(ReplaceAt(t, p, n), q)
    ensures At(ReplaceAt(t, p, n), q).kind == At(t, q).kind
    ensures |At(ReplaceAt(t, p, n), q).children| == |At(t, q).children|
  {
    if |q| > 0 {
      assert q[1..] < p[1..];
      ReplaceAtKeepsAncestors(t.children[p[0]], p[1..], q[1..], n);
    }
  }

  /** Replacing a node by itself gives back the same tree. */
  lemma {:induction false} ReplaceAtSelf(t: SyntaxNode, p: Path)
    requires ValidPath(t, p)
    ensures ReplaceAt(t, p, At(t, p)) == t
  {
    if |p| > 0 {
      ReplaceAtSelf(t.children[p[0]], p[1..]);
      assert t.children[p[0] := t.children[p[0]]] == t.children;
    }
  }

  /** Replacements at non-overlapping nodes commute, so applying two such
      fixes in either order yields the same tree. */
  lemma {:induction false} ReplaceAtCommutes(t: SyntaxNode, p: Path, a: SyntaxNode, q: Path, b: SyntaxNode)
    requires ValidPath(t, p) && ValidPath(t, q) && Disjoint(p, q)
    ensures ValidPath(ReplaceAt(t, p, a), q) && ValidPath(ReplaceAt(t, q, b), p)
    ensures ReplaceAt(ReplaceAt(t, p, a), q, b) == ReplaceAt(ReplaceAt(t, q, b), p, a)
  {
    ReplaceAtElsewhere(t, p, q, a);
    ReplaceAtElsewhere(t, q, p, b);
    assert |p| > 0 && |q| > 0;
    if p[0] == q[0] {
      assert Disjoint(p[1..], q[1..]) by {
        assert p == [p[0]] + p[1..] && q == [q[0]] + q[1..];
      }
      ReplaceAtCommutes(t.children[p[0]], p[1..], a, q[1..], b);
    }
  }

  // ----- Typed replacement -----------------------------------------------

  /** The node type a child position is declared with.  The typed rewriter
      that rebuilds a tree casts each rebuilt child back to this type. */
  datatype SlotType =
    | ExpressionSlot    // any expression, type names included
    | TypeSlot          // a type name
    | ArgumentListSlot
    | ArgumentSlot
    | StatementSlot     // a statement of a block, where the trees here sit
    | DeclarationSlot
    | DeclaratorSlot
    | InitializerSlot
    | NoSlot            // a leaf has no child positions

  /** The type of the `i`th child position of a node of kind `k`. */
  function SlotOf(k: SyntaxKind, i: nat): (s: SlotType) {
    match k
    case ObjectCreationExpression => if i == 0 then TypeSlot else ArgumentListSlot
    case InvocationExpression => if i == 0 then ExpressionSlot else ArgumentListSlot
    case ArgumentList => ArgumentSlot
    case Argument => ExpressionSlot
    case LocalDeclarationStatement => DeclarationSlot
    case VariableDeclaration => if i == 0 then TypeSlot else DeclaratorSlot
    case VariableDeclarator(_) => InitializerSlot
    case EqualsValueClause => ExpressionSlot
    case _ => NoSlot
  }

  /** Whether a node of kind `k` can be cast to the type of slot `s`. */
  predicate Accepts(s: SlotType, k: SyntaxKind) {
    match s
    case ExpressionSlot =>
      || k.StringLiteralExpression? || k.IdentifierName? || k.ParsedTypeName?
      || k.ObjectCreationExpression? || k.InvocationExpression?
    case TypeSlot => k.IdentifierName? || k.ParsedTypeName?
    case ArgumentListSlot => k.ArgumentList?
    case ArgumentSlot => k.Argument?
    case StatementSlot => k.LocalDeclarationStatement?
    case DeclarationSlot => k.VariableDeclaration?
    case DeclaratorSlot => k.VariableDeclarator?
    case InitializerSlot => k.EqualsValueClause?
    case NoSlot => false
  }

  /** `t` fits slot `s`, and so does every node below it in its own slot. */
  predicate WellTypedIn(s: SlotType, t: SyntaxNode)
    decreases t, 1
  {
    Accepts(s, t.kind) && ChildrenWellTyped(t)
  }

  /** Every child of `t` is well typed in its slot. */
  predicate ChildrenWellTyped(t: SyntaxNode)
    decreases t, 0
  {
    forall i :: 0 <= i < |t.children| ==> WellTypedIn(SlotOf(t.kind, i), t.children[i])
  }

  /** The slot the node at `p` occupies when `t` itself occupies `s`. */
  function SlotAt(s: SlotType, t: SyntaxNode, p: Path): (slot: SlotType)
    requires ValidPath(t, p)
    decreases p
  {
    if |p| == 0 then s else SlotAt(SlotOf(t.kind, p[0]), t.children[p[0]], p[1..])
  }

  /** `n` can take the place of the node at `p` of the statement `t`. */
  predicate Fits(t: SyntaxNode, p: Path, n: SyntaxNode)
    requires ValidPath(t, p)
  {
    Accepts(SlotAt(StatementSlot, t, p), n.kind)
  }

  /** A tree stays well typed under a replacement exactly when the new node
      fits the slot of the node it replaces. */
  lemma {:induction false} ReplaceAtWellTyped(s: SlotType, t: SyntaxNode, p: Path, n: SyntaxNode)
    requires ValidPath(t, p) && WellTypedIn(s, t) && ChildrenWellTyped(n)
    ensures WellTypedIn(s, ReplaceAt(t, p, n)) <==> Accepts(SlotAt(s, t, p), n.kind)
    decreases p
  {
    if |p| > 0 {
      var i := p[0];
      var r := ReplaceAt(t, p, n);
      ReplaceAtWellTyped(SlotOf(t.kind, i), t.children[i], p[1..], n);
      assert forall j :: 0 <= j < |r.children| && j != i ==> r.children[j] == t.children[j];
      assert r.children[i] == ReplaceAt(t.children[i], p[1..], n);
    }
  }

  /** The slot of a node's `i`th child is the one its kind declares there. */
  lemma {:induction false} SlotAtChild(s: SlotType, t: SyntaxNode, a: Path, i: nat)
    requires ValidPath(t, a) && i < |At(t, a).children|
    ensures ValidPath(t, a + [i]) && SlotAt(s, t, a + [i]) == SlotOf(At(t, a).kind, i)
    decreases a
  {
    AtChild(t, a, i);
    if |a| > 0 {
      assert (a + [i])[1..] == a[1..] + [i];
      SlotAtChild(SlotOf(t.kind, a[0]), t.children[a[0]], a[1..], i);
    } else {
      assert [i][1..] == [];
    }
  }

  /** Only an expression slot takes an object creation. */
  lemma FitsCreation(t: SyntaxNode, p: Path, n: SyntaxNode)
    requires ValidPath(t, p) && n.kind == ObjectCreationExpression
    ensures Fits(t, p, n) <==> SlotAt(StatementSlot, t, p) == ExpressionSlot
  {
  }

  /** Replacing a node as the typed rewriter does: the rebuild fails, with
      a cast error, unless the new node fits the old node's slot. */
  function ReplaceNode(t: SyntaxNode, p: Path, n: SyntaxNode): (r: Option<SyntaxNode>)
    requires ValidPath(t, p)
    ensures r.Some? <==> Fits(t, p, n)
    ensures r.Some? ==> r.value == ReplaceAt(t, p, n) && At(r.value, p) == n
    ensures WellTypedIn(StatementSlot, t) && ChildrenWellTyped(n) ==>
      (r.Some? <==> WellTypedIn(StatementSlot, ReplaceAt(t, p, n)))
  {
    assert WellTypedIn(StatementSlot, t) && ChildrenWellTyped(n) ==>
      (Fits(t, p, n) <==> WellTypedIn(StatementSlot, ReplaceAt(t, p, n))) by {
      if WellTypedIn(StatementSlot, t) && ChildrenWellTyped(n) {
        ReplaceAtWellTyped(StatementSlot, t, p, n);
      }
    }
    if Fits(t, p, n) then Some(ReplaceAt(t, p, n)) else None
  }

  /** The source text of a node, for the syntax kinds above. */
  function Render(n: SyntaxNode): (text: string)
    decreases n, |n.children| + 1
  {
    match n.kind
    case StringLiteralExpression(text) => "\"" + text + "\""
    case IdentifierName(identifier) => identifier
    case ParsedTypeName(typeText) => typeText
    case ObjectCreationExpression => "new " + RenderChildren(n, 0, "")
    case InvocationExpression => RenderChildren(n, 0, "")
    case ArgumentList => "(" + RenderChildren(n, 0, ", ") + ")"
    case Argument => RenderChildren(n, 0, "")
    case LocalDeclarationStatement => RenderChildren(n, 0, "") + ";"
    case VariableDeclaration => RenderChildren(n, 0, " ")
    case VariableDeclarator(variable) =>
      if |n.children| == 0 then variable else variable + " " + RenderChildren(n, 0, "")
    case EqualsValueClause => "= " + RenderChildren(n, 0, "")
  }

  /** The children of `n` from index `from` on, rendered and separated by `sep`. */
  function RenderChildren(n: SyntaxNode, from: nat, sep: string): (text: string)
    decreases n, |n.children| - from
  {
    if from >= |n.children| then ""
    else if from + 1 == |n.children| then Render(n.children[from])
    else Render(n.children[from]) + sep + RenderChildren(n, from + 1, sep)
  }

  // ----- Finding a node by its span ----------------------------------------

  /** The length of a node's text.  A node's span covers the spans of its
      descendants, so an ancestor has the same span as a descendant exactly
      when its text is as long. */
  function Width(n: SyntaxNode): (w: nat) {
    |Render(n)|
  }

  lemma {:induction false} PrefixValid(t: SyntaxNode, p: Path, j: nat)
    requires ValidPath(t, p) && j <= |p|
    ensures ValidPath(t, p[..j])
    decreases p
  {
    if j > 0 {
      assert p[..j][1..] == p[1..][..j - 1];
      PrefixValid(t.children[p[0]], p[1..], j - 1);
    }
  }

  /** The first prefix of `p`, from length `i` on, whose node has the span
      of the node at `p`. */
  function OutermostSameSpanFrom(t: SyntaxNode, p: Path, i: nat): (k: nat)
    requires ValidPath(t, p) && i <= |p|
    ensures i <= k <= |p|
    ensures ValidPath(t, p[..k]) && Width(At(t, p[..k])) == Width(At(t, p))
    ensures forall j :: i <= j < k ==> ValidPath(t, p[..j]) && Width(At(t, p[..j])) != Width(At(t, p))
    decreases |p| - i
  {
    PrefixValid(t, p, i);
    assert p[..|p|] == p;
    if Width(At(t, p[..i])) == Width(At(t, p)) then i
    else OutermostSameSpanFrom(t, p, i + 1)
  }

  /** The node a span lookup returns with the default tie rule: among the
      node at `p` and its ancestors that have the same span, the outermost. */
  function FindNode(t: SyntaxNode, p: Path): (q: Path)
    requires ValidPath(t, p)
    ensures q <= p && ValidPath(t, q) && Width(At(t, q)) == Width(At(t, p))
    ensures forall j :: 0 <= j < |q| ==> ValidPath(t, p[..j]) && Width(At(t, p[..j])) != Width(At(t, p))
  {
    var k := OutermostSameSpanFrom(t, p, 0);
    p[..k]
  }

  /** Looking up the span of the node found gives that node back. */
  lemma FindNodeIdempotent(t: SyntaxNode, p: Path)
    requires ValidPath(t, p)
    ensures FindNode(t, FindNode(t, p)) == FindNode(t, p)
  {
    var q := FindNode(t, p);
    var q2 := FindNode(t, q);
    var m := |q2|;
    assert q2 == q[..m] == p[..m];
    if m < |q| {
      assert false;
    }
  }

  /** An argument has the span of its expression, so the lookup from an
      argument's expression never returns a node below the argument. */
  lemma FindNodeLeavesArgument(t: SyntaxNode, a: Path)
    requires ValidPath(t, a) && At(t, a).kind == Argument && |At(t, a).children| == 1
    ensures ValidPath(t, a + [0])
    ensures FindNode(t, a + [0]) <= a
  {
    AtChild(t, a, 0);
    var p := a + [0];
    var n := At(t, a);
    assert Render(n) == Render(n.children[0]);
    assert p[..|a|] == a;
    var q := FindNode(t, p);
    assert q == p[..|q|] && a == p[..|a|];
  }

  /** Extending a path by one child index reaches that child. */
  lemma {:induction false} AtChild(t: SyntaxNode, a: Path, i: nat)
    requires ValidPath(t, a) && i < |At(t, a).children|
    ensures ValidPath(t, a + [i]) && At(t, a + [i]) == At(t, a).children[i]
    decreases a
  {
    if |a| > 0 {
      assert (a + [i])[1..] == a[1..] + [i];
      AtChild(t.children[a[0]], a[1..], i);
    }
  }
}
