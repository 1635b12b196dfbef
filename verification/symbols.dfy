/** The part of the compiler's symbol table that the code fix consults:
    named types, method symbols with their parameters, and the members
    declared by each type. */
module Symbols {

  /** A named type, identified by its containing namespaces and types
      (outermost first) and its own name.  Two type symbols denote the
      same type exactly when they are equal. */
  datatype TypeSymbol = NamedType(containers: seq<string>, name: string)

  /** The kinds of method the code fix distinguishes. */
  datatype MethodKind = Constructor | Conversion | Ordinary

  datatype Parameter = Parameter(name: string, paramType: TypeSymbol)

  /** A method symbol: its kind, its ordered parameters and its return type
      (for a constructor, the type it constructs). */
  datatype MethodSymbol = MethodSymbol(kind: MethodKind, parameters: seq<Parameter>, returnType: TypeSymbol)

  /** A member of a type: a method, or some other member (field, property,
      nested type, ...) which the code fix filters out. */
  datatype Member = Method(symbol: MethodSymbol) | OtherMember(name: string)

  /** The members declared by each type; a type with no entry has none. */
  type SymbolTable = map<TypeSymbol, seq<Member>>

  function GetMembers(table: SymbolTable, t: TypeSymbol): (ms: seq<Member>)
    ensures t in table ==> ms == table[t]
    ensures t !in table ==> ms == []
  {
    if t in table then table[t] else []
  }

  /** The parameter types of a method, in declaration order; parameter
      names play no part. */
  function ParameterTypes(m: MethodSymbol): (ts: seq<TypeSymbol>)
    ensures |ts| == |m.parameters|
    ensures forall i :: 0 <= i < |ts| ==> ts[i] == m.parameters[i].paramType
  {
    seq(|m.parameters|, i requires 0 <= i < |m.parameters| => m.parameters[i].paramType)
  }

  /** Joins the given segments with '.'. */
  function JoinDotted(segments: seq<string>): (s: string)
    ensures |segments| == 1 ==> s == segments[0]
  {
    if |segments| == 0 then ""
    else if |segments| == 1 then segments[0]
    else JoinDotted(segments[..|segments| - 1]) + "." + segments[|segments| - 1]
  }

  /** The fully qualified display text of a type: containers and name
      joined by '.' (the default display format qualifies the name).  The
      keyword spelling of special types (`string` for `System.String`) and
      type arguments are not modelled. */
  function DisplayString(t: TypeSymbol): (s: string)
    ensures |t.containers| == 0 ==> s == t.name
    ensures |t.containers| > 0 ==> s == JoinDotted(t.containers) + "." + t.name
  {
    assert (t.containers + [t.name])[..|t.containers|] == t.containers;
    JoinDotted(t.containers + [t.name])
  }
}
