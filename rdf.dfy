/** The parts of the RDF data model the federation engine looks at: values,
    query variables and binding sets. */
module Rdf {
  import opened Util

  /** An RDF value. IRIs and blank nodes are resources; literals are not. */
  datatype Value = Iri(iri: string) | BNode(id: string) | Literal(lexical: string)

  predicate IsResource(v: Value)
  {
    v.Iri? || v.BNode?
  }

  /** `Value.stringValue()`. */
  function StringValue(v: Value): string
  {
    match v
    case Iri(s) => s
    case BNode(id) => id
    case Literal(lexical) => lexical
  }

  /** A query variable: its name and, once bound, its value (`Var.getValue()`). */
  datatype Var = Var(name: string, value: Option<Value>)

  /** A binding set: variable names to values; `hasBinding(n)` is `n in b`. */
  type BindingSet = map<string, Value>

  /** A single name/value binding (`SimpleBinding`). */
  datatype Binding = Binding(name: string, value: Value)

  /** The loop of `hasFreeVarsFor`: does some listed variable lack a binding? */
  function AnyUnbound(vars: seq<string>, b: BindingSet): bool
  {
    if vars == [] then false
    else if vars[0] !in b then true
    else AnyUnbound(vars[1..], b)
  }

  /** The loop answers true exactly when some listed variable has no binding. */
  lemma {:induction false} AnyUnboundSpec(vars: seq<string>, b: BindingSet)
    ensures AnyUnbound(vars, b) <==> exists v :: v in vars && v !in b
  {
    if vars != [] {
      AnyUnboundSpec(vars[1..], b);
      assert vars == [vars[0]] + vars[1..];
    }
  }
}
