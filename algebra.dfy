/** The value-expression and filter part of the query algebra that the FedX
    optimizers and evaluation strategy inspect. */
module Algebra {
  import opened Util
  import opened Rdf

  datatype CompareOp = EQ | NE | LT | LE | GE | GT

  /** RDF4J value expressions, as far as FedX looks into them; every other
      operator is a `FunctionCall` over its arguments. */
  datatype ValueExpr =
    | VarExpr(v: Var)
    | ValueConstant(value: Value)
    | And(left: ValueExpr, right: ValueExpr)
    | Or(left: ValueExpr, right: ValueExpr)
    | Not(arg: ValueExpr)
    | Compare(cmpLeft: ValueExpr, op: CompareOp, cmpRight: ValueExpr)
    | FunctionCall(fname: string, args: seq<ValueExpr>)

  /** Every variable occurrence in an expression, in any position. */
  function VarsOf(e: ValueExpr): set<Var>
  {
    match e
    case VarExpr(v) => {v}
    case ValueConstant(_) => {}
    case And(l, r) => VarsOf(l) + VarsOf(r)
    case Or(l, r) => VarsOf(l) + VarsOf(r)
    case Not(a) => VarsOf(a)
    case Compare(l, _, r) => VarsOf(l) + VarsOf(r)
    case FunctionCall(_, args) => VarsOfAll(args)
  }

  function VarsOfAll(args: seq<ValueExpr>): set<Var>
  {
    if args == [] then {} else VarsOf(args[0]) + VarsOfAll(args[1..])
  }

  /** The names of all variables a visitor meets in an expression. */
  function VarNames(e: ValueExpr): (r: set<string>)
    ensures r == set v | v in VarsOf(e) :: v.name
  {
    match e
    case VarExpr(v) => {v.name}
    case ValueConstant(_) => {}
    case And(l, r) => VarNames(l) + VarNames(r)
    case Or(l, r) => VarNames(l) + VarNames(r)
    case Not(a) => VarNames(a)
    case Compare(l, _, r) => VarNames(l) + VarNames(r)
    case FunctionCall(_, args) => VarNamesAll(args)
  }

  function VarNamesAll(args: seq<ValueExpr>): (r: set<string>)
    ensures r == set v | v in VarsOfAll(args) :: v.name
  {
    if args == [] then {} else VarNames(args[0]) + VarNamesAll(args[1..])
  }

  /** `FilterOptimizer.VarFinder.findVars`: the names of the variables in the
      expression that carry no value. */
  function FindVars(e: ValueExpr): (r: set<string>)
    ensures r == set v | v in VarsOf(e) && v.value.None? :: v.name
  {
    match e
    case VarExpr(v) => if v.value.None? then {v.name} else {}
    case ValueConstant(_) => {}
    case And(l, r) => FindVars(l) + FindVars(r)
    case Or(l, r) => FindVars(l) + FindVars(r)
    case Not(a) => FindVars(a)
    case Compare(l, _, r) => FindVars(l) + FindVars(r)
    case FunctionCall(_, args) => FindVarsAll(args)
  }

  function FindVarsAll(args: seq<ValueExpr>): (r: set<string>)
    ensures r == set v | v in VarsOfAll(args) && v.value.None? :: v.name
  {
    if args == [] then {} else FindVars(args[0]) + FindVarsAll(args[1..])
  }

  /** FedX's `FilterExpr`: one filter condition together with the names of the
      unbound variables it mentions. */
  datatype FilterExpr = FilterExpr(expression: ValueExpr, vars: set<string>)

  /** `FilterExpr.isCompareEq()`: the condition is an `=` comparison. */
  predicate IsCompareEq(f: FilterExpr)
  {
    f.expression.Compare? && f.expression.op == EQ
  }

  /** What a filter tuple carries as its filter (`FilterValueExpr`): a single
      `FilterExpr`, a `ConjunctiveFilterExpr`, or some other implementation of
      the interface, which FedX rejects wherever it meets one. */
  datatype FilterValueExpr =
    | Single(expr: FilterExpr)
    | Conjunctive(exprs: seq<FilterExpr>)
    | OtherFilterValue

  /** The conjuncts a (possibly absent) filter stands for. */
  function Conjuncts(f: Option<FilterValueExpr>): seq<FilterExpr>
  {
    match f
    case None => []
    case Some(Single(e)) => [e]
    case Some(Conjunctive(es)) => es
    case Some(OtherFilterValue) => []
  }

  /** A statement source: a reference to the endpoint a pattern is sent to. */
  datatype StatementSource = StatementSource(id: string, endpointId: string)
}
