/** What evaluating part of a federated query hands back. The engine returns
    lazy iterations whose elements are produced by remote sources; the model
    describes each iteration by how it was put together (which endpoint is
    asked what, which tasks a union runs, which joins are stacked), since the
    remote answers are outside the model. */
module Evaluation {
  import opened Util
  import opened Rdf
  import opened Algebra
  import opened QueryTree

  const TrueLiteral: Value := Literal("true")
  const FalseLiteral: Value := Literal("false")

  /** `BooleanLiteral.valueOf(b)`. */
  function BooleanLiteral(b: bool): (r: Value)
    ensures r == TrueLiteral <==> b
    ensures r == FalseLiteral <==> !b
  {
    if b then TrueLiteral else FalseLiteral
  }

  /** An RDF statement (`ValueFactory.createStatement`). */
  datatype Statement = Statement(subj: Value, pred: Value, obj: Value)

  /** A prepared query as `evaluateAtStatementSources` receives it: a SPARQL
      string, an algebra expression, or an object of any other class. */
  datatype PreparedQuery =
    | QueryString(query: string)
    | QueryAlgebra(expr: TupleExpr)
    | OtherPrepared(className: string)

  /** The tasks a worker union runs, one per source or argument. */
  datatype Task =
    /** `ParallelGetStatementsTask`: `getStatements(s, p, o)` at one endpoint. */
    | GetStatementsTask(endpointId: string, subj: Option<Value>, pred: Option<Value>, obj: Option<Value>)
    /** `ParallelUnionOperatorTask`: the evaluation of one union argument. */
    | UnionOperatorTask(arg: TupleExpr, bindings: BindingSet)
    /** `ParallelPreparedUnionTask` / `ParallelPreparedAlgebraUnionTask`. */
    | PreparedUnionTask(query: PreparedQuery, endpointId: string, bindings: BindingSet,
                        filter: Option<FilterValueExpr>)
    /** `ParallelUnionTask`: the statement itself at one endpoint. */
    | PatternUnionTask(endpointId: string, bindings: BindingSet, filter: Option<FilterValueExpr>)

  /** How a result iteration was built. */
  datatype Iteration =
    | EmptyIteration
    /** `SingletonIteration` of one statement. */
    | SingletonStatement(st: Statement)
    /** `SingleBindingSetIteration`: the input bindings as the only row. */
    | SingleBindingSet(row: BindingSet)
    /** An endpoint's `getStatements(subj, pred, obj)`. */
    | EndpointStatements(endpointId: string, subj: Option<Value>, pred: Option<Value>, obj: Option<Value>)
    /** An endpoint's `getStatements(preparedQuery, bindings, filter)`. */
    | PreparedAtEndpoint(query: PreparedQuery, endpointId: string, bindings: BindingSet,
                         filter: Option<FilterValueExpr>)
    /** An endpoint's `getStatements(statement, bindings, filter)`. */
    | PatternAtEndpoint(endpointId: string, bindings: BindingSet, filter: Option<FilterValueExpr>)
    /** A worker union over its tasks, in the order they were added. */
    | WorkerUnion(tasks: seq<Task>)
    /** The evaluation of a node by the node itself or by the RDF4J strategy. */
    | Evaluated(expr: TupleExpr, bindings: BindingSet)
    /** `executeJoin(left, right, joinVars, bindings)`. */
    | JoinOf(left: Iteration, right: TupleExpr, joinVars: set<string>, bindings: BindingSet)
    /** `InsertBindingsIteration`: every row extended with the given bindings. */
    | InsertBindings(inner: Iteration, inserted: BindingSet)

  /** `new QueryEvaluationException(e)`: the cause wrapped, its message not modelled. */
  function WrapQueryEvaluation(e: Exception): (r: Exception)
    ensures r.cls == QueryEvaluationException && r.cause == Some(e)
  {
    Exception(QueryEvaluationException, None, Some(e))
  }
}
