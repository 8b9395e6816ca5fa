/** `FederationEvalStrategy`: how the federation engine evaluates the plan
    nodes of a federated query and its FedX filters. Remote answers, the
    scheduler threads and RDF4J's own evaluation stay outside: the model says
    which iteration each call builds, and the value outcome of each filter
    conjunct is an input. */
module FederationEvalStrategies {
  import opened Util
  import opened Rdf
  import opened Algebra
  import opened QueryTree
  import opened Evaluation

  // ---------------------------------------------------------------------------
  // The evaluate(TupleExpr) dispatch
  // ---------------------------------------------------------------------------

  /** The branch `evaluate(expr, bindings)` takes. */
  datatype Route =
    | OwnEvaluate          // a StatementTupleExpr evaluates itself
    | NJoinRoute
    | NUnionRoute
    | GroupRoute           // the ExclusiveGroup branch
    | SingleSourceRoute
    | ServiceRoute
    | IndependentJoinRoute
    | EmptyRoute
    | DefaultRoute         // RDF4J's strategy

  /** The `instanceof` chain of `evaluate(TupleExpr, BindingSet)`. An exclusive
      group is itself a statement tuple expression, so the first test already
      takes it and the group branch is never reached. */
  function Dispatch(t: TupleExpr): (r: Route)
    ensures r == OwnEvaluate <==> IsStatementTupleExpr(t)
    ensures r != GroupRoute
    ensures r == EmptyRoute <==> t.EmptyResult?
  {
    if IsStatementTupleExpr(t) then OwnEvaluate
    else if t.NJoin? then NJoinRoute
    else if t.NUnion? then NUnionRoute
    else if t.Group? then GroupRoute
    else if t.SingleSourceQuery? then SingleSourceRoute
    else if t.FedXService? then ServiceRoute
    else if t.IndependentJoinGroup? then IndependentJoinRoute
    else if t.EmptyResult? then EmptyRoute
    else DefaultRoute
  }

  // ---------------------------------------------------------------------------
  // Filters
  // ---------------------------------------------------------------------------

  /** What evaluating a conjunct's expression and taking its effective
      boolean value gives: the boolean, or the exception thrown. */
  type Outcome = Result<bool>

  /** A conjunct that ends the conjunction loop: one that is false, or one whose
      exception is not a `ValueExprEvaluationException` and so is not caught. */
  predicate Stops(o: Outcome)
  {
    o == Ok(false) || (o.Err? && o.error.cls != ValueExprEvaluationException)
  }

  /** The position of the first stopping conjunct, or the length if none stops. */
  function FirstStop(outs: seq<Outcome>): (k: nat)
    ensures k <= |outs|
    ensures k < |outs| ==> Stops(outs[k])
    ensures forall j :: 0 <= j < k ==> !Stops(outs[j])
  {
    if outs == [] then 0 else if Stops(outs[0]) then 0 else 1 + FirstStop(outs[1..])
  }

  /** The exception of the last failing conjunct, if any failed. */
  function LastError(outs: seq<Outcome>): Option<Exception>
  {
    if outs == [] then None
    else if outs[|outs| - 1].Err? then Some(outs[|outs| - 1].error)
    else LastError(outs[..|outs| - 1])
  }

  /** The value of a conjunction under the SPARQL `&&` table: the first false
      conjunct or uncaught exception decides; otherwise a caught error makes
      the whole an error; otherwise it is true. */
  function ConjunctionValue(outs: seq<Outcome>): Result<Value>
  {
    var k := FirstStop(outs);
    if k < |outs| then
      (if outs[k].Ok? then Ok(FalseLiteral) else Err(outs[k].error))
    else
      match LastError(outs)
      case None => Ok(TrueLiteral)
      case Some(e) => Err(e)
  }

  /** `evaluate(FilterExpr, bindings)`: the boolean literal of the condition's
      effective boolean value; an exception passes through. */
  function EvaluateFilter(o: Outcome): (r: Result<Value>)
    ensures r.Ok? <==> o.Ok?
    ensures r.Ok? ==> (r.value == TrueLiteral <==> o.value)
  {
    match o
    case Ok(b) => Ok(BooleanLiteral(b))
    case Err(e) => Err(e)
  }

  /** `evaluate(ConjunctiveFilterExpr, bindings)`: the conjuncts in order, each
      with the outcome given in `outs`; `evaluated` is how many were looked at. */
  method EvaluateConjunctive(outs: seq<Outcome>) returns (r: Result<Value>, evaluated: nat)
    ensures r == ConjunctionValue(outs)
    ensures evaluated == if FirstStop(outs) < |outs| then FirstStop(outs) + 1 else |outs|
  {
    var error: Option<Exception> := None;
    var i := 0;
    while i < |outs|
      invariant 0 <= i <= |outs|
      invariant forall j :: 0 <= j < i ==> !Stops(outs[j])
      invariant error == LastError(outs[..i])
    {
      var o := outs[i];
      if o.Ok? {
        if !o.value {
          return Ok(FalseLiteral), i + 1;
        }
      } else if o.error.cls == ValueExprEvaluationException {
        error := Some(o.error);
      } else {
        return Err(o.error), i + 1;
      }
      assert outs[..i + 1][..i] == outs[..i];
      i := i + 1;
    }
    assert outs[..i] == outs;
    if error.Some? {
      return Err(error.value), |outs|;
    }
    return Ok(TrueLiteral), |outs|;
  }

  lemma {:induction false} LastErrorNone(outs: seq<Outcome>)
    ensures LastError(outs) == None <==> forall i :: 0 <= i < |outs| ==> outs[i].Ok?
  {
    if outs != [] {
      LastErrorNone(outs[..|outs| - 1]);
    }
  }

  lemma {:induction false} LastErrorIsLast(outs: seq<Outcome>)
    requires LastError(outs).Some?
    ensures exists i :: 0 <= i < |outs| && outs[i] == Err(LastError(outs).value)
                        && forall j :: i < j < |outs| ==> outs[j].Ok?
  {
    var n := |outs| - 1;
    if !outs[n].Err? {
      LastErrorIsLast(outs[..n]);
      var i :| 0 <= i < n && outs[..n][i] == Err(LastError(outs[..n]).value)
                && forall j :: i < j < n ==> outs[..n][j].Ok?;
      assert outs[i] == outs[..n][i];
      forall j | i < j < |outs|
        ensures outs[j].Ok?
      {
        if j < n {
          assert outs[j] == outs[..n][j];
        }
      }
    }
  }

  /** The conjunction is true exactly when every conjunct is true. */
  lemma ConjunctionTrue(outs: seq<Outcome>)
    ensures ConjunctionValue(outs) == Ok(TrueLiteral) <==> forall i :: 0 <= i < |outs| ==> outs[i] == Ok(true)
  {
    LastErrorNone(outs);
    var k := FirstStop(outs);
    if ConjunctionValue(outs) == Ok(TrueLiteral) {
      assert FalseLiteral != TrueLiteral;
      assert k == |outs|;
      assert LastError(outs) == None;
      forall i | 0 <= i < |outs|
        ensures outs[i] == Ok(true)
      {
        assert !Stops(outs[i]) && outs[i].Ok?;
        if !outs[i].value {
          assert false;
        }
      }
    }
  }

  /** A false conjunct decides the conjunction whenever no conjunct fails with
      an exception the loop does not catch, wherever the caught errors are. */
  lemma ConjunctionFalse(outs: seq<Outcome>, i: nat)
    requires i < |outs| && outs[i] == Ok(false)
    requires forall j :: 0 <= j < |outs| && outs[j].Err? ==> outs[j].error.cls == ValueExprEvaluationException
    ensures ConjunctionValue(outs) == Ok(FalseLiteral)
  {
    var k := FirstStop(outs);
    assert k <= i;
  }

  /** Without a false conjunct and without an uncaught exception, a caught
      error makes the conjunction fail with the last such error. */
  lemma ConjunctionError(outs: seq<Outcome>)
    requires forall j :: 0 <= j < |outs| ==> !Stops(outs[j])
    requires exists j :: 0 <= j < |outs| && outs[j].Err?
    ensures ConjunctionValue(outs).Err?
    ensures exists i :: 0 <= i < |outs| && outs[i] == Err(ConjunctionValue(outs).error)
                        && forall j :: i < j < |outs| ==> outs[j].Ok?
  {
    LastErrorNone(outs);
    LastErrorIsLast(outs);
    assert FirstStop(outs) == |outs|;
  }

  /** A conjunction of one filter evaluates like that filter on its own. */
  lemma SingleConjunct(o: Outcome)
    ensures ConjunctionValue([o]) == EvaluateFilter(o)
  {
    LastErrorNone([o]);
    if o.Ok? && o.value {
      assert FirstStop([o]) == 1;
    }
  }

  // ---------------------------------------------------------------------------
  // getStatements
  // ---------------------------------------------------------------------------

  /** `getStatements(queryInfo, subj, pred, obj)`. `cacheHasStatement` is what
      the cache check answers for a fully bound statement; `sources` is what
      the cache answers as relevant sources otherwise. */
  method GetStatements(subj: Option<Value>, pred: Option<Value>, obj: Option<Value>,
                       cacheHasStatement: bool, sources: seq<StatementSource>) returns (r: Iteration)
    ensures subj.Some? && pred.Some? && obj.Some? ==>
              r == if cacheHasStatement then SingletonStatement(Statement(subj.value, pred.value, obj.value))
                   else EmptyIteration
    ensures !(subj.Some? && pred.Some? && obj.Some?) && |sources| == 0 ==> r == EmptyIteration
    ensures !(subj.Some? && pred.Some? && obj.Some?) && |sources| == 1 ==>
              r == EndpointStatements(sources[0].endpointId, subj, pred, obj)
    ensures !(subj.Some? && pred.Some? && obj.Some?) && |sources| >= 2 ==>
              r.WorkerUnion? && |r.tasks| == |sources|
              && forall i :: 0 <= i < |sources| ==>
                   r.tasks[i] == GetStatementsTask(sources[i].endpointId, subj, pred, obj)
  {
    if subj.Some? && pred.Some? && obj.Some? {
      if cacheHasStatement {
        return SingletonStatement(Statement(subj.value, pred.value, obj.value));
      }
      return EmptyIteration;
    }
    if |sources| == 0 {
      return EmptyIteration;
    }
    if |sources| == 1 {
      return EndpointStatements(sources[0].endpointId, subj, pred, obj);
    }
    var tasks: seq<Task> := [];
    for i := 0 to |sources|
      invariant |tasks| == i
      invariant forall k :: 0 <= k < i ==> tasks[k] == GetStatementsTask(sources[k].endpointId, subj, pred, obj)
    {
      tasks := tasks + [GetStatementsTask(sources[i].endpointId, subj, pred, obj)];
    }
    r := WorkerUnion(tasks);
  }

  // ---------------------------------------------------------------------------
  // N-ary joins and unions
  // ---------------------------------------------------------------------------

  /** The left-deep join of the first `n` arguments. */
  function LeftDeepJoin(args: seq<TupleExpr>, joinVars: seq<set<string>>, b: BindingSet, n: nat): Iteration
    requires 1 <= n <= |args| && |joinVars| == |args|
  {
    if n == 1 then Evaluated(args[0], b)
    else JoinOf(LeftDeepJoin(args, joinVars, b, n - 1), args[n - 1], joinVars[n - 1], b)
  }

  /** The right operands of a stack of joins, innermost first. */
  function JoinRights(it: Iteration): seq<TupleExpr>
  {
    if it.JoinOf? then JoinRights(it.left) + [it.right] else []
  }

  /** The iteration at the bottom of a stack of joins. */
  function Innermost(it: Iteration): Iteration
  {
    if it.JoinOf? then Innermost(it.left) else it
  }

  /** The first argument is evaluated on its own, and every later argument is
      joined to the running result once, in argument order. */
  lemma {:induction false} LeftDeepJoinShape(args: seq<TupleExpr>, joinVars: seq<set<string>>, b: BindingSet, n: nat)
    requires 1 <= n <= |args| && |joinVars| == |args|
    ensures JoinRights(LeftDeepJoin(args, joinVars, b, n)) == args[1..n]
    ensures Innermost(LeftDeepJoin(args, joinVars, b, n)) == Evaluated(args[0], b)
  {
    if n > 1 {
      LeftDeepJoinShape(args, joinVars, b, n - 1);
      assert args[1..n] == args[1..n - 1] + [args[n - 1]];
    }
  }

  const IndexOutOfBounds: Exception := Exception(OtherException("IndexOutOfBoundsException"), None, None)

  /** `evaluateNJoin(join, bindings)`; `joinVars[i]` is `join.getJoinVariables(i)`. */
  method EvaluateNJoin(args: seq<TupleExpr>, joinVars: seq<set<string>>, b: BindingSet) returns (r: Result<Iteration>)
    requires |joinVars| == |args|
    ensures args == [] ==> r == Err(IndexOutOfBounds)
    ensures args != [] ==> r == Ok(LeftDeepJoin(args, joinVars, b, |args|))
  {
    if |args| == 0 {
      return Err(IndexOutOfBounds);
    }
    var result := Evaluated(args[0], b);
    var i := 1;
    while i < |args|
      invariant 1 <= i <= |args|
      invariant result == LeftDeepJoin(args, joinVars, b, i)
    {
      result := JoinOf(result, args[i], joinVars[i], b);
      i := i + 1;
    }
    r := Ok(result);
  }

  /** `evaluateNaryUnion(union, bindings)`: one union task per argument. */
  method EvaluateNaryUnion(args: seq<TupleExpr>, b: BindingSet) returns (r: Iteration)
    ensures r.WorkerUnion? && |r.tasks| == |args|
    ensures forall i :: 0 <= i < |args| ==> r.tasks[i] == UnionOperatorTask(args[i], b)
  {
    var tasks: seq<Task> := [];
    for i := 0 to |args|
      invariant |tasks| == i
      invariant forall k :: 0 <= k < i ==> tasks[k] == UnionOperatorTask(args[k], b)
    {
      tasks := tasks + [UnionOperatorTask(args[i], b)];
    }
    r := WorkerUnion(tasks);
  }

  /** `evaluate(expr, bindings)` for the branches this model covers; the other
      branches hand the node to code outside the model. */
  method Evaluate(t: TupleExpr, b: BindingSet, joinVars: seq<set<string>>) returns (r: Result<Iteration>)
    requires t.NJoin? ==> |joinVars| == |t.args|
    ensures Dispatch(t) == EmptyRoute ==> r == Ok(EmptyIteration)
    ensures Dispatch(t) == NJoinRoute && t.args != [] ==> r == Ok(LeftDeepJoin(t.args, joinVars, b, |t.args|))
    ensures Dispatch(t) == NUnionRoute ==> r.Ok? && r.value.WorkerUnion? && |r.value.tasks| == |t.args|
    ensures Dispatch(t) !in {EmptyRoute, NJoinRoute, NUnionRoute} ==> r == Ok(Evaluated(t, b))
  {
    var route := Dispatch(t);
    if route == NJoinRoute {
      r := EvaluateNJoin(t.args, joinVars, b);
    } else if route == NUnionRoute {
      var u := EvaluateNaryUnion(t.args, b);
      r := Ok(u);
    } else if route == EmptyRoute {
      r := Ok(EmptyIteration);
    } else {
      r := Ok(Evaluated(t, b));
    }
  }

  // ---------------------------------------------------------------------------
  // evaluateAtStatementSources
  // ---------------------------------------------------------------------------

  const UnsupportedPreparedPrefix: string := "Unsupported type for prepared query: "

  /** `evaluateAtStatementSources(preparedQuery, sources, queryInfo)`.
      `registered` are the endpoint ids the endpoint manager maps; `failure` is
      what the one source's triple source throws, if it throws. */
  method EvaluateAtStatementSources(q: PreparedQuery, sources: seq<StatementSource>,
                                    registered: set<string>, failure: Option<Exception>)
    returns (r: Result<Iteration>)
    ensures q.OtherPrepared? ==> r == Err(Raise(RuntimeException, UnsupportedPreparedPrefix + q.className))
    ensures !q.OtherPrepared? && |sources| == 1 ==>
              r == if sources[0].endpointId !in registered then Err(WrapQueryEvaluation(NullPointer))
                   else if failure.Some? then Err(WrapQueryEvaluation(failure.value))
                   else Ok(PreparedAtEndpoint(q, sources[0].endpointId, map[], None))
    ensures !q.OtherPrepared? && |sources| != 1 ==>
              r.Ok? && r.value.WorkerUnion? && |r.value.tasks| == |sources|
              && forall i :: 0 <= i < |sources| ==>
                   r.value.tasks[i] == PreparedUnionTask(q, sources[i].endpointId, map[], None)
    ensures !q.OtherPrepared? && r.Err? ==> r.error.cls == QueryEvaluationException
  {
    if q.OtherPrepared? {
      return Err(Raise(RuntimeException, UnsupportedPreparedPrefix + q.className));
    }
    if |sources| == 1 {
      var id := sources[0].endpointId;
      if id !in registered {
        return Err(WrapQueryEvaluation(NullPointer));
      }
      if failure.Some? {
        return Err(WrapQueryEvaluation(failure.value));
      }
      return Ok(PreparedAtEndpoint(q, id, map[], None));
    }
    var tasks: seq<Task> := [];
    for i := 0 to |sources|
      invariant |tasks| == i
      invariant forall k :: 0 <= k < i ==> tasks[k] == PreparedUnionTask(q, sources[k].endpointId, map[], None)
    {
      tasks := tasks + [PreparedUnionTask(q, sources[i].endpointId, map[], None)];
    }
    r := Ok(WorkerUnion(tasks));
  }
}
