/** How a FedX statement evaluates itself: `StatementSourcePattern.evaluate`
    asks every relevant source through one worker union, and
    `ExclusiveStatement.evaluate` asks its single owner directly. What a
    source's triple source answers, and what the query-string builder
    produces, are inputs. */
module StatementEvaluation {
  import opened Util
  import opened Rdf
  import opened Algebra
  import opened StatementPatterns
  import opened Evaluation

  /** What an endpoint's triple source says for this statement and these
      bindings: whether it prefers prepared queries (`usePreparedQuery()`), and
      whether it has matching statements (`hasStatements(stmt, bindings)`). */
  datatype TripleSourceInfo = TripleSourceInfo(usePreparedQuery: bool, hasStatements: bool)

  /** `QueryStringUtil.selectQueryString(stmt, bindings, filterExpr, isEvaluated)`:
      the query and whether the filter was put into it, or the
      `IllegalQueryException` it throws when every variable is bound. */
  datatype QueryStringOutcome = Built(query: string, filterEvaluated: bool) | AllVarsBound

  /** Every source names an endpoint whose triple source is known. */
  predicate Known(sources: seq<StatementSource>, ts: map<string, TripleSourceInfo>)
  {
    forall i :: 0 <= i < |sources| ==> sources[i].endpointId in ts
  }

  /** The result wrapped in an `InsertBindingsIteration` when there are bound
      filter values. */
  function WithBoundFilters(it: Iteration, boundFilters: Option<BindingSet>): Iteration
  {
    if boundFilters.Some? then InsertBindings(it, boundFilters.value) else it
  }

  // ---------------------------------------------------------------------------
  // The check path
  // ---------------------------------------------------------------------------

  /** The position of the first source that has statements, or the number of
      sources if none has. */
  function FirstWithStatements(sources: seq<StatementSource>, ts: map<string, TripleSourceInfo>): (k: nat)
    requires Known(sources, ts)
    ensures k <= |sources|
    ensures k < |sources| ==> ts[sources[k].endpointId].hasStatements
    ensures forall j :: 0 <= j < k ==> !ts[sources[j].endpointId].hasStatements
  {
    if sources == [] then 0
    else if ts[sources[0].endpointId].hasStatements then 0
    else 1 + FirstWithStatements(sources[1..], ts)
  }

  /** The answer to an all-bound statement: the input bindings as the only row
      if some source has the statement, no row otherwise. */
  function CheckResult(sources: seq<StatementSource>, ts: map<string, TripleSourceInfo>, b: BindingSet): Iteration
    requires Known(sources, ts)
  {
    if exists i :: 0 <= i < |sources| && ts[sources[i].endpointId].hasStatements then SingleBindingSet(b)
    else EmptyIteration
  }

  /** `handleStatementSourcePatternCheck(bindings)`: probes the sources in
      order and stops at the first that has statements; `probed` is how many
      were asked. */
  method HandleCheck(sources: seq<StatementSource>, ts: map<string, TripleSourceInfo>, b: BindingSet)
    returns (r: Iteration, probed: nat)
    requires Known(sources, ts)
    ensures r == CheckResult(sources, ts, b)
    ensures probed == if FirstWithStatements(sources, ts) < |sources| then FirstWithStatements(sources, ts) + 1
                      else |sources|
  {
    for i := 0 to |sources|
      invariant forall j :: 0 <= j < i ==> !ts[sources[j].endpointId].hasStatements
    {
      if ts[sources[i].endpointId].hasStatements {
        return SingleBindingSet(b), i + 1;
      }
    }
    return EmptyIteration, |sources|;
  }

  // ---------------------------------------------------------------------------
  // StatementSourcePattern.evaluate
  // ---------------------------------------------------------------------------

  /** The position of the first source whose triple source uses prepared
      queries, or the number of sources if none does. */
  function FirstPrepared(sources: seq<StatementSource>, ts: map<string, TripleSourceInfo>): (k: nat)
    requires Known(sources, ts)
    ensures k <= |sources|
    ensures k < |sources| ==> ts[sources[k].endpointId].usePreparedQuery
    ensures forall j :: 0 <= j < k ==> !ts[sources[j].endpointId].usePreparedQuery
  {
    if sources == [] then 0
    else if ts[sources[0].endpointId].usePreparedQuery then 0
    else 1 + FirstPrepared(sources[1..], ts)
  }

  /** The union task for one source: the shared prepared query, with the
      filter left out when the query already evaluates it, or the statement
      itself with its filter. */
  function TaskFor(src: StatementSource, info: TripleSourceInfo, b: BindingSet,
                   filter: Option<FilterValueExpr>, qs: QueryStringOutcome): Task
  {
    if info.usePreparedQuery && qs.Built? then
      PreparedUnionTask(QueryString(qs.query), src.endpointId, b, if qs.filterEvaluated then None else filter)
    else
      PatternUnionTask(src.endpointId, b, filter)
  }

  /** `StatementSourcePattern.evaluate(bindings)`. `ts` holds the triple
      sources of the endpoints, `qs` what building the query string gives;
      `built` counts how often the query string is built. */
  method EvaluateSourcePattern(st: FedXStatementPattern, b: BindingSet, boundFilters: Option<BindingSet>,
                               ts: map<string, TripleSourceInfo>, qs: QueryStringOutcome)
    returns (r: Iteration, built: nat)
    requires Known(st.sources, ts)
    ensures built == if FirstPrepared(st.sources, ts) < |st.sources| then 1 else 0
    ensures FirstPrepared(st.sources, ts) < |st.sources| && qs.AllVarsBound? ==>
              r == (var c := CheckResult(st.sources, ts, b);
                    if boundFilters.Some? && c != EmptyIteration then InsertBindings(c, boundFilters.value) else c)
    ensures !(FirstPrepared(st.sources, ts) < |st.sources| && qs.AllVarsBound?) ==>
              exists tasks: seq<Task> ::
                r == WithBoundFilters(WorkerUnion(tasks), boundFilters) && |tasks| == |st.sources|
                && forall i :: 0 <= i < |tasks| ==>
                     tasks[i] == TaskFor(st.sources[i], ts[st.sources[i].endpointId], b, st.filter, qs)
  {
    var sources := st.sources;
    var filter := st.filter;
    var preparedQuery: Option<string> := None;
    var isEvaluated := false;
    var tasks: seq<Task> := [];
    built := 0;
    for i := 0 to |sources|
      invariant |tasks| == i
      invariant forall k :: 0 <= k < i ==> tasks[k] == TaskFor(sources[k], ts[sources[k].endpointId], b, filter, qs)
      invariant preparedQuery.None? <==> FirstPrepared(sources, ts) >= i
      invariant preparedQuery.Some? ==> qs == Built(preparedQuery.value, isEvaluated)
      invariant built == if FirstPrepared(sources, ts) < i then 1 else 0
    {
      var src := sources[i];
      var info := ts[src.endpointId];
      if info.usePreparedQuery {
        if preparedQuery.None? {
          built := built + 1;
          match qs
          case AllVarsBound =>
            var res, _ := HandleCheck(sources, ts, b);
            if boundFilters.Some? && res != EmptyIteration {
              res := InsertBindings(res, boundFilters.value);
            }
            return res, built;
          case Built(q, ev) =>
            preparedQuery := Some(q);
            isEvaluated := ev;
        }
        tasks := tasks + [PreparedUnionTask(QueryString(preparedQuery.value), src.endpointId, b,
                                            if isEvaluated then None else filter)];
      } else {
        tasks := tasks + [PatternUnionTask(src.endpointId, b, filter)];
      }
    }
    r := WithBoundFilters(WorkerUnion(tasks), boundFilters);
  }

  // ---------------------------------------------------------------------------
  // ExclusiveStatement.evaluate
  // ---------------------------------------------------------------------------

  /** `ExclusiveStatement.evaluate(bindings)`: the owner's triple source answers
      directly; an all-bound statement becomes a check at the owner. */
  function EvaluateExclusive(owner: StatementSource, info: TripleSourceInfo, qs: QueryStringOutcome,
                             b: BindingSet, filter: Option<FilterValueExpr>, boundFilters: Option<BindingSet>)
    : (r: Iteration)
    ensures r == EmptyIteration <==> info.usePreparedQuery && qs.AllVarsBound? && !info.hasStatements
    ensures boundFilters.Some? && r != EmptyIteration ==> r.InsertBindings? && r.inserted == boundFilters.value
    ensures boundFilters.None? ==> !r.InsertBindings?
  {
    if info.usePreparedQuery then
      match qs
      case AllVarsBound =>
        if info.hasStatements then WithBoundFilters(SingleBindingSet(b), boundFilters) else EmptyIteration
      case Built(q, ev) =>
        WithBoundFilters(PreparedAtEndpoint(QueryString(q), owner.endpointId, b, if ev then None else filter),
                         boundFilters)
    else
      WithBoundFilters(PatternAtEndpoint(owner.endpointId, b, filter), boundFilters)
  }

  /** An all-bound exclusive statement answers exactly what the check of a
      statement whose only source is the owner answers. */
  lemma ExclusiveCheckAgrees(owner: StatementSource, info: TripleSourceInfo, b: BindingSet,
                             filter: Option<FilterValueExpr>, boundFilters: Option<BindingSet>)
    requires info.usePreparedQuery
    ensures var ts := map[owner.endpointId := info];
            var c := CheckResult([owner], ts, b);
            EvaluateExclusive(owner, info, AllVarsBound, b, filter, boundFilters)
              == if boundFilters.Some? && c != EmptyIteration then InsertBindings(c, boundFilters.value) else c
  {
    var ts := map[owner.endpointId := info];
    if info.hasStatements {
      assert [owner][0].endpointId in ts && ts[[owner][0].endpointId].hasStatements;
    }
  }
}
