/** `FilterOptimizer` (optimizer/FilterOptimizer.java): splits each FILTER
    condition into its conjuncts and pushes every conjunct it can into the
    statements below the filter, either as a filter of the statement or, for
    an equality with a resource constant, as a binding of the variable. */
module FilterOptimizers {
  import opened Util
  import opened Rdf
  import opened Algebra
  import opened StatementPatterns
  import opened ExclusiveGroups
  import opened QueryTree

  // ---------------------------------------------------------------------------
  // Conjuncts of a condition
  // ---------------------------------------------------------------------------

  /** `getConjunctiveExpressions`: the leaves of the `And` tree, left to right. */
  function ConjunctiveExpressions(e: ValueExpr): (r: seq<ValueExpr>)
    ensures |r| >= 1
    ensures forall i :: 0 <= i < |r| ==> !r[i].And?
    ensures forall y :: y in r ==> !y.And?
    ensures !e.And? ==> r == [e]
  {
    if e.And? then ConjunctiveExpressions(e.left) + ConjunctiveExpressions(e.right) else [e]
  }

  /** The rebuilt condition for two or more remaining conjuncts: a right-nested
      `And` chain, `And(c0, And(c1, ... And(c(n-2), c(n-1))))`. */
  function AndChain(rem: seq<ValueExpr>): ValueExpr
    requires |rem| >= 1
  {
    if |rem| == 1 then rem[0] else And(rem[0], AndChain(rem[1..]))
  }

  /** Flattening the rebuilt chain gives back the remaining conjuncts, in
      order: rebuilding loses and reorders nothing. */
  lemma {:induction false} AndChainRoundTrip(rem: seq<ValueExpr>)
    requires |rem| >= 1
    requires forall i :: 0 <= i < |rem| ==> !rem[i].And?
    ensures ConjunctiveExpressions(AndChain(rem)) == rem
  {
    if |rem| > 1 {
      AndChainRoundTrip(rem[1..]);
      assert rem == [rem[0]] + rem[1..];
    }
  }

  /** The conjuncts kept, in order: `xs[k]` for each `k < |keep|` with `keep[k]`. */
  function Select(xs: seq<ValueExpr>, keep: seq<bool>): seq<ValueExpr>
    requires |keep| <= |xs|
  {
    if keep == [] then []
    else
      var n := |keep| - 1;
      Select(xs, keep[..n]) + (if keep[n] then [xs[n]] else [])
  }

  /** Selecting keeps some of the conjuncts and invents none. */
  lemma {:induction false} SelectedFrom(xs: seq<ValueExpr>, keep: seq<bool>)
    requires |keep| <= |xs|
    ensures forall y :: y in Select(xs, keep) ==> y in xs
  {
    if keep != [] {
      SelectedFrom(xs, keep[..|keep| - 1]);
    }
  }

  lemma SelectStep(xs: seq<ValueExpr>, keep: seq<bool>, b: bool)
    requires |keep| < |xs|
    ensures Select(xs, keep + [b]) == Select(xs, keep) + (if b then [xs[|keep|]] else [])
  {
    assert (keep + [b])[..|keep|] == keep;
  }

  /** A conjunct that must stay is kept, one more step on. */
  lemma KeptStep(must: seq<bool>, kept: seq<bool>, b: bool)
    requires |kept| < |must|
    requires must[|kept|] ==> b
    requires forall j :: 0 <= j < |kept| && must[j] ==> kept[j]
    ensures forall j :: 0 <= j < |kept + [b]| && must[j] ==> (kept + [b])[j]
  {
  }

  /** The end of `meet(Filter)`: no remaining conjunct removes the filter, one
      becomes the condition, several become a right-nested conjunction. The
      new condition flattens back to exactly the remaining conjuncts. */
  function Rebuild(rem: seq<ValueExpr>, arg: TupleExpr): (r: TupleExpr)
    requires forall y :: y in rem ==> !y.And?
    ensures rem == [] ==> r == arg
    ensures rem != [] ==> r.Filter? && r.arg == arg && ConjunctiveExpressions(r.cond) == rem
    ensures |rem| == 1 ==> r == Filter(rem[0], arg)
  {
    if rem == [] then arg
    else
      AndChainRoundTrip(rem);
      Filter(AndChain(rem), arg)
  }

  /** The condition with all leading negations removed. */
  function StripNot(e: ValueExpr): ValueExpr
  {
    if e.Not? then StripNot(e.arg) else e
  }

  /** `isCompatibleExpr`: conjunctions and disjunctions, also under negations,
      are not pushed; everything else is. */
  function IsCompatibleExpr(e: ValueExpr): bool
  {
    if e.And? || e.Or? then false
    else if e.Not? then IsCompatibleExpr(e.arg)
    else true
  }

  /** A conjunct can be pushed iff, under its negations, it is neither a
      conjunction nor a disjunction. */
  lemma {:induction false} IsCompatibleExprSpec(e: ValueExpr)
    ensures IsCompatibleExpr(e) <==> !StripNot(e).And? && !StripNot(e).Or?
  {
    if e.Not? {
      IsCompatibleExprSpec(e.arg);
    }
  }

  /** The decision of `handleCompare`: the binding an equality yields. */
  function EqualityBinding(cmp: ValueExpr): Option<Binding>
    requires cmp.Compare?
  {
    var l := cmp.cmpLeft;
    var rt := cmp.cmpRight;
    if l.VarExpr? && rt.VarExpr? then None
    else if l.VarExpr? && rt.ValueConstant? && IsResource(rt.value) then Some(Binding(l.v.name, rt.value))
    else if rt.VarExpr? && l.ValueConstant? && IsResource(l.value) then Some(Binding(rt.v.name, l.value))
    else None
  }

  /** An equality between a variable and a resource constant, on either side,
      binds that variable to the constant; an equality of two variables, or
      with a constant that is not a resource, binds nothing. */
  lemma EqualityBindingSpec(cmp: ValueExpr)
    requires cmp.Compare?
    ensures EqualityBinding(cmp).Some? <==>
      !(cmp.cmpLeft.VarExpr? && cmp.cmpRight.VarExpr?)
      && ((cmp.cmpLeft.VarExpr? && cmp.cmpRight.ValueConstant? && IsResource(cmp.cmpRight.value))
          || (cmp.cmpRight.VarExpr? && cmp.cmpLeft.ValueConstant? && IsResource(cmp.cmpLeft.value)))
    ensures EqualityBinding(cmp).Some? ==>
      var b := EqualityBinding(cmp).value;
      || (cmp.cmpLeft.VarExpr? && cmp.cmpLeft.v.name == b.name && cmp.cmpRight == ValueConstant(b.value))
      || (cmp.cmpRight.VarExpr? && cmp.cmpRight.v.name == b.name && cmp.cmpLeft == ValueConstant(b.value))
    ensures EqualityBinding(cmp).Some? ==> IsResource(EqualityBinding(cmp).value.value)
  {
  }

  // ---------------------------------------------------------------------------
  // What handleFilter does with one conjunct at one filter tuple
  // ---------------------------------------------------------------------------

  datatype Decision =
    /** No variable of the conjunct is free in the tuple. */
    | Irrelevant
    /** An equality with a resource constant: bind the variable in the tuple. */
    | BindValue(b: Binding)
    /** Every variable of the conjunct is free in the tuple: add it as a filter. */
    | PushFilter
    /** Some but not all variables are free: the filter must stay above. */
    | KeepForPostFilter

  /** `handleFilter`'s choice for a tuple with free variables `free`. */
  function Decide(free: set<string>, e: FilterExpr): Decision
  {
    if e.vars * free == {} then Irrelevant
    else if IsCompareEq(e) && EqualityBinding(e.expression).Some? then BindValue(EqualityBinding(e.expression).value)
    else if e.vars <= free then PushFilter
    else KeepForPostFilter
  }

  /** What each decision means: a conjunct sharing no variable with the tuple
      is ignored; one sharing some is bound when it is an equality with a
      resource, pushed when all its variables are free, and otherwise needed
      above the tuple. */
  lemma DecideSpec(free: set<string>, e: FilterExpr)
    ensures Decide(free, e).Irrelevant? <==> e.vars * free == {}
    ensures Decide(free, e).BindValue? <==>
              e.vars * free != {} && IsCompareEq(e) && EqualityBinding(e.expression).Some?
    ensures Decide(free, e).BindValue? ==> EqualityBinding(e.expression) == Some(Decide(free, e).b)
    ensures Decide(free, e).PushFilter? <==>
              e.vars * free != {} && e.vars <= free && !(IsCompareEq(e) && EqualityBinding(e.expression).Some?)
    ensures Decide(free, e).KeepForPostFilter? <==>
              e.vars * free != {} && !(e.vars <= free) && !(IsCompareEq(e) && EqualityBinding(e.expression).Some?)
  {
  }

  /** The counting loop of `handleFilter` finds the size of the overlap; the
      two tests on it decide "no overlap" and "all variables covered". */
  lemma IntersectionCount(vars: set<string>, free: set<string>)
    ensures |vars * free| == 0 <==> vars * free == {}
    ensures |vars * free| == |vars| <==> vars <= free
  {
    if vars <= free {
      assert vars * free == vars;
    } else {
      var x :| x in vars && x !in free;
      assert vars * free <= vars - {x};
      SubsetCard(vars * free, vars - {x});
      assert |vars - {x}| == |vars| - 1;
    }
  }

  lemma SubsetCard<T>(a: set<T>, b: set<T>)
    requires a <= b
    ensures |a| <= |b|
  {
    if a != {} {
      var x :| x in a;
      SubsetCard(a - {x}, b - {x});
    }
  }

  /** Moving one variable from the unvisited ones to the visited ones adds
      one to the count iff it is free. */
  lemma CountStep(vars: set<string>, free: set<string>, rest: set<string>, v: string)
    requires v in rest && rest <= vars
    ensures |(vars - (rest - {v})) * free| == |(vars - rest) * free| + (if v in free then 1 else 0)
  {
    var before := (vars - rest) * free;
    assert v !in before;
    if v in free {
      assert (vars - (rest - {v})) * free == before + {v};
    } else {
      assert (vars - (rest - {v})) * free == before;
    }
  }

  /** The counting loop of `handleFilter`: how many of the conjunct's
      variables are free in the tuple. */
  method CountIntersected(vars: set<string>, free: set<string>) returns (n: nat)
    ensures n == |vars * free|
  {
    n := 0;
    var rest := vars;
    while rest != {}
      invariant rest <= vars
      invariant n == |(vars - rest) * free|
      decreases |rest|
    {
      var v :| v in rest;
      CountStep(vars, free, rest, v);
      if v in free {
        n := n + 1;
      }
      rest := rest - {v};
    }
  }

  /** The parts of a statement that handling a filter can change. */
  datatype PatternState = PatternState(subj: Var, pred: Var, obj: Var, freeVars: seq<string>,
                                       filter: Option<FilterValueExpr>)

  function StateOf(st: FedXStatementPattern): PatternState
    reads st`subj, st`pred, st`obj, st`freeVars, st`filter
  {
    PatternState(st.subj, st.pred, st.obj, st.freeVars, st.filter)
  }

  predicate ValidState(s: PatternState)
  {
    s.freeVars == UnboundNames(s.subj, s.pred, s.obj) && s.filter != Some(OtherFilterValue)
  }

  /** The statement after a decision has been carried out on it. */
  function Apply(d: Decision, e: FilterExpr, s: PatternState): (r: PatternState)
    requires ValidState(s)
    ensures ValidState(r)
    ensures d.BindValue? ==> d.b.name !in r.freeVars && r.filter == s.filter
    ensures d.PushFilter? ==> Conjuncts(r.filter) == Conjuncts(s.filter) + [e] && r.freeVars == s.freeVars
    ensures d.Irrelevant? || d.KeepForPostFilter? ==> r == s
  {
    match d
    case BindValue(b) =>
      UnboundNamesAfterBind(s.subj, s.pred, s.obj, b.name, b.value);
      s.(subj := BindVar(s.subj, b.name, b.value), pred := BindVar(s.pred, b.name, b.value),
         obj := BindVar(s.obj, b.name, b.value), freeVars := RemoveAll(s.freeVars, b.name))
    case PushFilter => s.(filter := Some(AddConjunct(s.filter, e).value))
    case _ => s
  }

  // ---------------------------------------------------------------------------
  // The filter tuples a visit of the filter argument reaches
  // ---------------------------------------------------------------------------

  /** FedX's `FilterTuple`: a node that can take a filter over, either a
      FedX statement or an exclusive group. */
  datatype FilterTuple = FilterStmt(st: FedXStatementPattern) | FilterGroup(g: ExclusiveGroup)

  /** The filter tuples (FedX statements and exclusive groups) the insert
      visitor meets, in visit order: it descends through every other node,
      SERVICE included, but not into a filter tuple. */
  function ReachedTuples(t: TupleExpr): seq<FilterTuple>
    decreases t, 1
  {
    match t
    case Stmt(st) => [FilterStmt(st)]
    case Group(g) => [FilterGroup(g)]
    case Filter(_, a) => ReachedTuples(a)
    case Projection(_, a) => ReachedTuples(a)
    case ProjectionWithBindings(_, a, _) => ReachedTuples(a)
    case Slice(_, a) => ReachedTuples(a)
    case Join(l, r) => ReachedTuples(l) + ReachedTuples(r)
    case NJoin(args) => ReachedAll(args)
    case Union(l, r) => ReachedTuples(l) + ReachedTuples(r)
    case NUnion(args) => ReachedAll(args)
    case LeftJoin(l, r, _) => ReachedTuples(l) + ReachedTuples(r)
    case Service(_, b) => ReachedTuples(b)
    case OtherNode(_, _, cs) => ReachedAll(cs)
    case _ => []
  }

  function ReachedAll(ts: seq<TupleExpr>): seq<FilterTuple>
    decreases ts, 0
  {
    if ts == [] then [] else ReachedTuples(ts[0]) + ReachedAll(ts[1..])
  }

  /** The statement objects among some tuples. */
  function StmtObjs(ts: seq<FilterTuple>): set<FedXStatementPattern>
  {
    set k | 0 <= k < |ts| && ts[k].FilterStmt? :: ts[k].st
  }

  /** The group objects among some tuples. */
  function GroupObjs(ts: seq<FilterTuple>): set<ExclusiveGroup>
  {
    set k | 0 <= k < |ts| && ts[k].FilterGroup? :: ts[k].g
  }

  ghost predicate AllValid(ts: seq<FilterTuple>)
    reads StmtObjs(ts)`subj, StmtObjs(ts)`pred, StmtObjs(ts)`obj, StmtObjs(ts)`sources, StmtObjs(ts)`freeVars, StmtObjs(ts)`filter
  {
    forall k :: 0 <= k < |ts| && ts[k].FilterStmt? ==> ts[k].st.Valid()
  }

  /** The free variables of each tuple, as `getFreeVars().contains` sees them. */
  function FreeSets(ts: seq<FilterTuple>): (r: seq<set<string>>)
    reads StmtObjs(ts), GroupObjs(ts)
    ensures |r| == |ts|
    ensures forall k :: 0 <= k < |ts| && ts[k].FilterStmt? ==> r[k] == Elems(ts[k].st.freeVars)
    ensures forall k :: 0 <= k < |ts| && ts[k].FilterGroup? ==> r[k] == ts[k].g.freeVars
  {
    seq(|ts|, k requires 0 <= k < |ts| reads StmtObjs(ts), GroupObjs(ts) =>
      if ts[k].FilterStmt? then Elems(ts[k].st.freeVars) else ts[k].g.freeVars)
  }

  /** The state of every statement among some tuples (a placeholder for groups). */
  ghost function Snapshot(ts: seq<FilterTuple>): (r: seq<PatternState>)
    reads StmtObjs(ts)
    ensures |r| == |ts|
    ensures forall k :: 0 <= k < |ts| && ts[k].FilterStmt? ==> r[k] == StateOf(ts[k].st)
  {
    seq(|ts|, k requires 0 <= k < |ts| reads StmtObjs(ts) =>
      if ts[k].FilterStmt? then StateOf(ts[k].st) else PatternState(Var("", None), Var("", None), Var("", None), [], None))
  }

  /** A tuple took the conjunct over: it was bound or pushed there. */
  predicate Handles(d: Decision)
  {
    d.BindValue? || d.PushFilter?
  }

  /** The binding a decision records in `insertedValues`. */
  function Recorded(d: Decision): seq<Binding>
  {
    if d.BindValue? then [d.b] else []
  }

  // ---------------------------------------------------------------------------
  // What the visit of the tuples from the i-th on decides, given each tuple's
  // free variables `frees` before the visit
  // ---------------------------------------------------------------------------

  /** An exclusive group from the `i`-th tuple on would have to take the conjunct over. */
  predicate GroupRefuses(ts: seq<FilterTuple>, frees: seq<set<string>>, e: FilterExpr, i: nat)
    requires i <= |ts| == |frees|
    decreases |ts| - i
  {
    i < |ts| && ((ts[i].FilterGroup? && Handles(Decide(frees[i], e))) || GroupRefuses(ts, frees, e, i + 1))
  }

  /** No tuple from the `i`-th on needs the conjunct for post-filtering. */
  predicate NoneKeeps(frees: seq<set<string>>, e: FilterExpr, i: nat)
    requires i <= |frees|
    decreases |frees| - i
  {
    i == |frees| || (!Decide(frees[i], e).KeepForPostFilter? && NoneKeeps(frees, e, i + 1))
  }

  /** Some tuple from the `i`-th on takes the conjunct over. */
  predicate AnyHandles(frees: seq<set<string>>, e: FilterExpr, i: nat)
    requires i <= |frees|
    decreases |frees| - i
  {
    i < |frees| && (Handles(Decide(frees[i], e)) || AnyHandles(frees, e, i + 1))
  }

  /** The bindings recorded by the tuples from the `i`-th on, in visit order. */
  function BindingsFrom(frees: seq<set<string>>, e: FilterExpr, i: nat): seq<Binding>
    requires i <= |frees|
    decreases |frees| - i
  {
    if i == |frees| then [] else Recorded(Decide(frees[i], e)) + BindingsFrom(frees, e, i + 1)
  }

  lemma {:induction false} GroupRefusesSpec(ts: seq<FilterTuple>, frees: seq<set<string>>, e: FilterExpr, i: nat)
    requires i <= |ts| == |frees|
    ensures GroupRefuses(ts, frees, e, i) <==>
              exists k :: i <= k < |ts| && ts[k].FilterGroup? && Handles(Decide(frees[k], e))
    decreases |ts| - i
  {
    if i < |ts| {
      GroupRefusesSpec(ts, frees, e, i + 1);
      if GroupRefuses(ts, frees, e, i + 1) {
        var k :| i + 1 <= k < |ts| && ts[k].FilterGroup? && Handles(Decide(frees[k], e));
        assert i <= k;
      }
      if exists k :: i <= k < |ts| && ts[k].FilterGroup? && Handles(Decide(frees[k], e)) {
        var k :| i <= k < |ts| && ts[k].FilterGroup? && Handles(Decide(frees[k], e));
        if k > i {
          assert GroupRefuses(ts, frees, e, i + 1);
        }
      }
    }
  }

  lemma {:induction false} NoneKeepsSpec(frees: seq<set<string>>, e: FilterExpr, i: nat)
    requires i <= |frees|
    ensures NoneKeeps(frees, e, i) <==> forall k :: i <= k < |frees| ==> !Decide(frees[k], e).KeepForPostFilter?
    decreases |frees| - i
  {
    if i < |frees| {
      NoneKeepsSpec(frees, e, i + 1);
    }
  }

  lemma {:induction false} AnyHandlesSpec(frees: seq<set<string>>, e: FilterExpr, i: nat)
    requires i <= |frees|
    ensures AnyHandles(frees, e, i) <==> exists k :: i <= k < |frees| && Handles(Decide(frees[k], e))
    decreases |frees| - i
  {
    if i < |frees| {
      AnyHandlesSpec(frees, e, i + 1);
      if exists k :: i <= k < |frees| && Handles(Decide(frees[k], e)) {
        var k :| i <= k < |frees| && Handles(Decide(frees[k], e));
        if k > i {
          assert AnyHandles(frees, e, i + 1);
        }
      }
    }
  }

  /** The recorded bindings are exactly those of the tuples that bind the
      conjunct's variable. */
  lemma {:induction false} BindingsFromSpec(frees: seq<set<string>>, e: FilterExpr, i: nat, b: Binding)
    requires i <= |frees|
    ensures b in BindingsFrom(frees, e, i) <==> exists k :: i <= k < |frees| && Decide(frees[k], e) == BindValue(b)
    decreases |frees| - i
  {
    if i < |frees| {
      BindingsFromSpec(frees, e, i + 1, b);
      if exists k :: i <= k < |frees| && Decide(frees[k], e) == BindValue(b) {
        var k :| i <= k < |frees| && Decide(frees[k], e) == BindValue(b);
        if k > i {
          assert b in BindingsFrom(frees, e, i + 1);
        }
      }
    }
  }

  /** The visitor's flags and the optimizer's inserted bindings. */
  datatype Flags = Flags(canRemove: bool, handled: bool, inserted: seq<Binding>)

  /** The flags after one tuple has carried out its decision. */
  function Take(f: Flags, d: Decision): Flags
  {
    Flags(f.canRemove && !d.KeepForPostFilter?, f.handled || Handles(d), f.inserted + Recorded(d))
  }

  /** The flags after the tuples from the `i`-th on have carried out their decisions. */
  function TakeFrom(f: Flags, frees: seq<set<string>>, e: FilterExpr, i: nat): Flags
    requires i <= |frees|
    decreases |frees| - i
  {
    if i == |frees| then f else TakeFrom(Take(f, Decide(frees[i], e)), frees, e, i + 1)
  }

  /** `canRemove` survives iff no tuple keeps the conjunct, `handled` is set iff
      some tuple takes it over, and the bindings are appended in visit order. */
  lemma {:induction false} TakeFromSpec(f: Flags, frees: seq<set<string>>, e: FilterExpr, i: nat)
    requires i <= |frees|
    ensures TakeFrom(f, frees, e, i)
         == Flags(f.canRemove && NoneKeeps(frees, e, i), f.handled || AnyHandles(frees, e, i),
                  f.inserted + BindingsFrom(frees, e, i))
    decreases |frees| - i
  {
    if i < |frees| {
      TakeFromSpec(Take(f, Decide(frees[i], e)), frees, e, i + 1);
    }
  }

  /** As written, a conjunct is dropped from the FILTER when no tuple needs it
      for post-filtering, even if no tuple took it over. */
  predicate RemovableAsWritten(frees: seq<set<string>>, e: FilterExpr)
  {
    NoneKeeps(frees, e, 0)
  }

  /** Corrected: a conjunct is dropped only when some tuple took it over and
      none needs it for post-filtering. */
  predicate Removable(frees: seq<set<string>>, e: FilterExpr)
  {
    NoneKeeps(frees, e, 0) && AnyHandles(frees, e, 0)
  }

  /** `SELECT * WHERE { ?s ?p ?o FILTER(?z = <x>) }`: `?z` is free in no
      statement, so the statement finds the conjunct irrelevant. As written
      the conjunct is removed and every triple is returned, although `?z` is
      unbound in every row and the comparison admits none; the corrected rule
      keeps the filter. */
  lemma UnmatchedFilterDroppedAsWritten()
    ensures var cond := Compare(VarExpr(Var("z", None)), EQ, ValueConstant(Iri("x")));
            var e := FilterExpr(cond, FindVars(cond));
            RemovableAsWritten([{"s", "p", "o"}], e) && !Removable([{"s", "p", "o"}], e)
  {
    var cond := Compare(VarExpr(Var("z", None)), EQ, ValueConstant(Iri("x")));
    assert FindVars(cond) == {"z"} by {
      assert FindVars(VarExpr(Var("z", None))) == {"z"};
    }
    assert {"z"} * {"s", "p", "o"} == {};
    var e := FilterExpr(cond, FindVars(cond));
    assert Decide({"s", "p", "o"}, e) == Irrelevant;
    assert NoneKeeps([{"s", "p", "o"}], e, 1);
    assert !AnyHandles([{"s", "p", "o"}], e, 1);
  }

  // ---------------------------------------------------------------------------
  // The statements from the i-th tuple on
  // ---------------------------------------------------------------------------

  /** The statement objects from the `i`-th tuple on. */
  function StmtsFrom(ts: seq<FilterTuple>, i: nat): set<FedXStatementPattern>
    requires i <= |ts|
    decreases |ts| - i
  {
    if i == |ts| then {} else (if ts[i].FilterStmt? then {ts[i].st} else {}) + StmtsFrom(ts, i + 1)
  }

  lemma {:induction false} StmtsFromMember(ts: seq<FilterTuple>, i: nat, o: FedXStatementPattern)
    requires i <= |ts|
    ensures o in StmtsFrom(ts, i) <==> exists k :: i <= k < |ts| && ts[k] == FilterStmt(o)
    decreases |ts| - i
  {
    if i < |ts| {
      StmtsFromMember(ts, i + 1, o);
      if exists k :: i <= k < |ts| && ts[k] == FilterStmt(o) {
        var k :| i <= k < |ts| && ts[k] == FilterStmt(o);
        if k > i {
          assert o in StmtsFrom(ts, i + 1);
        }
      }
    }
  }

  /** A statement met once is not met again later in the visit. */
  lemma NotLater(ts: seq<FilterTuple>, i: nat)
    requires i < |ts| && Distinct(ts) && ts[i].FilterStmt?
    ensures ts[i].st !in StmtsFrom(ts, i + 1)
  {
    StmtsFromMember(ts, i + 1, ts[i].st);
  }

  lemma StmtsFromAll(ts: seq<FilterTuple>)
    ensures StmtsFrom(ts, 0) <= StmtObjs(ts)
  {
    forall o | o in StmtsFrom(ts, 0) ensures o in StmtObjs(ts) {
      StmtsFromMember(ts, 0, o);
      var k :| 0 <= k < |ts| && ts[k] == FilterStmt(o);
    }
  }

  /** Every statement from the `i`-th tuple on is valid. */
  ghost predicate ValidFrom(ts: seq<FilterTuple>, i: nat)
    requires i <= |ts|
    reads StmtsFrom(ts, i)`subj, StmtsFrom(ts, i)`pred, StmtsFrom(ts, i)`obj, StmtsFrom(ts, i)`sources,
          StmtsFrom(ts, i)`freeVars, StmtsFrom(ts, i)`filter
    decreases |ts| - i
  {
    i == |ts| || ((ts[i].FilterStmt? ==> ts[i].st.Valid()) && ValidFrom(ts, i + 1))
  }

  lemma {:induction false} ValidFromAll(ts: seq<FilterTuple>, i: nat)
    requires i <= |ts|
    ensures ValidFrom(ts, i) <==> forall k :: i <= k < |ts| && ts[k].FilterStmt? ==> ts[k].st.Valid()
    decreases |ts| - i
  {
    if i < |ts| {
      ValidFromAll(ts, i + 1);
    }
  }

  /** Before the visit of the tuples from the `i`-th on: each statement is
      still in its state `pre`, and `frees` are the free variables of each
      tuple. */
  ghost predicate Unvisited(ts: seq<FilterTuple>, frees: seq<set<string>>, pre: seq<PatternState>, i: nat)
    requires i <= |ts| == |frees| == |pre|
    reads StmtsFrom(ts, i)`subj, StmtsFrom(ts, i)`pred, StmtsFrom(ts, i)`obj, StmtsFrom(ts, i)`freeVars,
          StmtsFrom(ts, i)`filter, GroupObjs(ts)`freeVars
    decreases |ts| - i
  {
    i == |ts| ||
    (&& (ts[i].FilterStmt? ==> StateOf(ts[i].st) == pre[i] && frees[i] == Elems(pre[i].freeVars))
     && (ts[i].FilterGroup? ==> frees[i] == ts[i].g.freeVars)
     && Unvisited(ts, frees, pre, i + 1))
  }

  lemma {:induction false} UnvisitedAll(ts: seq<FilterTuple>, frees: seq<set<string>>, pre: seq<PatternState>, i: nat)
    requires i <= |ts| == |frees| == |pre|
    requires forall k :: i <= k < |ts| && ts[k].FilterStmt? ==> StateOf(ts[k].st) == pre[k] && frees[k] == Elems(pre[k].freeVars)
    requires forall k :: i <= k < |ts| && ts[k].FilterGroup? ==> frees[k] == ts[k].g.freeVars
    ensures Unvisited(ts, frees, pre, i)
    decreases |ts| - i
  {
    if i < |ts| {
      UnvisitedAll(ts, frees, pre, i + 1);
    }
  }

  /** A statement after `handleFilter`: it carries out its decision on the
      free variables it had. */
  function Handled(s: PatternState, e: FilterExpr): PatternState
  {
    if ValidState(s) then Apply(Decide(Elems(s.freeVars), e), e, s) else s
  }

  /** After the visit of the tuples from the `i`-th on: each statement is in
      the state handling the conjunct leads to from `pre`. */
  ghost predicate Visited(ts: seq<FilterTuple>, pre: seq<PatternState>, e: FilterExpr, i: nat)
    requires i <= |ts| == |pre|
    reads StmtsFrom(ts, i)`subj, StmtsFrom(ts, i)`pred, StmtsFrom(ts, i)`obj, StmtsFrom(ts, i)`freeVars,
          StmtsFrom(ts, i)`filter
    decreases |ts| - i
  {
    i == |ts| || ((ts[i].FilterStmt? ==> StateOf(ts[i].st) == Handled(pre[i], e)) && Visited(ts, pre, e, i + 1))
  }

  lemma {:induction false} VisitedAll(ts: seq<FilterTuple>, pre: seq<PatternState>, e: FilterExpr, i: nat)
    requires i <= |ts| == |pre|
    requires Visited(ts, pre, e, i)
    ensures forall k :: i <= k < |ts| && ts[k].FilterStmt? ==> StateOf(ts[k].st) == Handled(pre[k], e)
    decreases |ts| - i
  {
    if i < |ts| {
      VisitedAll(ts, pre, e, i + 1);
    }
  }

  /** Splitting the reached tuples of two subtrees: distinct tuples stay
      distinct, the two subtrees share no statement object, and validity and
      frames split accordingly. */
  lemma ConcatTuples(x: seq<FilterTuple>, y: seq<FilterTuple>)
    ensures StmtObjs(x + y) == StmtObjs(x) + StmtObjs(y)
    ensures AllValid(x + y) <==> AllValid(x) && AllValid(y)
    ensures Distinct(x + y) ==> Distinct(x) && Distinct(y) && StmtObjs(x) !! StmtObjs(y)
  {
    forall k | 0 <= k < |x| ensures (x + y)[k] == x[k] { }
    forall k | 0 <= k < |y| ensures (x + y)[|x| + k] == y[k] { }
    if Distinct(x + y) {
      forall i, j | 0 <= i < j < |y| ensures y[i] != y[j] {
        assert (x + y)[|x| + i] != (x + y)[|x| + j];
      }
      forall o | o in StmtObjs(x) ensures o !in StmtObjs(y) {
        var i :| 0 <= i < |x| && x[i].FilterStmt? && x[i].st == o;
        forall j | 0 <= j < |y| && y[j].FilterStmt? ensures y[j].st != o {
          assert (x + y)[i] != (x + y)[|x| + j];
        }
      }
    }
    assert StmtObjs(x + y) <= StmtObjs(x) + StmtObjs(y) by {
      forall o | o in StmtObjs(x + y) ensures o in StmtObjs(x) + StmtObjs(y) {
        var k :| 0 <= k < |x + y| && (x + y)[k].FilterStmt? && (x + y)[k].st == o;
        if k >= |x| {
          assert y[k - |x|] == (x + y)[k];
        }
      }
    }
  }

  // ---------------------------------------------------------------------------
  // The loop of meet(Filter) over all conjuncts
  // ---------------------------------------------------------------------------

  /** The `FilterExpr` built for a conjunct: the conjunct and its variables. */
  function ConjunctExpr(c: ValueExpr): FilterExpr
  {
    FilterExpr(c, FindVars(c))
  }

  /** What the loop of `meet(Filter)` has done so far: the free variables of
      each reached tuple, the state of each reached statement, and the
      bindings inserted by this filter. */
  datatype LoopState = LoopState(frees: seq<set<string>>, states: seq<PatternState>, inserted: seq<Binding>)

  /** One conjunct of the loop: an incompatible one changes nothing; a
      compatible one is handled by every reached statement, which changes its
      state and free variables, while a group's free variables stay. */
  function LoopStep(ts: seq<FilterTuple>, c: ValueExpr, s: LoopState): (r: LoopState)
    requires |s.frees| == |s.states| == |ts|
    ensures |r.frees| == |r.states| == |ts|
  {
    if !IsCompatibleExpr(c) then s
    else
      var e := ConjunctExpr(c);
      LoopState(seq(|ts|, k requires 0 <= k < |ts| =>
                      if ts[k].FilterStmt? then Elems(Handled(s.states[k], e).freeVars) else s.frees[k]),
                seq(|ts|, k requires 0 <= k < |ts| =>
                      if ts[k].FilterStmt? then Handled(s.states[k], e) else s.states[k]),
                s.inserted + BindingsFrom(s.frees, e, 0))
  }

  /** The loop state after the first `n` conjuncts. */
  function MeetLoop(ts: seq<FilterTuple>, conj: seq<ValueExpr>, s: LoopState, n: nat): (r: LoopState)
    requires n <= |conj| && |s.frees| == |s.states| == |ts|
    ensures |r.frees| == |r.states| == |ts|
  {
    if n == 0 then s else LoopStep(ts, conj[n - 1], MeetLoop(ts, conj, s, n - 1))
  }

  /** Conjunct `i` stays in the FILTER: it is not pushable, or (corrected
      rule) the tuples, as the earlier conjuncts left them, did not take it
      over or still need it. */
  predicate KeptAt(ts: seq<FilterTuple>, conj: seq<ValueExpr>, s: LoopState, i: nat)
    requires i < |conj| && |s.frees| == |s.states| == |ts|
  {
    !IsCompatibleExpr(conj[i]) || !Removable(MeetLoop(ts, conj, s, i).frees, ConjunctExpr(conj[i]))
  }

  /** Conjunct `i` reaches an exclusive group that would have to take it over. */
  predicate RefusedAt(ts: seq<FilterTuple>, conj: seq<ValueExpr>, s: LoopState, i: nat)
    requires i < |conj| && |s.frees| == |s.states| == |ts|
  {
    IsCompatibleExpr(conj[i]) && GroupRefuses(ts, MeetLoop(ts, conj, s, i).frees, ConjunctExpr(conj[i]), 0)
  }

  /** The loop state before the first conjunct. */
  ghost function Start(ts: seq<FilterTuple>): (r: LoopState)
    reads StmtObjs(ts), GroupObjs(ts)
    ensures |r.frees| == |r.states| == |ts|
  {
    LoopState(FreeSets(ts), Snapshot(ts), [])
  }

  /** Without a reached tuple, no conjunct is taken over and every conjunct stays. */
  lemma KeptWithoutTuples(ts: seq<FilterTuple>, conj: seq<ValueExpr>, s: LoopState)
    requires |s.frees| == |s.states| == |ts| == 0
    ensures forall i :: 0 <= i < |conj| ==> KeptAt(ts, conj, s, i)
  {
    forall i | 0 <= i < |conj| ensures KeptAt(ts, conj, s, i) {
      assert !AnyHandles(MeetLoop(ts, conj, s, i).frees, ConjunctExpr(conj[i]), 0);
    }
  }

  lemma KeptAtStep(ts: seq<FilterTuple>, conj: seq<ValueExpr>, s: LoopState, kept: seq<bool>, b: bool)
    requires |kept| < |conj| && |s.frees| == |s.states| == |ts|
    requires forall j :: 0 <= j < |kept| ==> kept[j] == KeptAt(ts, conj, s, j)
    requires b == KeptAt(ts, conj, s, |kept|)
    ensures forall j :: 0 <= j < |kept| + 1 ==> (kept + [b])[j] == KeptAt(ts, conj, s, j)
  {
  }

  lemma NotRefusedStep(ts: seq<FilterTuple>, conj: seq<ValueExpr>, s: LoopState, i: nat)
    requires i < |conj| && |s.frees| == |s.states| == |ts|
    requires forall j :: 0 <= j < i ==> !RefusedAt(ts, conj, s, j)
    requires !RefusedAt(ts, conj, s, i)
    ensures forall j :: 0 <= j < i + 1 ==> !RefusedAt(ts, conj, s, j)
  {
  }

  /** One more conjunct of the loop, with the bindings inserted before the
      loop in front. */
  lemma LoopAdvance(ts: seq<FilterTuple>, conj: seq<ValueExpr>, s: LoopState, i: nat,
                    prior: seq<Binding>, before: seq<Binding>, now: LoopState)
    requires i < |conj| && |s.frees| == |s.states| == |ts|
    requires before == prior + MeetLoop(ts, conj, s, i).inserted
    requires now == LoopStep(ts, conj[i], MeetLoop(ts, conj, s, i).(inserted := before))
    ensures now.frees == MeetLoop(ts, conj, s, i + 1).frees
    ensures now.states == MeetLoop(ts, conj, s, i + 1).states
    ensures now.inserted == prior + MeetLoop(ts, conj, s, i + 1).inserted
  {
    var cur := MeetLoop(ts, conj, s, i);
    assert MeetLoop(ts, conj, s, i + 1) == LoopStep(ts, conj[i], cur);
    if IsCompatibleExpr(conj[i]) {
      var b := BindingsFrom(cur.frees, ConjunctExpr(conj[i]), 0);
      assert now.inserted == (prior + cur.inserted) + b;
    }
  }

  /** The tuples after a visit: each statement in the state handling gives,
      each group with its free variables, are the next loop state. */
  lemma StepAfterVisit(ts: seq<FilterTuple>, c: ValueExpr, s: LoopState, now: LoopState)
    requires |s.frees| == |s.states| == |now.frees| == |now.states| == |ts|
    requires IsCompatibleExpr(c)
    requires forall k :: 0 <= k < |ts| && ts[k].FilterStmt? ==>
               now.states[k] == Handled(s.states[k], ConjunctExpr(c)) && now.frees[k] == Elems(now.states[k].freeVars)
    requires forall k :: 0 <= k < |ts| && ts[k].FilterGroup? ==> now.states[k] == s.states[k] && now.frees[k] == s.frees[k]
    requires now.inserted == s.inserted + BindingsFrom(s.frees, ConjunctExpr(c), 0)
    ensures now == LoopStep(ts, c, s)
  {
  }

  /** The bindings the loop inserts are those inserted before it and those
      some pushable conjunct records at the tuples as the earlier conjuncts
      left them. */
  lemma {:induction false} MeetLoopInserted(ts: seq<FilterTuple>, conj: seq<ValueExpr>, s: LoopState, n: nat, b: Binding)
    requires n <= |conj| && |s.frees| == |s.states| == |ts|
    ensures b in MeetLoop(ts, conj, s, n).inserted <==>
              b in s.inserted ||
              exists i :: 0 <= i < n && IsCompatibleExpr(conj[i]) &&
                b in BindingsFrom(MeetLoop(ts, conj, s, i).frees, ConjunctExpr(conj[i]), 0)
  {
    if n > 0 {
      MeetLoopInserted(ts, conj, s, n - 1, b);
      var p := MeetLoop(ts, conj, s, n - 1);
      if b in MeetLoop(ts, conj, s, n).inserted && b !in p.inserted {
        assert IsCompatibleExpr(conj[n - 1]) && b in BindingsFrom(p.frees, ConjunctExpr(conj[n - 1]), 0);
      }
      if exists i :: 0 <= i < n && IsCompatibleExpr(conj[i]) &&
                b in BindingsFrom(MeetLoop(ts, conj, s, i).frees, ConjunctExpr(conj[i]), 0) {
        var i :| 0 <= i < n && IsCompatibleExpr(conj[i]) &&
                b in BindingsFrom(MeetLoop(ts, conj, s, i).frees, ConjunctExpr(conj[i]), 0);
        if i < n - 1 {
          assert b in p.inserted;
        }
      }
    }
  }

  /** The loop only ever removes free variables: a statement's free variables
      after `n` conjuncts are among those it had, and a group's do not change. */
  lemma {:induction false} MeetLoopFreesShrink(ts: seq<FilterTuple>, conj: seq<ValueExpr>, s: LoopState, n: nat)
    requires n <= |conj| && |s.frees| == |s.states| == |ts|
    requires forall k :: 0 <= k < |ts| && ts[k].FilterStmt? ==> s.frees[k] == Elems(s.states[k].freeVars)
    ensures forall k :: 0 <= k < |ts| ==> MeetLoop(ts, conj, s, n).frees[k] <= s.frees[k]
    ensures forall k :: 0 <= k < |ts| && ts[k].FilterStmt? ==>
              MeetLoop(ts, conj, s, n).frees[k] == Elems(MeetLoop(ts, conj, s, n).states[k].freeVars)
    ensures forall k :: 0 <= k < |ts| && ts[k].FilterGroup? ==> MeetLoop(ts, conj, s, n).frees[k] == s.frees[k]
  {
    if n > 0 {
      MeetLoopFreesShrink(ts, conj, s, n - 1);
      var p := MeetLoop(ts, conj, s, n - 1);
      if IsCompatibleExpr(conj[n - 1]) {
        var e := ConjunctExpr(conj[n - 1]);
        forall k | 0 <= k < |ts| && ts[k].FilterStmt?
          ensures Elems(Handled(p.states[k], e).freeVars) <= Elems(p.states[k].freeVars)
        {
          var st := p.states[k];
          if ValidState(st) {
            var d := Decide(Elems(st.freeVars), e);
            if d.BindValue? {
              assert Handled(st, e).freeVars == RemoveAll(st.freeVars, d.b.name);
            }
          }
        }
      }
    }
  }

  // ---------------------------------------------------------------------------
  // The optimizer and its insert visitor
  // ---------------------------------------------------------------------------

  class FilterOptimizer {
    /** Every binding inserted from an equality filter, over the whole run. */
    var insertedValues: seq<Binding>

    constructor()
      ensures insertedValues == []
    {
      insertedValues := [];
    }

    /** The reached tuples and the inserted bindings are as the loop of
        `meet(Filter)` leaves them after `i` conjuncts. */
    ghost predicate LoopAt(tuples: seq<FilterTuple>, conj: seq<ValueExpr>, s: LoopState, i: nat, prior: seq<Binding>)
      requires i <= |conj| && |s.frees| == |s.states| == |tuples|
      reads this`insertedValues, StmtObjs(tuples), GroupObjs(tuples)
    {
      var cur := MeetLoop(tuples, conj, s, i);
      FreeSets(tuples) == cur.frees && Snapshot(tuples) == cur.states && insertedValues == prior + cur.inserted
    }

    /** `meet(Filter)`: push or bind what can be pushed or bound in the
        statements below, keep the rest as the filter's condition, and drop
        the filter when nothing is left. A filter over `EmptyResult` is
        replaced by its argument. */
    method MeetFilter(cond: ValueExpr, arg: TupleExpr) returns (r: Result<TupleExpr>, ghost kept: seq<bool>)
      requires Distinct(ReachedTuples(arg)) && AllValid(ReachedTuples(arg))
      modifies this`insertedValues, StmtObjs(ReachedTuples(arg))
      ensures AllValid(ReachedTuples(arg))
      ensures arg.EmptyResult? ==> r == Ok(arg) && insertedValues == old(insertedValues)
      ensures r.Err? ==> r.error.cls == UnsupportedOperationException
      ensures !arg.EmptyResult? ==>
        var conj := ConjunctiveExpressions(cond);
        var ts := ReachedTuples(arg);
        && (r.Err? <==> exists i :: 0 <= i < |conj| && RefusedAt(ts, conj, old(Start(ts)), i))
        && (r.Ok? ==>
              && |kept| == |conj|
              && (forall i :: 0 <= i < |conj| ==> kept[i] == KeptAt(ts, conj, old(Start(ts)), i))
              && (forall i :: 0 <= i < |conj| && !IsCompatibleExpr(conj[i]) ==> kept[i])
              && (|ts| == 0 ==> forall i :: 0 <= i < |conj| ==> kept[i])
              && (forall y :: y in Select(conj, kept) ==> !y.And?)
              && r.value == Rebuild(Select(conj, kept), arg)
              && var end := MeetLoop(ts, conj, old(Start(ts)), |conj|);
                 insertedValues == old(insertedValues) + end.inserted
                 && Snapshot(ts) == end.states && FreeSets(ts) == end.frees)
    {
      kept := [];
      if arg.EmptyResult? {
        return Ok(arg), kept;
      }
      var conj := ConjunctiveExpressions(cond);
      ghost var s0 := Start(ReachedTuples(arg));
      var remaining;
      remaining, kept := RemainingConjuncts(conj, ReachedTuples(arg));
      if remaining.Err? {
        ghost var i :| 0 <= i < |conj| && RefusedAt(ReachedTuples(arg), conj, s0, i);
        assert RefusedAt(ReachedTuples(arg), ConjunctiveExpressions(cond), old(Start(ReachedTuples(arg))), i);
        assert exists j :: 0 <= j < |conj| && RefusedAt(ReachedTuples(arg), conj, old(Start(ReachedTuples(arg))), j);
        return Err(remaining.error), kept;
      }
      if |ReachedTuples(arg)| == 0 {
        KeptWithoutTuples(ReachedTuples(arg), conj, old(Start(ReachedTuples(arg))));
      }
      r := Ok(Rebuild(remaining.value, arg));
    }

    /** The loop of `meet(Filter)`: each conjunct in turn is carried to the
        tuples (which the earlier conjuncts may have changed), and the
        conjuncts that stay in the filter are returned in their order. */
    method RemainingConjuncts(conj: seq<ValueExpr>, tuples: seq<FilterTuple>)
      returns (r: Result<seq<ValueExpr>>, ghost kept: seq<bool>)
      requires forall y :: y in conj ==> !y.And?
      requires Distinct(tuples) && AllValid(tuples)
      modifies this`insertedValues, StmtObjs(tuples)
      ensures AllValid(tuples)
      ensures r.Err? ==> r.error.cls == UnsupportedOperationException
      ensures r.Err? <==> exists i :: 0 <= i < |conj| && RefusedAt(tuples, conj, old(Start(tuples)), i)
      ensures r.Ok? ==> |kept| == |conj| && r.value == Select(conj, kept)
      ensures r.Ok? ==> forall i :: 0 <= i < |conj| ==> kept[i] == KeptAt(tuples, conj, old(Start(tuples)), i)
      ensures r.Ok? ==>
        var end := MeetLoop(tuples, conj, old(Start(tuples)), |conj|);
        insertedValues == old(insertedValues) + end.inserted && Snapshot(tuples) == end.states && FreeSets(tuples) == end.frees
      ensures r.Ok? ==> forall y :: y in r.value ==> !y.And?
    {
      kept := [];
      ghost var s0 := Start(tuples);
      ghost var prior := insertedValues;
      var remaining: seq<ValueExpr> := [];
      var i := 0;
      while i < |conj|
        invariant 0 <= i <= |conj|
        invariant |kept| == i && remaining == Select(conj, kept)
        invariant forall j :: 0 <= j < i ==> kept[j] == KeptAt(tuples, conj, s0, j)
        invariant forall j :: 0 <= j < i ==> !RefusedAt(tuples, conj, s0, j)
        invariant AllValid(tuples)
        invariant LoopAt(tuples, conj, s0, i, prior)
      {
        ghost var before := insertedValues;
        var keep := ConjunctKept(conj[i], tuples, FreeSets(tuples));
        if keep.Err? {
          assert RefusedAt(tuples, conj, s0, i);
          return Err(keep.error), kept;
        }
        NotRefusedStep(tuples, conj, s0, i);
        LoopAdvance(tuples, conj, s0, i, prior, before, LoopState(FreeSets(tuples), Snapshot(tuples), insertedValues));
        KeptAtStep(tuples, conj, s0, kept, keep.value);
        SelectStep(conj, kept, keep.value);
        if keep.value {
          remaining := remaining + [conj[i]];
        }
        kept := kept + [keep.value];
        i := i + 1;
      }
      SelectedFrom(conj, kept);
      r := Ok(remaining);
    }

    /** One iteration of `meet(Filter)`'s loop: a compatible conjunct is
        carried to the tuples below and is kept unless the tuples took it
        over; an incompatible one is always kept. The tuples end in the state
        `LoopStep` gives. */
    method ConjunctKept(c: ValueExpr, tuples: seq<FilterTuple>, ghost frees: seq<set<string>>) returns (r: Result<bool>)
      requires Distinct(tuples) && AllValid(tuples)
      requires frees == FreeSets(tuples)
      modifies this`insertedValues, StmtObjs(tuples)
      ensures AllValid(tuples)
      ensures r.Err? ==> r.error.cls == UnsupportedOperationException
      ensures !IsCompatibleExpr(c) ==> r == Ok(true) && insertedValues == old(insertedValues)
      ensures |tuples| == 0 ==> r == Ok(true)
      ensures IsCompatibleExpr(c) ==>
        var e := ConjunctExpr(c);
        && (r.Err? <==> GroupRefuses(tuples, frees, e, 0))
        && (r.Ok? ==> r.value == !Removable(frees, e))
        && (r.Ok? ==> insertedValues == old(insertedValues) + BindingsFrom(frees, e, 0))
      ensures r.Ok? ==>
        LoopState(FreeSets(tuples), Snapshot(tuples), insertedValues)
          == LoopStep(tuples, c, LoopState(frees, old(Snapshot(tuples)), old(insertedValues)))
    {
      if !IsCompatibleExpr(c) {
        return Ok(true);
      }
      var fe := ConjunctExpr(c);
      ghost var pre := Snapshot(tuples);
      var visitor := new FilterExprInsertVisitor(this);
      visitor.Initialize(fe);
      var o := visitor.VisitTuples(tuples, frees, pre);
      if o.Failure? {
        return Err(o.error);
      }
      StepAfterVisit(tuples, c, LoopState(frees, pre, old(insertedValues)),
                     LoopState(FreeSets(tuples), Snapshot(tuples), insertedValues));
      // corrected rule: drop only a conjunct some tuple took over
      r := Ok(!(visitor.canRemove && visitor.handled));
    }

    /** `optimize`: the visit of the whole tree. Filters are handled by
        `MeetFilter` (which does not descend further), nothing below a SERVICE
        is touched, and a projection becomes a projection with bindings iff
        some value has been inserted by then. */
    method Optimize(t: TupleExpr) returns (r: Result<TupleExpr>)
      requires Distinct(ReachedTuples(t)) && AllValid(ReachedTuples(t))
      modifies this`insertedValues, StmtObjs(ReachedTuples(t))
      ensures AllValid(ReachedTuples(t))
      ensures t.Service? ==> r == Ok(t) && insertedValues == old(insertedValues)
      ensures t.Filter? && t.arg.EmptyResult? ==> r == Ok(t.arg)
      ensures (t.Projection? || t.ProjectionWithBindings?) && r.Ok? ==>
                (r.value.ProjectionWithBindings? <==> insertedValues != [] || t.ProjectionWithBindings?)
      ensures (t.Projection? || t.ProjectionWithBindings?) && r.Ok? && insertedValues != [] ==>
                r.value.ProjectionWithBindings? && r.value.bindings == insertedValues
      decreases Size(t), 0
    {
      match t
      case Filter(c, a) =>
        var res, _ := MeetFilter(c, a);
        return res;
      case Service(_, _) =>
        return Ok(t);
      case Projection(elems, a) =>
        var res := Optimize(a);
        if res.Err? { return res; }
        if insertedValues != [] {
          return Ok(ProjectionWithBindings(elems, res.value, insertedValues));
        }
        return Ok(Projection(elems, res.value));
      case ProjectionWithBindings(elems, a, bs) =>
        var res := Optimize(a);
        if res.Err? { return res; }
        if insertedValues != [] {
          return Ok(ProjectionWithBindings(elems, res.value, insertedValues));
        }
        return Ok(ProjectionWithBindings(elems, res.value, bs));
      case Slice(n, a) =>
        var res := Optimize(a);
        if res.Err? { return res; }
        return Ok(Slice(n, res.value));
      case Join(a, b) =>
        var res := OptimizePair(a, b);
        if res.Err? { return Err(res.error); }
        return Ok(Join(res.value.0, res.value.1));
      case Union(a, b) =>
        var res := OptimizePair(a, b);
        if res.Err? { return Err(res.error); }
        return Ok(Union(res.value.0, res.value.1));
      case LeftJoin(a, b, c) =>
        var res := OptimizePair(a, b);
        if res.Err? { return Err(res.error); }
        return Ok(LeftJoin(res.value.0, res.value.1, c));
      case NJoin(args) =>
        var res := OptimizeAll(args);
        if res.Err? { return Err(res.error); }
        return Ok(NJoin(res.value));
      case NUnion(args) =>
        var res := OptimizeAll(args);
        if res.Err? { return Err(res.error); }
        return Ok(NUnion(res.value));
      case OtherNode(name, exprs, cs) =>
        var res := OptimizeAll(cs);
        if res.Err? { return Err(res.error); }
        return Ok(OtherNode(name, exprs, res.value));
      case _ =>
        return Ok(t);
    }

    /** The visit of the two children of a binary operator, left first. */
    method OptimizePair(a: TupleExpr, b: TupleExpr) returns (r: Result<(TupleExpr, TupleExpr)>)
      requires Distinct(ReachedTuples(a) + ReachedTuples(b)) && AllValid(ReachedTuples(a) + ReachedTuples(b))
      modifies this`insertedValues, StmtObjs(ReachedTuples(a) + ReachedTuples(b))
      ensures AllValid(ReachedTuples(a) + ReachedTuples(b))
      decreases Size(a) + Size(b), 1
    {
      ConcatTuples(ReachedTuples(a), ReachedTuples(b));
      assert StmtObjs(ReachedTuples(a)) !! StmtObjs(ReachedTuples(b));
      assert AllValid(ReachedTuples(b));
      var ra := Optimize(a);
      assert AllValid(ReachedTuples(b));
      if ra.Err? {
        return Err(ra.error);
      }
      var rb := Optimize(b);
      if rb.Err? {
        return Err(rb.error);
      }
      return Ok((ra.value, rb.value));
    }

    /** The visit of a list of children, left to right. */
    method OptimizeAll(ts: seq<TupleExpr>) returns (r: Result<seq<TupleExpr>>)
      requires Distinct(ReachedAll(ts)) && AllValid(ReachedAll(ts))
      modifies this`insertedValues, StmtObjs(ReachedAll(ts))
      ensures AllValid(ReachedAll(ts))
      ensures r.Ok? ==> |r.value| == |ts|
      decreases SizeAll(ts), 1
    {
      if ts == [] {
        return Ok([]);
      }
      ConcatTuples(ReachedTuples(ts[0]), ReachedAll(ts[1..]));
      assert StmtObjs(ReachedTuples(ts[0])) !! StmtObjs(ReachedAll(ts[1..]));
      assert AllValid(ReachedAll(ts[1..]));
      var head := Optimize(ts[0]);
      assert AllValid(ReachedAll(ts[1..]));
      if head.Err? {
        return Err(head.error);
      }
      var tail := OptimizeAll(ts[1..]);
      if tail.Err? {
        return tail;
      }
      return Ok([head.value] + tail.value);
    }
  }

  /** The visitor that carries one conjunct to the filter tuples below a filter. */
  class FilterExprInsertVisitor {
    const optimizer: FilterOptimizer
    /** The conjunct may be dropped from the FILTER: no tuple needs it above. */
    var canRemove: bool
    /** Some tuple took the conjunct over (the corrected removal rule). */
    var handled: bool
    var filterExpr: FilterExpr

    /** The flags of this visit together with the optimizer's bindings. */
    ghost function Flagged(): Flags
      reads this`canRemove, this`handled, optimizer`insertedValues
    {
      Flags(canRemove, handled, optimizer.insertedValues)
    }

    constructor(outer: FilterOptimizer)
      ensures optimizer == outer && !canRemove && !handled
    {
      optimizer := outer;
      canRemove := false;
      handled := false;
      filterExpr := FilterExpr(ValueConstant(Literal("")), {});
    }

    /** `initialize(filterExpr)`. */
    method Initialize(e: FilterExpr)
      modifies this`canRemove, this`handled, this`filterExpr
      ensures canRemove && !handled && filterExpr == e
    {
      canRemove := true;
      handled := false;
      filterExpr := e;
    }

    /** `handleFilter` (with `handleCompare`) on a FedX statement: an equality
        with a resource constant binds the variable, a conjunct whose variables
        are all free is added as a filter, a partly covered one must stay. */
    method HandleStatement(st: FedXStatementPattern, e: FilterExpr)
      requires st.Valid()
      modifies this`canRemove, this`handled, optimizer`insertedValues
      modifies st`subj, st`pred, st`obj, st`freeVars, st`filter
      ensures st.Valid()
      ensures Flagged() == Take(old(Flagged()), Decide(old(Elems(st.freeVars)), e))
      ensures StateOf(st) == Apply(Decide(old(Elems(st.freeVars)), e), e, old(StateOf(st)))
    {
      var free := Elems(st.freeVars);
      var intersected := CountIntersected(e.vars, free);
      IntersectionCount(e.vars, free);
      if intersected == 0 {
        return;
      }
      if IsCompareEq(e) {
        var b := EqualityBinding(e.expression);
        if b.Some? {
          st.AddBoundFilter(b.value.name, b.value.value);
          optimizer.insertedValues := optimizer.insertedValues + [b.value];
          handled := true;
          return;
        }
      }
      if intersected == |e.vars| {
        var o := st.AddFilterExpr(e);
        handled := true;
        return;
      }
      canRemove := false;
    }

    /** `handleFilter` on an exclusive group: binding or pushing the conjunct
        into the group is refused with an exception. */
    method HandleGroup(g: ExclusiveGroup, e: FilterExpr) returns (r: Outcome)
      modifies this`canRemove
      ensures r.Failure? <==> Handles(Decide(g.freeVars, e))
      ensures r.Failure? ==> r.error.cls == UnsupportedOperationException
      ensures r.Success? ==> Flagged() == Take(old(Flagged()), Decide(g.freeVars, e))
    {
      var intersected := CountIntersected(e.vars, g.freeVars);
      IntersectionCount(e.vars, g.freeVars);
      if intersected == 0 {
        return Success;
      }
      if IsCompareEq(e) {
        var b := EqualityBinding(e.expression);
        if b.Some? {
          r := g.AddBoundFilter(b.value.name, b.value.value);
          return r;
        }
      }
      if intersected == |e.vars| {
        r := g.AddFilterExpr(e);
        return r;
      }
      canRemove := false;
      return Success;
    }


    /** The visit of the filter argument: every reached filter tuple handles
        the conjunct in turn; an exclusive group that would have to take the
        conjunct over throws. */
    method VisitTuples(ts: seq<FilterTuple>, ghost frees: seq<set<string>>, ghost pre: seq<PatternState>)
      returns (r: Outcome)
      requires Distinct(ts) && AllValid(ts)
      requires frees == FreeSets(ts) && pre == Snapshot(ts)
      modifies this`canRemove, this`handled, optimizer`insertedValues, StmtObjs(ts)
      ensures AllValid(ts)
      ensures r.Failure? <==> GroupRefuses(ts, frees, filterExpr, 0)
      ensures r.Failure? ==> r.error.cls == UnsupportedOperationException
      ensures r.Success? ==> canRemove == (old(canRemove) && NoneKeeps(frees, filterExpr, 0))
      ensures r.Success? ==> handled == (old(handled) || AnyHandles(frees, filterExpr, 0))
      ensures r.Success? ==> optimizer.insertedValues == old(optimizer.insertedValues) + BindingsFrom(frees, filterExpr, 0)
      ensures r.Success? ==>
        forall k :: 0 <= k < |ts| && ts[k].FilterStmt? ==> StateOf(ts[k].st) == Handled(pre[k], filterExpr)
    {
      ValidFromAll(ts, 0);
      UnvisitedAll(ts, frees, pre, 0);
      StmtsFromAll(ts);
      ghost var start := Flagged();
      r := VisitFrom(ts, 0, filterExpr, frees, pre, StmtObjs(ts), GroupObjs(ts));
      TakeFromSpec(start, frees, filterExpr, 0);
      ValidFromAll(ts, 0);
      if r.Success? {
        VisitedAll(ts, pre, filterExpr, 0);
      }
    }

    /** The visit of the reached tuples from the `i`-th on, in order. */
    method VisitFrom(ts: seq<FilterTuple>, i: nat, e: FilterExpr, ghost frees: seq<set<string>>,
                     ghost pre: seq<PatternState>, ghost objs: set<FedXStatementPattern>,
                     ghost groups: set<ExclusiveGroup>)
      returns (r: Outcome)
      requires i <= |ts| == |frees| == |pre| && Distinct(ts)
      requires StmtsFrom(ts, i) <= objs && GroupObjs(ts) <= groups
      requires ValidFrom(ts, i) && Unvisited(ts, frees, pre, i)
      modifies this`canRemove, this`handled, optimizer`insertedValues
      modifies StmtsFrom(ts, i)`subj, StmtsFrom(ts, i)`pred, StmtsFrom(ts, i)`obj, StmtsFrom(ts, i)`freeVars,
               StmtsFrom(ts, i)`filter
      ensures ValidFrom(ts, i)
      ensures r.Failure? <==> GroupRefuses(ts, frees, e, i)
      ensures r.Failure? ==> r.error.cls == UnsupportedOperationException
      ensures r.Success? ==> Flagged() == TakeFrom(old(Flagged()), frees, e, i)
      ensures r.Success? ==> Visited(ts, pre, e, i)
      decreases |ts| - i, 1
    {
      if i == |ts| {
        return Success;
      }
      if ts[i].FilterStmt? {
        r := VisitStatement(ts, i, e, frees, pre, objs, groups);
      } else {
        r := VisitGroup(ts, i, e, frees, pre, objs, groups);
      }
    }

    /** The `i`-th reached tuple is a FedX statement: it handles the conjunct,
        then the visit goes on. */
    method VisitStatement(ts: seq<FilterTuple>, i: nat, e: FilterExpr, ghost frees: seq<set<string>>,
                     ghost pre: seq<PatternState>, ghost objs: set<FedXStatementPattern>,
                     ghost groups: set<ExclusiveGroup>)
      returns (r: Outcome)
      requires i < |ts| && ts[i].FilterStmt? && i <= |ts| == |frees| == |pre| && Distinct(ts)
      requires StmtsFrom(ts, i) <= objs && GroupObjs(ts) <= groups
      requires ValidFrom(ts, i) && Unvisited(ts, frees, pre, i)
      modifies this`canRemove, this`handled, optimizer`insertedValues
      modifies StmtsFrom(ts, i)`subj, StmtsFrom(ts, i)`pred, StmtsFrom(ts, i)`obj, StmtsFrom(ts, i)`freeVars,
               StmtsFrom(ts, i)`filter
      ensures ValidFrom(ts, i)
      ensures r.Failure? <==> GroupRefuses(ts, frees, e, i)
      ensures r.Failure? ==> r.error.cls == UnsupportedOperationException
      ensures r.Success? ==> Flagged() == TakeFrom(old(Flagged()), frees, e, i)
      ensures r.Success? ==> Visited(ts, pre, e, i)
      decreases |ts| - i, 0
    {
      NotLater(ts, i);
      HandleStatement(ts[i].st, e);
      r := VisitFrom(ts, i + 1, e, frees, pre, objs, groups);
    }

    /** The `i`-th reached tuple is an exclusive group: it refuses a conjunct
        it would have to take over, otherwise the visit goes on. */
    method VisitGroup(ts: seq<FilterTuple>, i: nat, e: FilterExpr, ghost frees: seq<set<string>>,
                     ghost pre: seq<PatternState>, ghost objs: set<FedXStatementPattern>,
                     ghost groups: set<ExclusiveGroup>)
      returns (r: Outcome)
      requires i < |ts| && ts[i].FilterGroup? && i <= |ts| == |frees| == |pre| && Distinct(ts)
      requires StmtsFrom(ts, i) <= objs && GroupObjs(ts) <= groups
      requires ValidFrom(ts, i) && Unvisited(ts, frees, pre, i)
      modifies this`canRemove, this`handled, optimizer`insertedValues
      modifies StmtsFrom(ts, i)`subj, StmtsFrom(ts, i)`pred, StmtsFrom(ts, i)`obj, StmtsFrom(ts, i)`freeVars,
               StmtsFrom(ts, i)`filter
      ensures ValidFrom(ts, i)
      ensures r.Failure? <==> GroupRefuses(ts, frees, e, i)
      ensures r.Failure? ==> r.error.cls == UnsupportedOperationException
      ensures r.Success? ==> Flagged() == TakeFrom(old(Flagged()), frees, e, i)
      ensures r.Success? ==> Visited(ts, pre, e, i)
      decreases |ts| - i, 0
    {
      r := HandleGroup(ts[i].g, e);
      if r.Failure? {
        return;
      }
      r := VisitFrom(ts, i + 1, e, frees, pre, objs, groups);
    }
  }
}
