/** `ExclusiveGroup` (algebra/ExclusiveGroup.java): a group of exclusive
    statements that all have the same single owner and are sent to it as one
    subquery. */
module ExclusiveGroups {
  import opened Util
  import opened Rdf
  import opened Algebra
  import opened StatementPatterns
  import Endpoints
  import EndpointManagers

  /** The union of a list of sets. */
  function UnionAll<T>(ss: seq<set<T>>): set<T>
  {
    if ss == [] then {} else UnionAll(ss[..|ss| - 1]) + ss[|ss| - 1]
  }

  /** Each owned statement's free variables, in order. */
  function FreeVarSets(os: seq<FedXStatementPattern>): (r: seq<set<string>>)
    reads os
    ensures |r| == |os|
  {
    seq(|os|, k requires 0 <= k < |os| reads os => Elems(os[k].freeVars))
  }

  /** The conjuncts of each owned statement's filter, in order. */
  function ConjunctSets(os: seq<FedXStatementPattern>): (r: seq<set<FilterExpr>>)
    reads os
    ensures |r| == |os|
  {
    seq(|os|, k requires 0 <= k < |os| reads os => Elems(Conjuncts(os[k].filter)))
  }

  /** The union of the owned statements' free variables. */
  function UnionFreeVars(os: seq<FedXStatementPattern>): set<string>
    reads os
  {
    UnionAll(FreeVarSets(os))
  }

  /** Every conjunct of every owned statement's filter. */
  function UnionConjuncts(os: seq<FedXStatementPattern>): set<FilterExpr>
    reads os
  {
    UnionAll(ConjunctSets(os))
  }

  /** Each owned statement's filter, in order. */
  function FiltersOf(os: seq<FedXStatementPattern>): (r: seq<Option<FilterValueExpr>>)
    reads os
    ensures |r| == |os|
  {
    seq(|os|, k requires 0 <= k < |os| reads os => os[k].filter)
  }

  /** Some owned statement carries a filter of an unsupported kind. */
  predicate SomeUnsupportedFilter(os: seq<FedXStatementPattern>)
    reads os
  {
    Some(OtherFilterValue) in FiltersOf(os)
  }

  /** Adding elements to a hash set, modelled as a duplicate-free sequence in
      first-insertion order. */
  function AddAllDistinct<T(==)>(acc: seq<T>, es: seq<T>): (r: seq<T>)
    requires Distinct(acc)
    ensures Distinct(r)
    ensures Elems(r) == Elems(acc) + Elems(es)
    decreases |es|
  {
    if es == [] then acc
    else if es[0] in acc then AddAllDistinct(acc, es[1..])
    else AddAllDistinct(acc + [es[0]], es[1..])
  }

  /** The group filter built from the collected conjuncts: none, the single
      conjunct itself, or a conjunction of all of them. */
  function GroupFilter(conj: seq<FilterExpr>): (r: Option<FilterValueExpr>)
    ensures Conjuncts(r) == conj
    ensures r == None <==> conj == []
    ensures r.Some? ==> !r.value.OtherFilterValue?
  {
    if |conj| == 0 then None
    else if |conj| == 1 then Some(Single(conj[0]))
    else Some(Conjunctive(conj))
  }

  /** A prefix one longer is the prefix and the next element. */
  lemma PrefixAppend<T>(s: seq<T>, i: nat)
    requires i < |s|
    ensures s[..i + 1] == s[..i] + [s[i]]
  {
  }

  /** One more set extends the union of a prefix by that set. */
  lemma UnionStep<T>(ss: seq<set<T>>, i: nat)
    requires i < |ss|
    ensures UnionAll(ss[..i + 1]) == UnionAll(ss[..i]) + ss[i]
  {
    assert ss[..i + 1][..i] == ss[..i];
  }

  /** The message `init()` throws for a filter of an unsupported kind. */
  const UnexpectedFilterMessage: string := "Internal Error: Unexpected filter type: FilterValueExpr"
  /** The messages of the operations a group refuses. */
  const FiltersPushedMessage: string :=
    "Operation not supported for com.fluidops.fedx.algebra.ExclusiveGroup, filters already to children during optimization."
  const BindingsInsertedMessage: string :=
    "Operation not supported for com.fluidops.fedx.algebra.ExclusiveGroup, bindings inserted during optimization."
  const NotSupportedOnNodeMessage: string := "Operation not supported on this node!"

  class ExclusiveGroup {
    const owned: seq<FedXStatementPattern>
    const owner: StatementSource
    /** `NodeFactory.getNextId()` at construction time. */
    const id: string
    var freeVars: set<string>
    var filter: Option<FilterValueExpr>
    /** The registered endpoint of the owner, or null when none is registered. */
    var ownedEndpoint: Endpoints.Endpoint?

    /** The object before `init()` has run. */
    constructor Allocate(ownedNodes: seq<FedXStatementPattern>, src: StatementSource, gid: string)
      ensures owned == ownedNodes && owner == src && id == gid
      ensures freeVars == {} && filter == None && ownedEndpoint == null
    {
      owned := ownedNodes;
      owner := src;
      id := gid;
      freeVars := {};
      filter := None;
      ownedEndpoint := null;
    }

    /** `init()`: collect the owned statements' free variables and the distinct
        conjuncts of their filters; a filter of an unsupported kind is an error. */
    method Init() returns (r: Outcome)
      requires freeVars == {} && filter == None
      modifies this`freeVars, this`filter
      ensures r.Failure? <==> SomeUnsupportedFilter(owned)
      ensures r.Failure? ==> r.error.cls == RuntimeException
      ensures r.Success? ==> freeVars == UnionFreeVars(owned)
      ensures r.Success? ==> Elems(Conjuncts(filter)) == UnionConjuncts(owned)
      ensures r.Success? ==> Distinct(Conjuncts(filter)) && filter != Some(OtherFilterValue)
    {
      var conj: seq<FilterExpr> := [];
      ghost var fvs := FreeVarSets(owned);
      ghost var cjs := ConjunctSets(owned);
      ghost var fs := FiltersOf(owned);
      var i := 0;
      while i < |owned|
        invariant 0 <= i <= |owned|
        invariant fvs == FreeVarSets(owned) && cjs == ConjunctSets(owned) && fs == FiltersOf(owned)
        invariant freeVars == UnionAll(fvs[..i])
        invariant Distinct(conj) && Elems(conj) == UnionAll(cjs[..i])
        invariant Some(OtherFilterValue) !in fs[..i]
        invariant filter == None
      {
        var o := owned[i];
        UnionStep(fvs, i);
        UnionStep(cjs, i);
        assert fs[i] == o.filter;
        PrefixAppend(fs, i);
        freeVars := freeVars + Elems(o.freeVars);
        if o.filter == Some(OtherFilterValue) {
          assert fs[i] in fs;
          return Failure(Raise(RuntimeException, UnexpectedFilterMessage));
        }
        // a single conjunct or every conjunct of a conjunctive filter
        conj := AddAllDistinct(conj, Conjuncts(o.filter));
        i := i + 1;
      }
      assert fvs[..i] == fvs && cjs[..i] == cjs && fs[..i] == fs;
      filter := GroupFilter(conj);
      r := Success;
    }

    /** `getFreeVarCount()`. */
    function FreeVarCount(): nat
      reads this
    {
      |freeVars|
    }

    /** `getFreeVars()`: a fresh list holding each free variable once. */
    method FreeVarList() returns (r: seq<string>)
      ensures Elems(r) == freeVars && Distinct(r)
    {
      r := [];
      var rest := freeVars;
      while rest != {}
        invariant rest <= freeVars
        invariant Elems(r) == freeVars - rest && Distinct(r)
        decreases |rest|
      {
        var v :| v in rest;
        assert v !in Elems(r);
        assert Elems(r + [v]) == Elems(r) + {v};
        r := r + [v];
        rest := rest - {v};
      }
    }

    /** `hasFreeVarsFor(bindings)`. */
    predicate HasFreeVarsFor(b: BindingSet)
      reads this
    {
      exists v :: v in freeVars && v !in b
    }

    /** `getStatementSources()`: the owner and nothing else. */
    function StatementSources(): (r: seq<StatementSource>)
      ensures |r| == 1 && r[0] == owner
    {
      [owner]
    }

    /** `addFilterExpr`: always unsupported, filters are already in the owned statements. */
    method AddFilterExpr(e: FilterExpr) returns (r: Outcome)
      ensures r.Failure? && r.error.cls == UnsupportedOperationException
    {
      r := Failure(Raise(UnsupportedOperationException, FiltersPushedMessage));
    }

    /** `addBoundFilter`: always unsupported, bindings are inserted in the owned statements. */
    method AddBoundFilter(name: string, value: Value) returns (r: Outcome)
      ensures r.Failure? && r.error.cls == UnsupportedOperationException
    {
      r := Failure(Raise(UnsupportedOperationException, BindingsInsertedMessage));
    }

    /** `clone()`: always refused. */
    method Clone() returns (r: Outcome)
      ensures r.Failure? && r.error.cls == RuntimeException
    {
      r := Failure(Raise(RuntimeException, NotSupportedOnNodeMessage));
    }
  }

  /** `new ExclusiveGroup(ownedNodes, owner, queryInfo)`: the constructor runs
      `init()` and so throws what `init()` throws; then it looks the owner's
      endpoint up in the endpoint manager of `reg`, which throws when no
      manager has been initialized and gives null for an unknown id. */
  method NewExclusiveGroup(ownedNodes: seq<FedXStatementPattern>, owner: StatementSource, gid: string,
                           reg: EndpointManagers.EndpointManagerRegistry)
    returns (r: Result<ExclusiveGroup>)
    ensures r.Err? <==> SomeUnsupportedFilter(ownedNodes) || reg.instance == null
    ensures SomeUnsupportedFilter(ownedNodes) ==> r.Err? && r.error.cls == RuntimeException
    ensures !SomeUnsupportedFilter(ownedNodes) && reg.instance == null ==>
              r == Err(Raise(FedXRuntimeException, EndpointManagers.NotYetInitializedMessage))
    ensures r.Ok? ==> fresh(r.value) && r.value.owned == ownedNodes && r.value.owner == owner && r.value.id == gid
    ensures r.Ok? ==> r.value.freeVars == UnionFreeVars(ownedNodes)
    ensures r.Ok? ==> Elems(Conjuncts(r.value.filter)) == UnionConjuncts(ownedNodes)
                      && Distinct(Conjuncts(r.value.filter))
    ensures r.Ok? ==> reg.instance != null &&
                      (owner.endpointId in reg.instance.endpoints ==>
                         r.value.ownedEndpoint == reg.instance.endpoints[owner.endpointId])
    ensures r.Ok? && reg.instance != null && owner.endpointId !in reg.instance.endpoints ==> r.value.ownedEndpoint == null
  {
    var g := new ExclusiveGroup.Allocate(ownedNodes, owner, gid);
    var o := g.Init();
    if o.Failure? {
      return Err(o.error);
    }
    var mgr := reg.GetEndpointManager();
    if mgr.Err? {
      return Err(mgr.error);
    }
    var e := mgr.value.GetEndpoint(owner.endpointId);
    g.ownedEndpoint := if e.Some? then e.value else null;
    return Ok(g);
  }

  /** With one owned statement the group has that statement's variables and
      the distinct conjuncts of its filter. */
  lemma SingleStatementGroup(s: FedXStatementPattern)
    ensures UnionFreeVars([s]) == Elems(s.freeVars)
    ensures UnionConjuncts([s]) == Elems(Conjuncts(s.filter))
  {
    assert FreeVarSets([s]) == [Elems(s.freeVars)];
    assert ConjunctSets([s]) == [Elems(Conjuncts(s.filter))];
    UnionStep(FreeVarSets([s]), 0);
    UnionStep(ConjunctSets([s]), 0);
    assert FreeVarSets([s])[..1] == FreeVarSets([s]);
    assert ConjunctSets([s])[..1] == ConjunctSets([s]);
  }
}
