/** `FedXStatementPattern` (algebra/FedXStatementPattern.java) with the two
    concrete kinds built on it: `StatementSourcePattern`, which may be sent to
    several sources, and `ExclusiveStatement`, which has exactly one owner. */
module StatementPatterns {
  import opened Util
  import opened Rdf
  import opened Algebra

  /** Names of the unbound positions, in subject, predicate, object order. */
  function UnboundNames(s: Var, p: Var, o: Var): seq<string>
  {
    UnboundName(s) + UnboundName(p) + UnboundName(o)
  }

  /** The name of one position if it is unbound. */
  function UnboundName(v: Var): seq<string>
  {
    if v.value.None? then [v.name] else []
  }

  /** A position still carries no value. */
  predicate UnboundPosition(v: Var)
  {
    v.value.None?
  }

  /** The variable after `addBoundFilter(name, value)`: bound iff its name matches. */
  function BindVar(v: Var, name: string, value: Value): Var
  {
    if v.name == name then Var(v.name, Some(value)) else v
  }

  /** Every occurrence of `x` removed, everything else kept in order. */
  function RemoveAll(s: seq<string>, x: string): (r: seq<string>)
    ensures x !in r
    ensures forall y :: y != x ==> (y in r <==> y in s)
    ensures |r| <= |s|
  {
    if s == [] then []
    else if s[0] == x then RemoveAll(s[1..], x)
    else [s[0]] + RemoveAll(s[1..], x)
  }

  /** `r` is `s` without its element at `k`, the first occurrence of `x`. */
  predicate FirstRemovedAt(s: seq<string>, x: string, r: seq<string>, k: int)
  {
    0 <= k < |s| && s[k] == x && x !in s[..k] && r == s[..k] + s[k + 1..]
  }

  /** Java's `List.remove(Object)`: only the first occurrence is removed. */
  function ListRemove(s: seq<string>, x: string): (r: seq<string>)
    ensures x in s ==> |r| == |s| - 1 && multiset(r) == multiset(s) - multiset{x}
    ensures x in s ==> exists k :: FirstRemovedAt(s, x, r, k)
    ensures x !in s ==> r == s
  {
    if s == [] then []
    else if s[0] == x then
      assert s == [s[0]] + s[1..];
      assert FirstRemovedAt(s, x, s[1..], 0) by {
        assert s[..0] + s[0+1..] == s[1..];
      }
      s[1..]
    else
      assert s == [s[0]] + s[1..];
      var rest := ListRemove(s[1..], x);
      assert x in s[1..] ==> exists k :: FirstRemovedAt(s, x, [s[0]] + rest, k) by {
        if x in s[1..] {
          var j :| FirstRemovedAt(s[1..], x, rest, j);
          ListRemoveAt(s, x, rest, j);
        }
      }
      [s[0]] + rest
  }

  /** One step of the recursion of `ListRemove`: the first occurrence at `j`
      in the tail is the first occurrence at `j + 1` in `s`. */
  lemma ListRemoveAt(s: seq<string>, x: string, rest: seq<string>, j: int)
    requires s != [] && s[0] != x
    requires FirstRemovedAt(s[1..], x, rest, j)
    ensures FirstRemovedAt(s, x, [s[0]] + rest, j + 1)
  {
    assert s[..j+1] == [s[0]] + s[1..][..j];
    assert s[j+2..] == s[1..][j+1..];
  }

  /** Removing every occurrence keeps the order of the rest: each element other
      than `x` sits between the filtered prefix before it and the filtered
      suffix after it. */
  /** Removing every occurrence leaves every other name as often as before. */
  lemma {:induction false} RemoveAllCounts(s: seq<string>, x: string)
    ensures multiset(RemoveAll(s, x)) == multiset(s)[x := 0]
    ensures x !in s ==> RemoveAll(s, x) == s
  {
    if s != [] {
      assert s == [s[0]] + s[1..];
      RemoveAllCounts(s[1..], x);
    }
  }

  lemma RemoveAllKeepsOrder(s: seq<string>, x: string, i: int)
    requires 0 <= i < |s|
    ensures RemoveAll(s, x) == RemoveAll(s[..i], x) + (if s[i] == x then [] else [s[i]]) + RemoveAll(s[i+1..], x)
  {
    assert s == s[..i] + [s[i]] + s[i+1..];
    RemoveAllAppend(s[..i] + [s[i]], s[i+1..], x);
    RemoveAllAppend(s[..i], [s[i]], x);
    assert RemoveAll([s[i]], x) == (if s[i] == x then [] else [s[i]] + RemoveAll([], x));
  }

  /** Binding a name in all three positions removes exactly that name from the
      unbound names: the corrected `addBoundFilter` keeps `freeVars` exact. */
  lemma UnboundNamesAfterBind(s: Var, p: Var, o: Var, name: string, value: Value)
    ensures UnboundNames(BindVar(s, name, value), BindVar(p, name, value), BindVar(o, name, value))
         == RemoveAll(UnboundNames(s, p, o), name)
  {
    RemoveAllAppend(UnboundName(s), UnboundName(p), name);
    RemoveAllAppend(UnboundName(s) + UnboundName(p), UnboundName(o), name);
    UnboundNameAfterBind(s, name, value);
    UnboundNameAfterBind(p, name, value);
    UnboundNameAfterBind(o, name, value);
  }

  lemma UnboundNameAfterBind(v: Var, name: string, value: Value)
    ensures UnboundName(BindVar(v, name, value)) == RemoveAll(UnboundName(v), name)
  {
    if v.value.None? {
      assert RemoveAll([v.name], name) == (if v.name == name then [] else [v.name] + RemoveAll([], name));
    }
  }

  lemma {:induction false} RemoveAllAppend(a: seq<string>, b: seq<string>, x: string)
    ensures RemoveAll(a + b, x) == RemoveAll(a, x) + RemoveAll(b, x)
  {
    if a == [] {
      assert a + b == b;
    } else {
      assert (a + b)[1..] == a[1..] + b;
      RemoveAllAppend(a[1..], b, x);
    }
  }

  /** The message thrown for a filter value of an unsupported kind. */
  const UnexpectedTypeMessage: string := "Unexpected type: FilterValueExpr"

  /** `addFilterExpr` on the filter value: the first expression becomes the
      filter, a second one turns it into a conjunction, further ones are
      appended; a filter of another kind is an error. */
  function AddConjunct(f: Option<FilterValueExpr>, e: FilterExpr): (r: Result<FilterValueExpr>)
    ensures r.Ok? <==> f != Some(OtherFilterValue)
    ensures r.Ok? ==> !r.value.OtherFilterValue? && Conjuncts(Some(r.value)) == Conjuncts(f) + [e]
    ensures r.Err? ==> r.error.cls == RuntimeException
  {
    match f
    case None => Ok(Single(e))
    case Some(Conjunctive(es)) => Ok(Conjunctive(es + [e]))
    case Some(Single(x)) => Ok(Conjunctive([x, e]))
    case Some(OtherFilterValue) => Err(Raise(RuntimeException, UnexpectedTypeMessage))
  }

  // ---------------------------------------------------------------------------
  // Ordering of statement sources by id (String.compareTo)
  // ---------------------------------------------------------------------------

  /** `a.compareTo(b) <= 0` for Java strings: the first differing character
      decides, otherwise the shorter string comes first. */
  predicate LexLe(a: string, b: string)
    decreases |a|
  {
    if |a| == 0 then true
    else if |b| == 0 then false
    else if a[0] != b[0] then a[0] < b[0]
    else LexLe(a[1..], b[1..])
  }

  lemma LexLeTotal(a: string, b: string)
    ensures LexLe(a, b) || LexLe(b, a)
    decreases |a|
  {
    if |a| > 0 && |b| > 0 && a[0] == b[0] {
      LexLeTotal(a[1..], b[1..]);
    }
  }

  lemma LexLeTransitive(a: string, b: string, c: string)
    requires LexLe(a, b) && LexLe(b, c)
    ensures LexLe(a, c)
    decreases |a|
  {
    if |a| > 0 && |b| > 0 && |c| > 0 && a[0] == b[0] && b[0] == c[0] {
      LexLeTransitive(a[1..], b[1..], c[1..]);
    }
  }

  predicate SortedById(s: seq<StatementSource>)
  {
    forall i, j :: 0 <= i < j < |s| ==> LexLe(s[i].id, s[j].id)
  }

  /** Insert after every source whose id is not greater: equal ids keep their
      relative order, as `Collections.sort` does. */
  function InsertById(x: StatementSource, l: seq<StatementSource>): (r: seq<StatementSource>)
    ensures multiset(r) == multiset(l) + multiset{x}
  {
    if l == [] then [x]
    else if LexLe(l[0].id, x.id) then
      assert l == [l[0]] + l[1..];
      [l[0]] + InsertById(x, l[1..])
    else
      assert l == [l[0]] + l[1..];
      [x] + l
  }

  /** A source not above any element of a sorted list can head it. */
  lemma ConsSorted(h: StatementSource, rest: seq<StatementSource>)
    requires SortedById(rest)
    requires forall k :: 0 <= k < |rest| ==> LexLe(h.id, rest[k].id)
    ensures SortedById([h] + rest)
  {
    var r := [h] + rest;
    forall i, j | 0 <= i < j < |r| ensures LexLe(r[i].id, r[j].id) {
      assert r[j] == rest[j - 1];
      if i > 0 {
        assert r[i] == rest[i - 1];
      }
    }
  }

  lemma {:induction false} InsertByIdSorted(x: StatementSource, l: seq<StatementSource>)
    requires SortedById(l)
    ensures SortedById(InsertById(x, l))
  {
    if l != [] {
      if LexLe(l[0].id, x.id) {
        var rest := InsertById(x, l[1..]);
        InsertByIdSorted(x, l[1..]);
        forall k | 0 <= k < |rest| ensures LexLe(l[0].id, rest[k].id) {
          assert rest[k] in multiset(rest);
          if rest[k] != x {
            assert rest[k] in multiset(l[1..]);
            assert rest[k] in l[1..];
          }
        }
        ConsSorted(l[0], rest);
      } else {
        LexLeTotal(l[0].id, x.id);
        forall k | 0 <= k < |l| ensures LexLe(x.id, l[k].id) {
          if k > 0 {
            LexLeTransitive(x.id, l[0].id, l[k].id);
          }
        }
        ConsSorted(x, l);
      }
    }
  }

  /** The sorted copy of a list of sources (the private `sort` helper). */
  function SortById(s: seq<StatementSource>): (r: seq<StatementSource>)
    ensures SortedById(r)
    ensures multiset(r) == multiset(s)
  {
    if s == [] then []
    else
      assert s == s[..|s| - 1] + [s[|s| - 1]];
      var front := SortById(s[..|s| - 1]);
      InsertByIdSorted(s[|s| - 1], front);
      InsertById(s[|s| - 1], front)
  }

  /** What `visitChildren` hands to the visitor, in order. */
  datatype Child =
    | VarChild(v: Var)
    | LocalVarsChild(names: seq<string>)
    | SourceChild(source: StatementSource)
    | FilterChild(filter: FilterValueExpr)

  function SourceChildren(s: seq<StatementSource>): (r: seq<Child>)
    ensures |r| == |s| && forall i :: 0 <= i < |s| ==> r[i] == SourceChild(s[i])
    ensures forall c :: c in r ==> c.SourceChild? && c.source in s
  {
    if s == [] then [] else [SourceChild(s[0])] + SourceChildren(s[1..])
  }

  // ---------------------------------------------------------------------------
  // The pattern object
  // ---------------------------------------------------------------------------

  class FedXStatementPattern {
    var subj: Var
    var pred: Var
    var obj: Var
    const context: Option<Var>
    /** `NodeFactory.getNextId()` at construction time. */
    const id: int
    /** An `ExclusiveStatement` rather than a `StatementSourcePattern`. */
    const exclusive: bool
    var sources: seq<StatementSource>
    var freeVars: seq<string>
    var localVars: seq<string>
    var filter: Option<FilterValueExpr>

    /** `freeVars` lists exactly the unbound positions' names, and an exclusive
        statement has its owner as its only source. */
    ghost predicate Valid()
      reads this`subj, this`pred, this`obj, this`sources, this`freeVars, this`filter
    {
      freeVars == UnboundNames(subj, pred, obj)
      && (exclusive ==> |sources| == 1)
      && filter != Some(OtherFilterValue)
    }

    /** `new StatementSourcePattern(node, queryInfo)`: no sources yet. */
    constructor SourcePattern(s: Var, p: Var, o: Var, ctx: Option<Var>, nodeId: int)
      ensures Valid() && !exclusive
      ensures subj == s && pred == p && obj == o && context == ctx && id == nodeId
      ensures freeVars == UnboundNames(s, p, o)
      ensures sources == [] && localVars == [] && filter == None
    {
      subj, pred, obj, context, id := s, p, o, ctx, nodeId;
      exclusive := false;
      sources := [];
      freeVars := UnboundNames(s, p, o);
      localVars := [];
      filter := None;
    }

    /** `new ExclusiveStatement(node, owner, queryInfo)`: the owner is the only source. */
    constructor Exclusive(s: Var, p: Var, o: Var, ctx: Option<Var>, owner: StatementSource, nodeId: int)
      ensures Valid() && exclusive
      ensures subj == s && pred == p && obj == o && context == ctx && id == nodeId
      ensures freeVars == UnboundNames(s, p, o)
      ensures sources == [owner] && localVars == [] && filter == None
    {
      subj, pred, obj, context, id := s, p, o, ctx, nodeId;
      exclusive := true;
      sources := [owner];
      freeVars := UnboundNames(s, p, o);
      localVars := [];
      filter := None;
    }

    /** `ExclusiveStatement.getOwner()`: the one source of the statement. */
    function Owner(): (r: StatementSource)
      reads this
      requires Valid() && exclusive
      ensures sources == [r]
    {
      sources[0]
    }

    /** `getFreeVarCount()`: at most three, and zero iff every position is bound. */
    function FreeVarCount(): (r: nat)
      reads this
      requires Valid()
      ensures r <= 3
      ensures r == 0 <==> !UnboundPosition(subj) && !UnboundPosition(pred) && !UnboundPosition(obj)
    {
      |freeVars|
    }

    /** `hasFreeVarsFor(bindings)`: some free variable has no binding. */
    predicate HasFreeVarsFor(b: BindingSet)
      reads this
    {
      AnyUnbound(freeVars, b)
    }

    /** `hasFilter()`. */
    predicate HasFilter()
      reads this
    {
      filter.Some?
    }

    /** `StatementSourcePattern.addStatementSource`. */
    method AddStatementSource(src: StatementSource)
      requires Valid() && !exclusive
      modifies this`sources
      ensures Valid()
      ensures sources == old(sources) + [src]
    {
      sources := sources + [src];
    }

    /** `addLocalVar`. */
    method AddLocalVar(name: string)
      modifies this`localVars
      ensures localVars == old(localVars) + [name]
    {
      localVars := localVars + [name];
    }

    /** `addFilterExpr`: the new condition becomes the last conjunct. */
    method AddFilterExpr(e: FilterExpr) returns (r: Outcome)
      requires Valid()
      modifies this`filter
      ensures Valid()
      ensures r.Success?
      ensures filter.Some? && Conjuncts(filter) == Conjuncts(old(filter)) + [e]
      ensures filter == Some(AddConjunct(old(filter), e).value)
    {
      var f := AddConjunct(filter, e);
      filter := Some(f.value);
      r := Success;
    }

    /** `addBoundFilter(name, value)`: every position named `name` is bound to
        `value` and the name leaves the free variables. The source removes only
        the first occurrence of the name from `freeVars`; this is the corrected
        behaviour (see `AddBoundFilterAsWrittenKeepsFreeVar`). */
    method AddBoundFilter(name: string, value: Value)
      requires Valid()
      modifies this`subj, this`pred, this`obj, this`freeVars
      ensures Valid()
      ensures subj == BindVar(old(subj), name, value)
      ensures pred == BindVar(old(pred), name, value)
      ensures obj == BindVar(old(obj), name, value)
      ensures freeVars == RemoveAll(old(freeVars), name)
    {
      UnboundNamesAfterBind(subj, pred, obj, name, value);
      subj := BindVar(subj, name, value);
      pred := BindVar(pred, name, value);
      obj := BindVar(obj, name, value);
      freeVars := RemoveAll(freeVars, name);
    }

    /** The sources in the order `visitChildren` visits them. */
    function SortedSources(): (r: seq<StatementSource>)
      reads this
      ensures SortedById(r) && multiset(r) == multiset(sources)
    {
      SortById(sources)
    }

    /** `visitChildren`: subject, predicate, object and context variables, then
        one local-variables node iff there are local variables, then the
        sources in id order, then the filter if there is one. */
    function Children(): (r: seq<Child>)
      reads this
      ensures |r| == 3 + (if context.Some? then 1 else 0) + (if |localVars| > 0 then 1 else 0)
                     + |sources| + (if filter.Some? then 1 else 0)
      ensures r[0] == VarChild(subj) && r[1] == VarChild(pred) && r[2] == VarChild(obj)
      ensures |localVars| > 0 ==> LocalVarsChild(localVars) in r
      ensures filter.Some? ==> FilterChild(filter.value) in r
      ensures forall c :: c in r ==>
                (c.LocalVarsChild? ==> c == LocalVarsChild(localVars) && |localVars| > 0)
                && (c.FilterChild? ==> filter == Some(c.filter))
                && (c.SourceChild? ==> c.source in sources)
      ensures context.Some? ==> r[3] == VarChild(context.value)
      ensures var k := 3 + (if context.Some? then 1 else 0) + (if |localVars| > 0 then 1 else 0);
              (|localVars| > 0 ==> r[k - 1] == LocalVarsChild(localVars))
              && r[k..k + |sources|] == SourceChildren(SortedSources())
      ensures filter.Some? ==> r[|r| - 1] == FilterChild(filter.value)
    {
      var sorted := SortedSources();
      assert |sorted| == |sources| by {
        assert |multiset(sorted)| == |multiset(sources)|;
      }
      assert forall x :: x in sorted ==> x in sources by {
        forall x | x in sorted ensures x in sources {
          assert x in multiset(sorted);
        }
      }
      ChildList(subj, pred, obj, context, localVars, sorted, filter)
    }
  }

  /** The children list of `visitChildren`, built from the pattern's parts. */
  function ChildList(s: Var, p: Var, o: Var, ctx: Option<Var>, localVars: seq<string>,
                     sorted: seq<StatementSource>, filter: Option<FilterValueExpr>): (r: seq<Child>)
    ensures |r| == 3 + (if ctx.Some? then 1 else 0) + (if |localVars| > 0 then 1 else 0)
                   + |sorted| + (if filter.Some? then 1 else 0)
    ensures r[0] == VarChild(s) && r[1] == VarChild(p) && r[2] == VarChild(o)
    ensures |localVars| > 0 ==> LocalVarsChild(localVars) in r
    ensures filter.Some? ==> FilterChild(filter.value) in r
    ensures forall c :: c in r ==>
              (c.LocalVarsChild? ==> c == LocalVarsChild(localVars) && |localVars| > 0)
              && (c.FilterChild? ==> filter == Some(c.filter))
              && (c.SourceChild? ==> c.source in sorted)
    ensures ctx.Some? ==> r[3] == VarChild(ctx.value)
    ensures var k := 3 + (if ctx.Some? then 1 else 0) + (if |localVars| > 0 then 1 else 0);
            (|localVars| > 0 ==> r[k - 1] == LocalVarsChild(localVars))
            && r[k..k + |sorted|] == SourceChildren(sorted)
    ensures filter.Some? ==> r[|r| - 1] == FilterChild(filter.value)
  {
    var vars := [VarChild(s), VarChild(p), VarChild(o)]
                + (if ctx.Some? then [VarChild(ctx.value)] else []);
    var local := if |localVars| > 0 then [LocalVarsChild(localVars)] else [];
    var srcs := SourceChildren(sorted);
    var filt := if filter.Some? then [FilterChild(filter.value)] else [];
    assert forall c :: c in vars ==> c.VarChild?;
    var r := vars + local + srcs + filt;
    assert r[0] == vars[0] && r[1] == vars[1] && r[2] == vars[2];
    assert forall c :: c in r ==> c in vars || c in local || c in srcs || c in filt;
    r
  }

  /** `?x <p> ?x` with `?x` bound to `<a>`: the code as written removes `x`
      from `freeVars` once, so `x` stays listed as free although no position is
      unbound any more, and `hasFreeVarsFor` still reports a free variable for
      bindings without `x`. */
  lemma AddBoundFilterAsWrittenKeepsFreeVar()
    ensures var x := Var("x", None);
            var p := Var("p", Some(Iri("p")));
            var a := Iri("a");
            UnboundNames(x, p, x) == ["x", "x"]
            && UnboundNames(BindVar(x, "x", a), BindVar(p, "x", a), BindVar(x, "x", a)) == []
            && ListRemove(UnboundNames(x, p, x), "x") == ["x"]
            && AnyUnbound(ListRemove(UnboundNames(x, p, x), "x"), map[])
  {
    var x := Var("x", None);
    assert ListRemove(["x", "x"], "x") == ["x"];
  }

  /** With the invariant, a pattern has free variables for `b` iff one of its
      unbound positions is named by a variable `b` does not bind. */
  lemma HasFreeVarsForPositions(st: FedXStatementPattern, b: BindingSet)
    requires st.Valid()
    ensures st.HasFreeVarsFor(b) <==> exists v :: v in st.freeVars && v !in b
    ensures st.HasFreeVarsFor(b) <==>
      (UnboundPosition(st.subj) && st.subj.name !in b)
      || (UnboundPosition(st.pred) && st.pred.name !in b)
      || (UnboundPosition(st.obj) && st.obj.name !in b)
  {
    AnyUnboundSpec(st.freeVars, b);
  }
}
