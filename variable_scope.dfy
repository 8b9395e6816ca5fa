/** `VariableScopeOptimizer`: finds the variables of a statement (or of a
    statement of a join) that nothing outside needs, and registers them as the
    statement's local variables. A variable is global once the traversal has
    met it in a projection element or as a variable node. */
module VariableScopeOptimizers {
  import opened Util
  import opened Rdf
  import opened Algebra
  import opened StatementPatterns
  import opened ExclusiveGroups
  import opened QueryTree

  // ---------------------------------------------------------------------------
  // Global variables
  // ---------------------------------------------------------------------------

  /** The source names of a projection's elements. */
  function ElemNames(elems: seq<ProjectionElem>): set<string>
  {
    set e | e in elems :: e.sourceName
  }

  /** The names of a plain statement pattern's variable nodes. */
  function PatternNames(s: Var, p: Var, o: Var, ctx: Option<Var>): set<string>
  {
    {s.name, p.name, o.name} + (if ctx.Some? then {ctx.value.name} else {})
  }

  /** `globalVariables` after the traversal of `t`, starting from `g`: the visit
      goes depth first, a filter's condition and a projection's elements
      before the argument; a SERVICE, a left join, a FedX statement tuple and
      an n-ary join are not entered. */
  function GlobalsAfter(t: TupleExpr, g: set<string>): set<string>
    decreases Size(t), 0
  {
    match t
    case StatementNode(s, p, o, c) => g + PatternNames(s, p, o, c)
    case Filter(cond, a) => GlobalsAfter(a, g + VarNames(cond))
    case Projection(es, a) => GlobalsAfter(a, g + ElemNames(es))
    case ProjectionWithBindings(es, a, _) => GlobalsAfter(a, g + ElemNames(es))
    case Slice(_, a) => GlobalsAfter(a, g)
    case Join(l, r) => GlobalsAfter(r, GlobalsAfter(l, g))
    case Union(l, r) => GlobalsAfter(r, GlobalsAfter(l, g))
    case NUnion(args) => GlobalsAfterAll(args, g)
    case OtherNode(_, es, cs) => GlobalsAfterAll(cs, g + VarNamesAll(es))
    case _ => g
  }

  function GlobalsAfterAll(ts: seq<TupleExpr>, g: set<string>): set<string>
    decreases SizeAll(ts), 1
  {
    if ts == [] then g else GlobalsAfterAll(ts[1..], GlobalsAfter(ts[0], g))
  }

  /** The names the traversal of `t` meets, in no particular order. */
  function MetNames(t: TupleExpr): set<string>
    decreases Size(t), 0
  {
    match t
    case StatementNode(s, p, o, c) => PatternNames(s, p, o, c)
    case Filter(cond, a) => VarNames(cond) + MetNames(a)
    case Projection(es, a) => ElemNames(es) + MetNames(a)
    case ProjectionWithBindings(es, a, _) => ElemNames(es) + MetNames(a)
    case Slice(_, a) => MetNames(a)
    case Join(l, r) => MetNames(l) + MetNames(r)
    case Union(l, r) => MetNames(l) + MetNames(r)
    case NUnion(args) => MetNamesAll(args)
    case OtherNode(_, es, cs) => VarNamesAll(es) + MetNamesAll(cs)
    case _ => {}
  }

  function MetNamesAll(ts: seq<TupleExpr>): set<string>
    decreases SizeAll(ts), 1
  {
    if ts == [] then {} else MetNames(ts[0]) + MetNamesAll(ts[1..])
  }

  /** The global set only grows, by exactly the names the traversal meets,
      whatever it held before. */
  lemma {:induction false} GlobalsAfterSpec(t: TupleExpr, g: set<string>)
    ensures GlobalsAfter(t, g) == g + MetNames(t)
    decreases Size(t), 0
  {
    match t
    case StatementNode(_, _, _, _) =>
    case Filter(cond, a) => GlobalsAfterSpec(a, g + VarNames(cond));
    case Projection(es, a) => GlobalsAfterSpec(a, g + ElemNames(es));
    case ProjectionWithBindings(es, a, _) => GlobalsAfterSpec(a, g + ElemNames(es));
    case Slice(_, a) => GlobalsAfterSpec(a, g);
    case Join(l, r) =>
      GlobalsAfterSpec(l, g);
      GlobalsAfterSpec(r, GlobalsAfter(l, g));
    case Union(l, r) =>
      GlobalsAfterSpec(l, g);
      GlobalsAfterSpec(r, GlobalsAfter(l, g));
    case NUnion(args) => GlobalsAfterAllSpec(args, g);
    case OtherNode(_, es, cs) => GlobalsAfterAllSpec(cs, g + VarNamesAll(es));
    case _ =>
  }

  lemma {:induction false} GlobalsAfterAllSpec(ts: seq<TupleExpr>, g: set<string>)
    ensures GlobalsAfterAll(ts, g) == g + MetNamesAll(ts)
    decreases SizeAll(ts), 1
  {
    if ts != [] {
      GlobalsAfterSpec(ts[0], g);
      GlobalsAfterAllSpec(ts[1..], GlobalsAfter(ts[0], g));
    }
  }

  /** Every projected name is global once the projection has been visited,
      and so is every variable of a filter condition. */
  lemma ProjectedNamesGlobal(es: seq<ProjectionElem>, cond: ValueExpr, a: TupleExpr, g: set<string>)
    ensures ElemNames(es) <= GlobalsAfter(Projection(es, a), g)
    ensures VarNames(cond) <= GlobalsAfter(Filter(cond, a), g)
  {
    GlobalsAfterSpec(a, g + ElemNames(es));
    GlobalsAfterSpec(a, g + VarNames(cond));
  }

  /** The statements whose local variables the traversal of `t` may change:
      top-level FedX statements and the arguments of n-ary joins, nothing
      below a SERVICE or a left join. */
  function Reached(t: TupleExpr): set<FedXStatementPattern>
    decreases Size(t), 0
  {
    match t
    case Stmt(st) => {st}
    case NJoin(args) => StmtArgs(args)
    case Filter(_, a) => Reached(a)
    case Projection(_, a) => Reached(a)
    case ProjectionWithBindings(_, a, _) => Reached(a)
    case Slice(_, a) => Reached(a)
    case Join(l, r) => Reached(l) + Reached(r)
    case Union(l, r) => Reached(l) + Reached(r)
    case NUnion(args) => ReachedAll(args)
    case OtherNode(_, _, cs) => ReachedAll(cs)
    case _ => {}
  }

  function ReachedAll(ts: seq<TupleExpr>): set<FedXStatementPattern>
    decreases SizeAll(ts), 1
  {
    if ts == [] then {} else Reached(ts[0]) + ReachedAll(ts[1..])
  }

  /** The FedX statements among a join's arguments. */
  function StmtArgs(args: seq<TupleExpr>): set<FedXStatementPattern>
  {
    set t | t in args && t.Stmt? :: t.st
  }

  /** The statements and groups among a join's arguments. */
  function ArgObjects(args: seq<TupleExpr>): set<object>
  {
    (set t | t in args && t.Stmt? :: t.st as object) + (set t | t in args && t.Group? :: t.g as object)
  }

  // ---------------------------------------------------------------------------
  // Top-level statements
  // ---------------------------------------------------------------------------

  /** The names of `vs` that are not global, in order, repeats kept. */
  function NonGlobal(vs: seq<string>, g: set<string>): seq<string>
  {
    if vs == [] then []
    else (if vs[0] in g then [] else [vs[0]]) + NonGlobal(vs[1..], g)
  }

  /** Exactly the non-global names are kept, each as often as it occurs. */
  lemma {:induction false} NonGlobalSpec(vs: seq<string>, g: set<string>)
    ensures forall v :: v in NonGlobal(vs, g) <==> v in vs && v !in g
    ensures forall v :: v !in g ==> multiset(NonGlobal(vs, g))[v] == multiset(vs)[v]
  {
    if vs != [] {
      NonGlobalSpec(vs[1..], g);
      assert vs == [vs[0]] + vs[1..];
    }
  }

  lemma NonGlobalAppend(vs: seq<string>, g: set<string>, j: nat)
    requires j < |vs|
    ensures NonGlobal(vs[..j + 1], g) == NonGlobal(vs[..j], g) + (if vs[j] in g then [] else [vs[j]])
  {
    if j > 0 {
      assert vs[1..][..j] == vs[..j + 1][1..];
      assert vs[1..][..j - 1] == vs[..j][1..];
      NonGlobalAppend(vs[1..], g, j - 1);
    }
  }

  // ---------------------------------------------------------------------------
  // N-ary joins
  // ---------------------------------------------------------------------------

  /** The free-variable list of a join argument as a bag: a FedX statement
      lists a variable once per unbound position, a group each variable once. */
  function Bag(t: TupleExpr): multiset<string>
    reads if t.Stmt? then {t.st as object} else if t.Group? then {t.g as object} else {}
  {
    if t.Stmt? then multiset(t.st.freeVars)
    else if t.Group? then multiset(t.g.freeVars)
    else multiset{}
  }

  function Bags(args: seq<TupleExpr>): (r: seq<multiset<string>>)
    reads ArgObjects(args)
    ensures |r| == |args|
    ensures forall i :: 0 <= i < |args| ==> r[i] == Bag(args[i])
  {
    if args == [] then []
    else
      assert ArgObjects(args[..|args| - 1]) <= ArgObjects(args);
      Bags(args[..|args| - 1]) + [Bag(args[|args| - 1])]
  }

  /** How often `v` occurs in the first `n` arguments, counting repeats. */
  function CountUpTo(bags: seq<multiset<string>>, n: nat, v: string): nat
    requires n <= |bags|
  {
    if n == 0 then 0 else CountUpTo(bags, n - 1, v) + bags[n - 1][v]
  }

  function Repeat(x: nat, n: nat): (r: seq<nat>)
    ensures |r| == n && forall y :: y in r ==> y == x
  {
    if n == 0 then [] else Repeat(x, n - 1) + [x]
  }

  /** The argument list the source's map holds for `v` once the first `n`
      arguments have been read: one entry per occurrence, in argument order. */
  function IndicesUpTo(bags: seq<multiset<string>>, n: nat, v: string): seq<nat>
    requires n <= |bags|
  {
    if n == 0 then [] else IndicesUpTo(bags, n - 1, v) + Repeat(n - 1, bags[n - 1][v])
  }

  /** The map's list for `v` has one entry per occurrence, and each entry is an
      argument listing `v`. */
  lemma {:induction false} IndicesSpec(bags: seq<multiset<string>>, n: nat, v: string)
    requires n <= |bags|
    ensures |IndicesUpTo(bags, n, v)| == CountUpTo(bags, n, v)
    ensures forall k :: k in IndicesUpTo(bags, n, v) ==> k < n && v in bags[k]
  {
    if n > 0 {
      IndicesSpec(bags, n - 1, v);
    }
  }

  /** Two different arguments listing `v` make it occur at least twice. */
  lemma {:induction false} CountTwo(bags: seq<multiset<string>>, n: nat, i: nat, k: nat, v: string)
    requires i < k < n <= |bags| && v in bags[i] && v in bags[k]
    ensures CountUpTo(bags, n, v) >= 2
  {
    if k < n - 1 {
      CountTwo(bags, n - 1, i, k, v);
    } else {
      CountOne(bags, n - 1, i, v);
    }
  }

  lemma {:induction false} CountOne(bags: seq<multiset<string>>, n: nat, i: nat, v: string)
    requires i < n <= |bags| && v in bags[i]
    ensures CountUpTo(bags, n, v) >= 1
  {
    if i < n - 1 {
      CountOne(bags, n - 1, i, v);
    }
  }

  /** The source's test `list.size() == 1` picks argument `i` exactly when `v`
      occurs once across all arguments and that occurrence is in `i`. */
  lemma SingleArgument(bags: seq<multiset<string>>, v: string, i: nat)
    requires i < |bags|
    ensures IndicesUpTo(bags, |bags|, v) == [i] <==> v in bags[i] && CountUpTo(bags, |bags|, v) == 1
  {
    IndicesSpec(bags, |bags|, v);
    var l := IndicesUpTo(bags, |bags|, v);
    assert l == [i] ==> i in l;
    if v in bags[i] && CountUpTo(bags, |bags|, v) == 1 {
      assert l[0] in l;
      var k := l[0];
      if k < i {
        CountTwo(bags, |bags|, k, i, v);
      } else if i < k {
        CountTwo(bags, |bags|, i, k, v);
      }
    }
  }

  /** The variables a join registers as local to argument `i`. */
  function LocalNames(bags: seq<multiset<string>>, g: set<string>, i: nat): set<string>
    requires i < |bags|
  {
    set v | v in bags[i] && v !in g && CountUpTo(bags, |bags|, v) == 1
  }

  /** The map `meetNJoin` builds, once every argument has been read. */
  ghost predicate IsVarArgsMap(m: map<string, seq<nat>>, bags: seq<multiset<string>>, n: nat, g: set<string>)
    requires n <= |bags|
  {
    (forall v :: v in m <==> v !in g && |IndicesUpTo(bags, n, v)| > 0)
    && (forall v :: v in m ==> m[v] == IndicesUpTo(bags, n, v))
  }

  /** The variables of the map, outside `keys`, whose only argument is `i`. */
  function Registered(m: map<string, seq<nat>>, keys: set<string>, i: nat): set<string>
  {
    set v | v in m && v !in keys && m[v] == [i]
  }

  /** The registrations per argument after the entry `v` has been handled. */
  function NextAdded(m: map<string, seq<nat>>, v: string, added: seq<seq<string>>): (r: seq<seq<string>>)
    requires v in m
    ensures |r| == |added|
  {
    if |m[v]| == 1 && m[v][0] < |added| then added[m[v][0] := added[m[v][0]] + [v]] else added
  }

  /** Handling one entry keeps each argument's registrations distinct and
      equal to the single-argument entries handled so far. */
  lemma RegisterStep(m: map<string, seq<nat>>, keys: set<string>, v: string, added: seq<seq<string>>)
    requires v in keys && keys <= m.Keys && AddedMatches(added, m, keys)
    ensures AddedMatches(NextAdded(m, v, added), m, keys - {v})
  {
    var next := NextAdded(m, v, added);
    forall i | 0 <= i < |added|
      ensures Distinct(next[i]) && Elems(next[i]) == Registered(m, keys - {v}, i)
    {
      assert Registered(m, keys - {v}, i) == Registered(m, keys, i) + (if m[v] == [i] then {v} else {});
      if m[v] == [i] {
        DistinctAppend(added[i], v);
      }
    }
  }

  /** Two arguments holding the same node have the same bag. */
  lemma SameArgumentSameBag(args: seq<TupleExpr>, bags: seq<multiset<string>>)
    requires |bags| == |args| && forall i :: 0 <= i < |args| ==> bags[i] == Bag(args[i])
    ensures SameBags(args, bags)
  {
  }

  ghost predicate SameBags(args: seq<TupleExpr>, bags: seq<multiset<string>>)
    requires |bags| == |args|
  {
    forall i, j :: 0 <= i < |args| && 0 <= j < |args| && args[i] == args[j] ==> bags[i] == bags[j]
  }

  /** A variable occurring once lives in one argument only, so no other
      argument holds the same statement. */
  lemma OnlyArgument(args: seq<TupleExpr>, bags: seq<multiset<string>>, k: nat, v: string)
    requires |bags| == |args| && k < |args| && v in bags[k] && CountUpTo(bags, |bags|, v) == 1
    requires SameBags(args, bags)
    ensures forall i :: 0 <= i < |args| && i != k && args[i].Stmt? && args[k].Stmt? ==> args[i].st != args[k].st
  {
    forall i | 0 <= i < |args| && i != k && args[i].Stmt? && args[k].Stmt?
      ensures args[i].st != args[k].st
    {
      if args[i].st == args[k].st {
        assert args[i] == args[k];
        if i < k { CountTwo(bags, |bags|, i, k, v); } else { CountTwo(bags, |bags|, k, i, v); }
      }
    }
  }

  lemma DistinctAppend(s: seq<string>, v: string)
    requires Distinct(s) && v !in Elems(s)
    ensures Distinct(s + [v]) && Elems(s + [v]) == Elems(s) + {v}
  {
  }

  /** The entries the registration loop acts on for argument `i` are exactly
      that argument's local names. */
  lemma RegisteredAreLocal(m: map<string, seq<nat>>, bags: seq<multiset<string>>, g: set<string>, i: nat)
    requires i < |bags| && IsVarArgsMap(m, bags, |bags|, g)
    ensures Registered(m, {}, i) == LocalNames(bags, g, i)
  {
    forall v
      ensures (v in m && m[v] == [i]) <==> v in LocalNames(bags, g, i)
    {
      SingleArgument(bags, v, i);
    }
  }

  /** A join whose arguments are all FedX statement tuples. */
  predicate AllStatementTuples(args: seq<TupleExpr>)
  {
    forall i :: 0 <= i < |args| ==> IsStatementTupleExpr(args[i])
  }

  lemma MultisetOfDistinct(r: seq<string>, s: set<string>)
    requires Elems(r) == s && Distinct(r)
    ensures forall v :: multiset(r)[v] == multiset(s)[v]
  {
    forall v
      ensures multiset(r)[v] == multiset(s)[v]
    {
      if v in r {
        var k :| 0 <= k < |r| && r[k] == v;
        assert r == r[..k] + [v] + r[k + 1..];
        assert v !in r[..k] && v !in r[k + 1..];
      }
    }
  }

  /** The map after the first `n` arguments and the part `c` of the next
      argument's list have been read. */
  ghost predicate IsPartialMap(m: map<string, seq<nat>>, bags: seq<multiset<string>>, n: nat, c: multiset<string>,
                               g: set<string>)
    requires n < |bags|
  {
    (forall v :: v in m <==> v !in g && |IndicesUpTo(bags, n, v)| + c[v] > 0)
    && (forall v :: v in m ==> m[v] == IndicesUpTo(bags, n, v) + Repeat(n, c[v]))
  }

  lemma PartialEmpty(m: map<string, seq<nat>>, bags: seq<multiset<string>>, n: nat, g: set<string>)
    requires n < |bags| && IsVarArgsMap(m, bags, n, g)
    ensures IsPartialMap(m, bags, n, multiset{}, g)
  {
  }

  /** Reading one more name `x` of the argument's list. */
  lemma PartialStep(m: map<string, seq<nat>>, m': map<string, seq<nat>>, bags: seq<multiset<string>>, n: nat,
                    c: multiset<string>, g: set<string>, x: string)
    requires n < |bags| && IsPartialMap(m, bags, n, c, g)
    requires m' == if x in g then m else m[x := (if x in m then m[x] else []) + [n]]
    ensures IsPartialMap(m', bags, n, c + multiset{x}, g)
  {
    PartialStepKeys(m, m', bags, n, c, g, x);
    PartialStepValues(m, m', bags, n, c, g, x);
  }

  lemma PartialStepKeys(m: map<string, seq<nat>>, m': map<string, seq<nat>>, bags: seq<multiset<string>>, n: nat,
                        c: multiset<string>, g: set<string>, x: string)
    requires n < |bags| && IsPartialMap(m, bags, n, c, g)
    requires m' == if x in g then m else m[x := (if x in m then m[x] else []) + [n]]
    ensures forall v :: v in m' <==> v !in g && |IndicesUpTo(bags, n, v)| + (c + multiset{x})[v] > 0
  {
    forall v
      ensures v in m' <==> v !in g && |IndicesUpTo(bags, n, v)| + (c + multiset{x})[v] > 0
    {
      if v != x {
        assert (c + multiset{x})[v] == c[v];
      }
    }
  }

  lemma PartialStepValues(m: map<string, seq<nat>>, m': map<string, seq<nat>>, bags: seq<multiset<string>>, n: nat,
                          c: multiset<string>, g: set<string>, x: string)
    requires n < |bags| && IsPartialMap(m, bags, n, c, g)
    requires m' == if x in g then m else m[x := (if x in m then m[x] else []) + [n]]
    ensures forall v :: v in m' ==> m'[v] == IndicesUpTo(bags, n, v) + Repeat(n, (c + multiset{x})[v])
  {
    forall v | v in m'
      ensures m'[v] == IndicesUpTo(bags, n, v) + Repeat(n, (c + multiset{x})[v])
    {
      if v != x {
        assert (c + multiset{x})[v] == c[v];
      } else {
        assert (c + multiset{x})[v] == c[v] + 1 && x !in g;
        assert Repeat(n, c[v] + 1) == Repeat(n, c[v]) + [n];
        if x in m {
          assert m'[v] == (IndicesUpTo(bags, n, v) + Repeat(n, c[v])) + [n];
        } else {
          assert |IndicesUpTo(bags, n, v)| + c[v] == 0;
        }
      }
    }
  }

  lemma PartialDone(m: map<string, seq<nat>>, bags: seq<multiset<string>>, n: nat, g: set<string>)
    requires n < |bags| && IsPartialMap(m, bags, n, bags[n], g)
    ensures IsVarArgsMap(m, bags, n + 1, g)
  {
  }

  /** One name of argument `i`'s list read into the map. */
  function AddName(m: map<string, seq<nat>>, i: nat, x: string, g: set<string>): map<string, seq<nat>>
  {
    if x in g then m else m[x := (if x in m then m[x] else []) + [i]]
  }

  /** Argument `i`'s list read into the map, name by name. */
  function AddNames(m: map<string, seq<nat>>, i: nat, vs: seq<string>, g: set<string>): map<string, seq<nat>>
  {
    if vs == [] then m else AddName(AddNames(m, i, vs[..|vs| - 1], g), i, vs[|vs| - 1], g)
  }

  /** All arguments' lists read into an empty map, in argument order. */
  function CollectLists(lists: seq<seq<string>>, g: set<string>): map<string, seq<nat>>
  {
    if lists == [] then map[]
    else AddNames(CollectLists(lists[..|lists| - 1], g), |lists| - 1, lists[|lists| - 1], g)
  }

  lemma {:induction false} AddNamesSpec(m: map<string, seq<nat>>, bags: seq<multiset<string>>, i: nat,
                                        vs: seq<string>, g: set<string>)
    requires i < |bags| && IsVarArgsMap(m, bags, i, g)
    ensures IsPartialMap(AddNames(m, i, vs, g), bags, i, multiset(vs), g)
  {
    if vs == [] {
      PartialEmpty(m, bags, i, g);
    } else {
      var front, x := vs[..|vs| - 1], vs[|vs| - 1];
      assert vs == front + [x];
      assert multiset(vs) == multiset(front) + multiset{x};
      AddNamesSpec(m, bags, i, front, g);
      PartialStep(AddNames(m, i, front, g), AddNames(m, i, vs, g), bags, i, multiset(front), g, x);
    }
  }

  /** The lists read so far have the arguments' bags. */
  ghost predicate ListsMatch(lists: seq<seq<string>>, bags: seq<multiset<string>>)
  {
    |lists| <= |bags| && forall k :: 0 <= k < |lists| ==> multiset(lists[k]) == bags[k]
  }

  lemma ListsStep(lists: seq<seq<string>>, bags: seq<multiset<string>>, vs: seq<string>, g: set<string>)
    requires ListsMatch(lists, bags) && |lists| < |bags| && multiset(vs) == bags[|lists|]
    ensures ListsMatch(lists + [vs], bags)
    ensures CollectLists(lists + [vs], g) == AddNames(CollectLists(lists, g), |lists|, vs, g)
  {
    assert (lists + [vs])[..|lists|] == lists;
  }

  /** Reading the lists of the arguments yields the map `meetNJoin` relies on,
      whatever order each list has. */
  lemma {:induction false} CollectListsSpec(lists: seq<seq<string>>, bags: seq<multiset<string>>, g: set<string>)
    requires ListsMatch(lists, bags)
    ensures IsVarArgsMap(CollectLists(lists, g), bags, |lists|, g)
  {
    if lists != [] {
      var n := |lists| - 1;
      CollectListsSpec(lists[..n], bags, g);
      AddNamesSpec(CollectLists(lists[..n], g), bags, n, lists[n], g);
      PartialDone(AddNames(CollectLists(lists[..n], g), n, lists[n], g), bags, n, g);
    }
  }

  /** Every entry with a single argument names an argument listing its
      variable, and the variable occurs only there. */
  ghost predicate SingleEntriesSound(m: map<string, seq<nat>>, bags: seq<multiset<string>>)
  {
    forall v :: v in m && |m[v]| == 1 ==> m[v][0] < |bags| && v in bags[m[v][0]] && CountUpTo(bags, |bags|, v) == 1
  }

  lemma SingleEntries(m: map<string, seq<nat>>, bags: seq<multiset<string>>, g: set<string>)
    requires IsVarArgsMap(m, bags, |bags|, g)
    ensures SingleEntriesSound(m, bags)
  {
    forall v | v in m && |m[v]| == 1
      ensures m[v][0] < |bags| && v in bags[m[v][0]] && CountUpTo(bags, |bags|, v) == 1
    {
      IndicesSpec(bags, |bags|, v);
      assert m[v][0] in m[v];
    }
  }

  /** Each argument's registrations so far are distinct and are the
      single-argument entries outside `keys`. */
  ghost predicate AddedMatches(added: seq<seq<string>>, m: map<string, seq<nat>>, keys: set<string>)
  {
    forall i :: 0 <= i < |added| ==> Distinct(added[i]) && Elems(added[i]) == Registered(m, keys, i)
  }

  /** The local variables of the statement arguments. */
  function LocalsOf(args: seq<TupleExpr>): (r: seq<seq<string>>)
    reads StmtArgs(args)
    ensures |r| == |args|
    ensures forall i :: 0 <= i < |args| && args[i].Stmt? ==> r[i] == args[i].st.localVars
  {
    if args == [] then []
    else
      assert StmtArgs(args[..|args| - 1]) <= StmtArgs(args);
      LocalsOf(args[..|args| - 1]) + [if args[|args| - 1].Stmt? then args[|args| - 1].st.localVars else []]
  }

  /** Every statement argument holds its old local variables followed by its
      registrations. */
  ghost predicate LocalsAre(args: seq<TupleExpr>, before: seq<seq<string>>, added: seq<seq<string>>)
    reads StmtArgs(args)
  {
    |before| == |args| == |added|
    && forall i :: 0 <= i < |args| && args[i].Stmt? ==> args[i].st.localVars == before[i] + added[i]
  }

  /** A registration on a group changes no statement. */
  lemma OtherArgument(args: seq<TupleExpr>, k: nat, x: seq<string>, before: seq<seq<string>>, added: seq<seq<string>>)
    requires k < |args| && !args[k].Stmt? && LocalsAre(args, before, added)
    ensures LocalsAre(args, before, added[k := added[k] + x])
  {
  }

  /** Once every entry is handled, each statement's new local variables are
      exactly its registrations. */
  lemma RegisterDone(args: seq<TupleExpr>, m: map<string, seq<nat>>, before: seq<seq<string>>, added: seq<seq<string>>)
    requires LocalsAre(args, before, added) && AddedMatches(added, m, {})
    ensures forall i :: 0 <= i < |args| && args[i].Stmt? ==>
      var st := args[i].st;
      |before[i]| <= |st.localVars|
      && st.localVars[..|before[i]|] == before[i]
      && Distinct(st.localVars[|before[i]|..])
      && Elems(st.localVars[|before[i]|..]) == Registered(m, {}, i)
  {
    forall i | 0 <= i < |args| && args[i].Stmt?
      ensures args[i].st.localVars[..|before[i]|] == before[i] && args[i].st.localVars[|before[i]|..] == added[i]
    {
    }
  }

  // ---------------------------------------------------------------------------
  // The optimizer
  // ---------------------------------------------------------------------------

  class VariableScopeOptimizer {
    var globalVariables: set<string>

    constructor ()
      ensures globalVariables == {}
    {
      globalVariables := {};
    }

    /** `isProjection(var)`. */
    predicate IsProjection(v: string)
      reads this
    {
      v in globalVariables
    }

    /** `meetTupleExpression` on a FedX statement: every free variable that is
        not global is appended to the local variables, in order. A group in
        this model keeps no local variables, so the method applies to
        statements only. */
    method MeetTupleExpression(st: FedXStatementPattern)
      modifies st`localVars
      ensures st.localVars == old(st.localVars) + NonGlobal(st.freeVars, globalVariables)
    {
      var vs := st.freeVars;
      var j := 0;
      while j < |vs|
        invariant 0 <= j <= |vs|
        invariant st.localVars == old(st.localVars) + NonGlobal(vs[..j], globalVariables)
      {
        NonGlobalAppend(vs, globalVariables, j);
        if !IsProjection(vs[j]) {
          st.AddLocalVar(vs[j]);
        }
        j := j + 1;
      }
      assert vs[..j] == vs;
    }

    /** First half of `meetNJoin`: the map from each non-global variable to
        the arguments listing it, one entry per occurrence; `ok` is false when
        an argument is not a FedX statement tuple. */
    method CollectArgs(args: seq<TupleExpr>) returns (ok: bool, m: map<string, seq<nat>>)
      ensures ok <==> AllStatementTuples(args)
      ensures ok ==> IsVarArgsMap(m, Bags(args), |args|, globalVariables)
    {
      ghost var bags := Bags(args);
      ghost var lists: seq<seq<string>> := [];
      m := map[];
      var i := 0;
      while i < |args|
        invariant 0 <= i <= |args| && |lists| == i
        invariant forall k :: 0 <= k < i ==> IsStatementTupleExpr(args[k])
        invariant ListsMatch(lists, bags)
        invariant m == CollectLists(lists, globalVariables)
      {
        var t := args[i];
        if !IsStatementTupleExpr(t) {
          assert !AllStatementTuples(args);
          return false, m;
        }
        var vs := FreeVarsOf(t);
        m := AddArgument(m, i, vs);
        ListsStep(lists, bags, vs, globalVariables);
        lists := lists + [vs];
        i := i + 1;
      }
      CollectListsSpec(lists, bags, globalVariables);
      assert bags == Bags(args);
      ok := true;
    }

    /** `StatementTupleExpr.getFreeVars()`: a statement's list, or a fresh
        list of a group's variables. */
    method FreeVarsOf(t: TupleExpr) returns (vs: seq<string>)
      requires IsStatementTupleExpr(t)
      ensures multiset(vs) == Bag(t)
    {
      if t.Stmt? {
        vs := t.st.freeVars;
      } else {
        vs := t.g.FreeVarList();
        MultisetOfDistinct(vs, t.g.freeVars);
      }
    }

    /** The inner loop of the first half: every non-global name of argument
        `i`'s list adds `i` to its entry. */
    method AddArgument(m0: map<string, seq<nat>>, i: nat, vs: seq<string>) returns (m: map<string, seq<nat>>)
      ensures m == AddNames(m0, i, vs, globalVariables)
    {
      m := m0;
      var j := 0;
      while j < |vs|
        invariant 0 <= j <= |vs|
        invariant m == AddNames(m0, i, vs[..j], globalVariables)
      {
        var x := vs[j];
        assert vs[..j + 1][..j] == vs[..j];
        if !IsProjection(x) {
          var l := if x in m then m[x] else [];
          m := m[x := l + [i]];
        }
        j := j + 1;
      }
      assert vs[..j] == vs;
    }

    /** `meetNJoin`: if some argument is not a FedX statement tuple nothing is
        registered; otherwise each statement argument gets, once each and in
        some order, the non-global variables that occur exactly once across
        all arguments' free-variable lists and do so in it. */
    method MeetNJoin(args: seq<TupleExpr>)
      modifies StmtArgs(args)`localVars
      ensures !AllStatementTuples(args) ==>
        forall i :: 0 <= i < |args| && args[i].Stmt? ==> args[i].st.localVars == old(args[i].st.localVars)
      ensures AllStatementTuples(args) ==>
        forall i :: 0 <= i < |args| && args[i].Stmt? ==>
          var st := args[i].st;
          |old(st.localVars)| <= |st.localVars|
          && st.localVars[..|old(st.localVars)|] == old(st.localVars)
          && Distinct(st.localVars[|old(st.localVars)|..])
          && Elems(st.localVars[|old(st.localVars)|..]) == LocalNames(old(Bags(args)), globalVariables, i)
    {
      ghost var bags := Bags(args);
      var ok, m := CollectArgs(args);
      if !ok {
        return;
      }
      assert bags == Bags(args);
      SameArgumentSameBag(args, bags);
      SingleEntries(m, bags, globalVariables);
      Register(args, m, bags);
      forall i | 0 <= i < |args|
        ensures Registered(m, {}, i) == LocalNames(bags, globalVariables, i)
      {
        RegisteredAreLocal(m, bags, globalVariables, i);
      }
    }

    /** Second half of `meetNJoin`: every entry with a single argument
        registers its variable on that argument. */
    method Register(args: seq<TupleExpr>, m: map<string, seq<nat>>, ghost bags: seq<multiset<string>>)
      requires |bags| == |args| && SameBags(args, bags) && SingleEntriesSound(m, bags)
      modifies StmtArgs(args)`localVars
      ensures forall i :: 0 <= i < |args| && args[i].Stmt? ==>
        var st := args[i].st;
        |old(st.localVars)| <= |st.localVars|
        && st.localVars[..|old(st.localVars)|] == old(st.localVars)
        && Distinct(st.localVars[|old(st.localVars)|..])
        && Elems(st.localVars[|old(st.localVars)|..]) == Registered(m, {}, i)
    {
      ghost var before := LocalsOf(args);
      ghost var added: seq<seq<string>> := seq(|args|, _ => []);
      var keys := m.Keys;
      while keys != {}
        invariant keys <= m.Keys && |added| == |args|
        invariant LocalsAre(args, before, added) && AddedMatches(added, m, keys)
        invariant forall i :: 0 <= i < |args| && args[i].Stmt? ==> before[i] == old(args[i].st.localVars)
        decreases |keys|
      {
        var v :| v in keys;
        RegisterStep(m, keys, v, added);
        if |m[v]| == 1 {
          var k := m[v][0];
          OnlyArgument(args, bags, k, v);
          if args[k].Stmt? {
            AddToArgument(args, k, v, before, added);
          } else {
            OtherArgument(args, k, [v], before, added);
          }
        }
        added := NextAdded(m, v, added);
        keys := keys - {v};
      }
      RegisterDone(args, m, before, added);
    }

    /** `st.addLocalVar(var)` on the one argument an entry names; no other
        argument holds the same statement. */
    method AddToArgument(args: seq<TupleExpr>, k: nat, v: string, ghost before: seq<seq<string>>,
                         ghost added: seq<seq<string>>)
      requires k < |args| == |added| && args[k].Stmt? && LocalsAre(args, before, added)
      requires forall i :: 0 <= i < |args| && i != k && args[i].Stmt? ==> args[i].st != args[k].st
      modifies args[k].st`localVars
      ensures LocalsAre(args, before, added[k := added[k] + [v]])
    {
      args[k].st.AddLocalVar(v);
    }

    /** `optimize` / the visitor: `globalVariables` becomes the old set plus
        every name met; only statements the traversal reaches are changed. */
    method Visit(t: TupleExpr)
      modifies this`globalVariables, Reached(t)`localVars
      ensures globalVariables == GlobalsAfter(t, old(globalVariables))
      decreases Size(t), 0
    {
      match t
      case StatementNode(s, p, o, c) =>
        globalVariables := globalVariables + PatternNames(s, p, o, c);
      case Stmt(st) =>
        MeetTupleExpression(st);
      case NJoin(args) =>
        MeetNJoin(args);
      case Filter(cond, a) =>
        globalVariables := globalVariables + VarNames(cond);
        Visit(a);
      case Projection(es, a) =>
        globalVariables := globalVariables + ElemNames(es);
        Visit(a);
      case ProjectionWithBindings(es, a, _) =>
        globalVariables := globalVariables + ElemNames(es);
        Visit(a);
      case Slice(_, a) =>
        Visit(a);
      case Join(l, r) =>
        Visit(l);
        Visit(r);
      case Union(l, r) =>
        Visit(l);
        Visit(r);
      case NUnion(args) =>
        VisitAll(args);
      case OtherNode(_, es, cs) =>
        globalVariables := globalVariables + VarNamesAll(es);
        VisitAll(cs);
      case _ =>
    }

    method VisitAll(ts: seq<TupleExpr>)
      modifies this`globalVariables, ReachedAll(ts)`localVars
      ensures globalVariables == GlobalsAfterAll(ts, old(globalVariables))
      decreases SizeAll(ts), 1
    {
      if ts != [] {
        Visit(ts[0]);
        VisitAll(ts[1..]);
      }
    }
  }
}
