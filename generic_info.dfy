/** `GenericInfoOptimizer`: one pass over the query that records whether it
    has a UNION, a FILTER or a SERVICE, collects the statement patterns for
    source selection, remembers the LIMIT of the outer query, and replaces
    every join by the flattened n-ary join. */
module GenericInfoOptimizers {
  import opened Util
  import opened Rdf
  import opened Algebra
  import opened StatementPatterns
  import opened ExclusiveGroups
  import opened QueryTree

  // ---------------------------------------------------------------------------
  // Join flattening
  // ---------------------------------------------------------------------------

  /** `OptimizerUtil.flattenJoin`: the arguments of directly nested joins, left
      to right. */
  function JoinArgs(t: TupleExpr): (r: seq<TupleExpr>)
    ensures forall a :: a in r ==> !a.Join?
  {
    if t.Join? then JoinArgs(t.left) + JoinArgs(t.right) else [t]
  }

  lemma {:induction false} SizeAllAppend(a: seq<TupleExpr>, b: seq<TupleExpr>)
    ensures SizeAll(a + b) == SizeAll(a) + SizeAll(b)
  {
    if a != [] {
      assert (a + b)[1..] == a[1..] + b;
      SizeAllAppend(a[1..], b);
    } else {
      assert a + b == b;
    }
  }

  /** Flattening loses only the join nodes themselves. */
  lemma {:induction false} JoinArgsSize(t: TupleExpr)
    ensures SizeAll(JoinArgs(t)) <= Size(t)
  {
    if t.Join? {
      JoinArgsSize(t.left);
      JoinArgsSize(t.right);
      SizeAllAppend(JoinArgs(t.left), JoinArgs(t.right));
    } else {
      assert SizeAll([t]) == Size(t) + SizeAll([]);
    }
  }

  lemma JoinArgsSmaller(t: TupleExpr)
    requires t.Join?
    ensures SizeAll(JoinArgs(t)) < Size(t)
  {
    JoinArgsSize(t.left);
    JoinArgsSize(t.right);
    SizeAllAppend(JoinArgs(t.left), JoinArgs(t.right));
  }

  // ---------------------------------------------------------------------------
  // The rewritten tree
  // ---------------------------------------------------------------------------

  /** The tree after the pass: every join reached is an n-ary join over the
      rewritten flattened arguments; a SERVICE is left as it is. */
  function Rewrite(t: TupleExpr): TupleExpr
    decreases Size(t), 1
  {
    match t
    case Filter(c, a) => Filter(c, Rewrite(a))
    case Union(l, r) => Union(Rewrite(l), Rewrite(r))
    case Join(_, _) =>
      JoinArgsSmaller(t);
      NJoin(RewriteAll(JoinArgs(t)))
    case Projection(es, a) => Projection(es, Rewrite(a))
    case ProjectionWithBindings(es, a, b) => ProjectionWithBindings(es, Rewrite(a), b)
    case Slice(n, a) => Slice(n, Rewrite(a))
    case NJoin(args) => NJoin(RewriteAll(args))
    case NUnion(args) => NUnion(RewriteAll(args))
    case LeftJoin(l, r, c) => LeftJoin(Rewrite(l), Rewrite(r), c)
    case OtherNode(n, es, cs) => OtherNode(n, es, RewriteAll(cs))
    case _ => t
  }

  function RewriteAll(ts: seq<TupleExpr>): (r: seq<TupleExpr>)
    ensures |r| == |ts|
    decreases SizeAll(ts), 2
  {
    if ts == [] then [] else [Rewrite(ts[0])] + RewriteAll(ts[1..])
  }

  /** No join is left on the paths the pass walks. */
  predicate NoJoin(t: TupleExpr)
    decreases Size(t), 0
  {
    match t
    case Join(_, _) => false
    case Filter(_, a) => NoJoin(a)
    case Union(l, r) => NoJoin(l) && NoJoin(r)
    case Projection(_, a) => NoJoin(a)
    case ProjectionWithBindings(_, a, _) => NoJoin(a)
    case Slice(_, a) => NoJoin(a)
    case NJoin(args) => NoJoinAll(args)
    case NUnion(args) => NoJoinAll(args)
    case LeftJoin(l, r, _) => NoJoin(l) && NoJoin(r)
    case OtherNode(_, _, cs) => NoJoinAll(cs)
    case _ => true
  }

  predicate NoJoinAll(ts: seq<TupleExpr>)
    decreases SizeAll(ts), 1
  {
    ts == [] || (NoJoin(ts[0]) && NoJoinAll(ts[1..]))
  }

  /** After the pass no binary join is left outside SERVICE bodies. */
  lemma {:induction false} RewriteFlattens(t: TupleExpr)
    ensures NoJoin(Rewrite(t))
    decreases Size(t), 1
  {
    match t
    case Filter(c, a) =>
      RewriteFlattens(a);
      assert Rewrite(t) == Filter(c, Rewrite(a));
    case Union(l, r) =>
      RewriteFlattens(l);
      RewriteFlattens(r);
      assert Rewrite(t) == Union(Rewrite(l), Rewrite(r));
    case Join(l, r) =>
      JoinArgsSmaller(t);
      RewriteAllFlattens(JoinArgs(t));
      assert Rewrite(t) == NJoin(RewriteAll(JoinArgs(t)));
    case Projection(es, a) =>
      RewriteFlattens(a);
      assert Rewrite(t) == Projection(es, Rewrite(a));
    case ProjectionWithBindings(es, a, b) =>
      RewriteFlattens(a);
      assert Rewrite(t) == ProjectionWithBindings(es, Rewrite(a), b);
    case Slice(n, a) =>
      RewriteFlattens(a);
      assert Rewrite(t) == Slice(n, Rewrite(a));
    case NJoin(args) =>
      RewriteAllFlattens(args);
      assert Rewrite(t) == NJoin(RewriteAll(args));
    case NUnion(args) =>
      RewriteAllFlattens(args);
      assert Rewrite(t) == NUnion(RewriteAll(args));
    case LeftJoin(l, r, c) =>
      RewriteFlattens(l);
      RewriteFlattens(r);
      assert Rewrite(t) == LeftJoin(Rewrite(l), Rewrite(r), c);
    case OtherNode(n, es, cs) =>
      RewriteAllFlattens(cs);
      assert Rewrite(t) == OtherNode(n, es, RewriteAll(cs));
    case _ =>
  }

  lemma {:induction false} RewriteAllFlattens(ts: seq<TupleExpr>)
    ensures NoJoinAll(RewriteAll(ts))
    decreases SizeAll(ts), 2
  {
    if ts != [] {
      RewriteFlattens(ts[0]);
      RewriteAllFlattens(ts[1..]);
      assert RewriteAll(ts)[1..] == RewriteAll(ts[1..]);
    }
  }

  // ---------------------------------------------------------------------------
  // The nodes the pass meets, in order
  // ---------------------------------------------------------------------------

  /** Every node the visitor meets, in visit order: depth first, children left
      to right, nothing below a SERVICE; the arguments of a join are met
      through its flattened form, so the join nodes themselves are not. */
  function Visited(t: TupleExpr): seq<TupleExpr>
    decreases Size(t), 0
  {
    match t
    case Join(l, r) => Visited(l) + Visited(r)
    case Filter(_, a) => [t] + Visited(a)
    case Union(l, r) => [t] + Visited(l) + Visited(r)
    case Projection(_, a) => [t] + Visited(a)
    case ProjectionWithBindings(_, a, _) => [t] + Visited(a)
    case Slice(_, a) => [t] + Visited(a)
    case NJoin(args) => [t] + VisitedAll(args)
    case NUnion(args) => [t] + VisitedAll(args)
    case LeftJoin(l, r, _) => [t] + Visited(l) + Visited(r)
    case OtherNode(_, _, cs) => [t] + VisitedAll(cs)
    case _ => [t]
  }

  function VisitedAll(ts: seq<TupleExpr>): seq<TupleExpr>
    decreases SizeAll(ts), 1
  {
    if ts == [] then [] else Visited(ts[0]) + VisitedAll(ts[1..])
  }

  lemma {:induction false} VisitedAllAppend(a: seq<TupleExpr>, b: seq<TupleExpr>)
    ensures VisitedAll(a + b) == VisitedAll(a) + VisitedAll(b)
  {
    if a != [] {
      assert (a + b)[1..] == a[1..] + b;
      VisitedAllAppend(a[1..], b);
    } else {
      assert a + b == b;
    }
  }

  /** Visiting the flattened arguments meets what visiting the join meets. */
  lemma {:induction false} VisitedJoinArgs(t: TupleExpr)
    ensures VisitedAll(JoinArgs(t)) == Visited(t)
  {
    if t.Join? {
      VisitedJoinArgs(t.left);
      VisitedJoinArgs(t.right);
      VisitedAllAppend(JoinArgs(t.left), JoinArgs(t.right));
    } else {
      assert VisitedAll([t]) == Visited(t) + VisitedAll([]);
    }
  }

  // ---------------------------------------------------------------------------
  // The collected information
  // ---------------------------------------------------------------------------

  datatype Info = Info(hasFilter: bool, hasUnion: bool, hasService: bool, limit: int,
                       stmts: seq<TupleExpr>, seenProjection: bool)

  /** The fields of a new optimizer: no flag set, no limit, no statement. */
  const Initial := Info(false, false, false, -1, [], false)

  predicate IsProjection(n: TupleExpr)
  {
    n.Projection? || n.ProjectionWithBindings?
  }

  /** What meeting one node records. */
  function Step(s: Info, n: TupleExpr): Info
  {
    match n
    case StatementNode(_, _, _, _) => s.(stmts := s.stmts + [n])
    case Filter(_, _) => s.(hasFilter := true)
    case Union(_, _) => s.(hasUnion := true)
    case Service(_, _) => s.(hasService := true)
    case Projection(_, _) => s.(seenProjection := true)
    case ProjectionWithBindings(_, _, _) => s.(seenProjection := true)
    case Slice(lim, _) => if s.seenProjection then s else s.(limit := lim)
    case _ => s
  }

  /** What `Step` changes, field by field. */
  lemma StepFields(s: Info, n: TupleExpr)
    ensures Step(s, n).stmts == s.stmts + (if n.StatementNode? then [n] else [])
    ensures Step(s, n).hasFilter == (s.hasFilter || n.Filter?)
    ensures Step(s, n).hasUnion == (s.hasUnion || n.Union?)
    ensures Step(s, n).hasService == (s.hasService || n.Service?)
    ensures Step(s, n).seenProjection == (s.seenProjection || IsProjection(n))
    ensures Step(s, n).limit == if n.Slice? && !s.seenProjection then n.limit else s.limit
  {
  }

  /** The information after meeting the nodes `v` in order. */
  function Run(v: seq<TupleExpr>, s: Info): Info
  {
    if v == [] then s else Run(v[1..], Step(s, v[0]))
  }

  lemma {:induction false} RunAppend(a: seq<TupleExpr>, b: seq<TupleExpr>, s: Info)
    ensures Run(a + b, s) == Run(b, Run(a, s))
  {
    if a != [] {
      assert (a + b)[1..] == a[1..] + b;
      RunAppend(a[1..], b, Step(s, a[0]));
    } else {
      assert a + b == b;
    }
  }

  lemma RunCons(n: TupleExpr, v: seq<TupleExpr>, s: Info)
    ensures Run([n] + v, s) == Run(v, Step(s, n))
  {
    assert ([n] + v)[1..] == v;
  }

  /** The statement patterns among `v`, in order. */
  function Patterns(v: seq<TupleExpr>): (r: seq<TupleExpr>)
    ensures forall n :: n in r ==> n.StatementNode?
  {
    if v == [] then [] else (if v[0].StatementNode? then [v[0]] else []) + Patterns(v[1..])
  }

  /** `stmts` grows by exactly the statement patterns met, in visit order. */
  lemma {:induction false} RunStatements(v: seq<TupleExpr>, s: Info)
    ensures Run(v, s).stmts == s.stmts + Patterns(v)
  {
    if v != [] {
      StepFields(s, v[0]);
      RunStatements(v[1..], Step(s, v[0]));
      assert Patterns(v) == (if v[0].StatementNode? then [v[0]] else []) + Patterns(v[1..]);
    }
  }

  /** Each flag ends up set iff it was set or a node of its kind was met; the
      flags are never cleared. */
  lemma {:induction false} RunFlags(v: seq<TupleExpr>, s: Info)
    ensures Run(v, s).hasFilter <==> s.hasFilter || exists i :: 0 <= i < |v| && v[i].Filter?
    ensures Run(v, s).hasUnion <==> s.hasUnion || exists i :: 0 <= i < |v| && v[i].Union?
    ensures Run(v, s).hasService <==> s.hasService || exists i :: 0 <= i < |v| && v[i].Service?
    ensures Run(v, s).seenProjection <==> s.seenProjection || exists i :: 0 <= i < |v| && IsProjection(v[i])
  {
    if v != [] {
      StepFields(s, v[0]);
      RunFlags(v[1..], Step(s, v[0]));
      forall i | 0 < i < |v|
        ensures v[i] == v[1..][i - 1]
      {
      }
    }
  }

  /** Once a projection has been met, the limit no longer changes. */
  lemma {:induction false} RunLimitAfterProjection(v: seq<TupleExpr>, s: Info)
    requires s.seenProjection
    ensures Run(v, s).limit == s.limit && Run(v, s).seenProjection
  {
    if v != [] {
      StepFields(s, v[0]);
      RunLimitAfterProjection(v[1..], Step(s, v[0]));
    }
  }

  /** The limit is the old one, or the limit of a slice met while no
      projection had been met, neither before the pass nor earlier in it. */
  lemma {:induction false} RunLimitSource(v: seq<TupleExpr>, s: Info)
    ensures Run(v, s).limit == s.limit
            || exists i :: 0 <= i < |v| && v[i].Slice? && Run(v, s).limit == v[i].limit && !s.seenProjection
                           && forall j :: 0 <= j < i ==> !IsProjection(v[j])
  {
    if v != [] {
      var s1 := Step(s, v[0]);
      StepFields(s, v[0]);
      RunLimitSource(v[1..], s1);
      var r := Run(v, s);
      if r.limit != s.limit {
        if r.limit == s1.limit {
          assert v[0].Slice? && !s.seenProjection;
        } else {
          var i :| 0 <= i < |v[1..]| && v[1..][i].Slice? && r.limit == v[1..][i].limit && !s1.seenProjection
                   && forall j :: 0 <= j < i ==> !IsProjection(v[1..][j]);
          assert !IsProjection(v[0]) && !s.seenProjection;
          assert v[i + 1] == v[1..][i];
          forall j | 0 <= j < i + 1
            ensures !IsProjection(v[j])
          {
            if j > 0 {
              assert v[j] == v[1..][j - 1];
            }
          }
        }
      }
    }
  }

  // ---------------------------------------------------------------------------
  // The optimizer
  // ---------------------------------------------------------------------------

  class GenericInfoOptimizer {
    var hasFilter: bool
    var hasUnion: bool
    var hasService: bool
    /** The limit of the outer query; -1 while none has been seen. */
    var limit: int
    var stmts: seq<TupleExpr>
    var seenProjection: bool

    function State(): Info
      reads this
    {
      Info(hasFilter, hasUnion, hasService, limit, stmts, seenProjection)
    }

    constructor ()
      ensures State() == Initial
    {
      hasFilter, hasUnion, hasService := false, false, false;
      limit := -1;
      stmts := [];
      seenProjection := false;
    }

    /** `hasLimit()`. */
    predicate HasLimit()
      reads this
    {
      limit > 0
    }

    /** `optimize(tupleExpr)`: visits the tree; returns it with every join
        replaced by its flattened n-ary join. */
    method Optimize(t: TupleExpr) returns (r: TupleExpr)
      modifies this
      ensures r == Rewrite(t)
      ensures State() == Run(Visited(t), old(State()))
      decreases Size(t), 3
    {
      var s := State();
      match t
      case StatementNode(_, _, _, _) =>
        stmts := stmts + [t];
        RunCons(t, [], s);
        r := t;
      case Service(_, _) =>
        hasService := true;
        RunCons(t, [], s);
        r := t;
      case Join(l, rt) =>
        JoinArgsSmaller(t);
        VisitedJoinArgs(t);
        var args := OptimizeAll(JoinArgs(t));
        r := NJoin(args);
      case Filter(_, _) => r := OptimizeUnary(t);
      case Projection(_, _) => r := OptimizeUnary(t);
      case ProjectionWithBindings(_, _, _) => r := OptimizeUnary(t);
      case Slice(_, _) => r := OptimizeUnary(t);
      case Union(_, _) => r := OptimizeBinary(t);
      case LeftJoin(_, _, _) => r := OptimizeBinary(t);
      case NJoin(_) => r := OptimizeNary(t);
      case NUnion(_) => r := OptimizeNary(t);
      case OtherNode(_, _, _) => r := OptimizeNary(t);
      case _ =>
        RunCons(t, [], s);
        r := t;
    }

    /** The meets of the nodes with one tuple child. */
    method OptimizeUnary(t: TupleExpr) returns (r: TupleExpr)
      requires t.Filter? || t.Projection? || t.ProjectionWithBindings? || t.Slice?
      modifies this
      ensures r == Rewrite(t)
      ensures State() == Run(Visited(t), old(State()))
      decreases Size(t), 2
    {
      var s := State();
      match t
      case Filter(c, a) =>
        hasFilter := true;
        RunCons(t, Visited(a), s);
        var a' := Optimize(a);
        r := Filter(c, a');
      case Projection(es, a) =>
        seenProjection := true;
        RunCons(t, Visited(a), s);
        var a' := Optimize(a);
        r := Projection(es, a');
      case ProjectionWithBindings(es, a, b) =>
        seenProjection := true;
        RunCons(t, Visited(a), s);
        var a' := Optimize(a);
        r := ProjectionWithBindings(es, a', b);
      case Slice(n, a) =>
        if !seenProjection {
          limit := n;
        }
        RunCons(t, Visited(a), s);
        var a' := Optimize(a);
        r := Slice(n, a');
    }

    /** The meets of the nodes with two tuple children. */
    method OptimizeBinary(t: TupleExpr) returns (r: TupleExpr)
      requires t.Union? || t.LeftJoin?
      modifies this
      ensures r == Rewrite(t)
      ensures State() == Run(Visited(t), old(State()))
      decreases Size(t), 2
    {
      var s := State();
      if t.Union? {
        hasUnion := true;
      }
      RunCons(t, Visited(t.left), s);
      RunAppend([t] + Visited(t.left), Visited(t.right), s);
      var l' := Optimize(t.left);
      var r' := Optimize(t.right);
      r := if t.Union? then Union(l', r') else LeftJoin(l', r', t.condition);
    }

    /** The meets of the nodes with a list of tuple children. */
    method OptimizeNary(t: TupleExpr) returns (r: TupleExpr)
      requires t.NJoin? || t.NUnion? || t.OtherNode?
      modifies this
      ensures r == Rewrite(t)
      ensures State() == Run(Visited(t), old(State()))
      decreases Size(t), 2
    {
      var s := State();
      var cs := if t.OtherNode? then t.children else t.args;
      RunCons(t, VisitedAll(cs), s);
      var cs' := OptimizeAll(cs);
      r := if t.NJoin? then NJoin(cs') else if t.NUnion? then NUnion(cs') else OtherNode(t.name, t.exprs, cs');
    }

    /** `visitChildren` over a list of children. */
    method OptimizeAll(ts: seq<TupleExpr>) returns (rs: seq<TupleExpr>)
      modifies this
      ensures rs == RewriteAll(ts)
      ensures State() == Run(VisitedAll(ts), old(State()))
      decreases SizeAll(ts), 4
    {
      if ts == [] {
        rs := [];
      } else {
        var s := State();
        var r := Optimize(ts[0]);
        var rest := OptimizeAll(ts[1..]);
        RunAppend(Visited(ts[0]), VisitedAll(ts[1..]), s);
        rs := [r] + rest;
      }
    }
  }
}
