/** The tuple-expression part of the query algebra: the RDF4J operators the
    FedX optimizers and the evaluation strategy distinguish, with FedX's own
    plan nodes. A node that carries mutable state (a FedX statement, an
    exclusive group) is held by reference. */
module QueryTree {
  import opened Util
  import opened Rdf
  import opened Algebra
  import opened StatementPatterns
  import opened ExclusiveGroups

  datatype ProjectionElem = ProjectionElem(sourceName: string, targetName: string)

  datatype TupleExpr =
    /** A plain RDF4J statement pattern, before source selection. */
    | StatementNode(subj: Var, pred: Var, obj: Var, ctx: Option<Var>)
    /** A `StatementSourcePattern` or an `ExclusiveStatement`. */
    | Stmt(st: FedXStatementPattern)
    | Group(g: ExclusiveGroup)
    | Filter(cond: ValueExpr, arg: TupleExpr)
    | Projection(elems: seq<ProjectionElem>, arg: TupleExpr)
    | ProjectionWithBindings(elems: seq<ProjectionElem>, arg: TupleExpr, bindings: seq<Binding>)
    | Slice(limit: int, arg: TupleExpr)
    | Join(left: TupleExpr, right: TupleExpr)
    | NJoin(args: seq<TupleExpr>)
    | Union(left: TupleExpr, right: TupleExpr)
    | NUnion(args: seq<TupleExpr>)
    | LeftJoin(left: TupleExpr, right: TupleExpr, condition: Option<ValueExpr>)
    | Service(serviceRef: Var, body: TupleExpr)
    /** FedX's SERVICE plan node; its inside is not part of this model. */
    | FedXService(serviceUri: string)
    /** FedX's independent join group; its inside is not part of this model. */
    | IndependentJoinGroup(groupId: string)
    /** A query sent as a whole to one source. */
    | SingleSourceQuery(query: string, sourceId: string)
    | EmptyResult
    /** Any other operator: its value expressions and its tuple children. */
    | OtherNode(name: string, exprs: seq<ValueExpr>, children: seq<TupleExpr>)

  /** `instanceof StatementTupleExpr`. */
  predicate IsStatementTupleExpr(t: TupleExpr)
  {
    t.Stmt? || t.Group?
  }

  /** `instanceof BoundJoinTupleExpr`: FedX statements, FedX SERVICE nodes and
      independent join groups. */
  predicate IsBoundJoinTupleExpr(t: TupleExpr)
  {
    t.Stmt? || t.FedXService? || t.IndependentJoinGroup?
  }

  /** Number of nodes; children are smaller than their parent. */
  function Size(t: TupleExpr): nat
  {
    match t
    case Filter(_, a) => 1 + Size(a)
    case Projection(_, a) => 1 + Size(a)
    case ProjectionWithBindings(_, a, _) => 1 + Size(a)
    case Slice(_, a) => 1 + Size(a)
    case Join(l, r) => 1 + Size(l) + Size(r)
    case NJoin(args) => 1 + SizeAll(args)
    case Union(l, r) => 1 + Size(l) + Size(r)
    case NUnion(args) => 1 + SizeAll(args)
    case LeftJoin(l, r, _) => 1 + Size(l) + Size(r)
    case Service(_, b) => 1 + Size(b)
    case OtherNode(_, _, cs) => 1 + SizeAll(cs)
    case _ => 1
  }

  function SizeAll(ts: seq<TupleExpr>): nat
  {
    if ts == [] then 0 else Size(ts[0]) + SizeAll(ts[1..])
  }

  /** The statement objects anywhere in the tree (a frame for the optimizers). */
  function Stmts(t: TupleExpr): set<FedXStatementPattern>
  {
    match t
    case Stmt(st) => {st}
    case Filter(_, a) => Stmts(a)
    case Projection(_, a) => Stmts(a)
    case ProjectionWithBindings(_, a, _) => Stmts(a)
    case Slice(_, a) => Stmts(a)
    case Join(l, r) => Stmts(l) + Stmts(r)
    case NJoin(args) => StmtsAll(args)
    case Union(l, r) => Stmts(l) + Stmts(r)
    case NUnion(args) => StmtsAll(args)
    case LeftJoin(l, r, _) => Stmts(l) + Stmts(r)
    case Service(_, b) => Stmts(b)
    case OtherNode(_, _, cs) => StmtsAll(cs)
    case _ => {}
  }

  function StmtsAll(ts: seq<TupleExpr>): set<FedXStatementPattern>
  {
    if ts == [] then {} else Stmts(ts[0]) + StmtsAll(ts[1..])
  }

  lemma {:induction false} StmtsAllAppend(a: seq<TupleExpr>, b: seq<TupleExpr>)
    ensures StmtsAll(a + b) == StmtsAll(a) + StmtsAll(b)
  {
    if a == [] {
      assert a + b == b;
    } else {
      assert (a + b)[1..] == a[1..] + b;
      StmtsAllAppend(a[1..], b);
    }
  }

  lemma StmtsAllElement(ts: seq<TupleExpr>, i: nat)
    requires i < |ts|
    ensures Stmts(ts[i]) <= StmtsAll(ts)
  {
    if i > 0 {
      StmtsAllElement(ts[1..], i - 1);
    }
  }
}
