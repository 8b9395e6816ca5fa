/** `ControlledWorkerBoundJoin` (evaluation/join/ControlledWorkerBoundJoin.java):
    a nested-loop join that sends the left bindings to the right argument in
    blocks, one remote request per block. The scheduler, the phaser's waiting
    and the tasks' own evaluation are not modelled; what is modelled is which
    tasks are handed to the scheduler, in which order, with which bindings. */
module BoundJoins {
  import opened Util
  import opened Rdf
  import opened StatementPatterns
  import opened ExclusiveGroups
  import opened QueryTree

  /** The task creator chosen from the first binding. */
  datatype TaskKind =
    | BoundJoinKind   // `BoundJoinTaskCreator`
    | CheckJoinKind   // `CheckJoinTaskCreator` over a `CheckStatementPattern`
    | ServiceJoinKind // `FedXServiceJoinTaskCreator`
    | GroupJoinKind   // `IndependentJoinGroupTaskCreator`

  /** A task handed to the scheduler: the single-binding `ParallelJoinTask` of
      the first binding (on the check pattern when `check` holds), or a task
      of the chosen creator for one block of bindings. */
  datatype Task =
    | JoinTask(check: bool, binding: BindingSet)
    | BlockTask(kind: TaskKind, bindings: seq<BindingSet>)

  /** How `handleBindings` ended. */
  datatype Handling = Fallback | Scheduled

  /** `canApplyVectoredEvaluation`: a `BoundJoinTupleExpr`, and for a FedX
      SERVICE node only when services may be evaluated as bound joins. */
  predicate CanApplyVectoredEvaluation(expr: TupleExpr, enableServiceAsBoundJoin: bool)
  {
    IsBoundJoinTupleExpr(expr) && (expr.FedXService? ==> enableServiceAsBoundJoin)
  }

  /** The objects whose free variables the choice of task kind looks at. */
  function KindReads(expr: TupleExpr): set<object>
  {
    (if expr.Stmt? then {expr.st} else {}) + (if expr.Group? then {expr.g} else {})
  }

  /** Whether a statement tuple still has free variables under `b`. */
  predicate StatementHasFreeVarsFor(expr: TupleExpr, b: BindingSet)
    requires IsStatementTupleExpr(expr)
    reads KindReads(expr)
  {
    if expr.Stmt? then expr.st.HasFreeVarsFor(b) else expr.g.HasFreeVarsFor(b)
  }

  /** The message for a right argument of an unexpected kind. */
  const UnexpectedExprMessage: string := "Expr is of unexpected type. Please report this problem."

  /** The if-chain choosing the task creator from the first binding. */
  function TaskKindFor(expr: TupleExpr, b: BindingSet): Result<TaskKind>
    reads KindReads(expr)
  {
    if IsStatementTupleExpr(expr) then
      if StatementHasFreeVarsFor(expr, b) then Ok(BoundJoinKind) else Ok(CheckJoinKind)
    else if expr.FedXService? then Ok(ServiceJoinKind)
    else if expr.IndependentJoinGroup? then Ok(GroupJoinKind)
    else Err(Raise(RuntimeException, UnexpectedExprMessage))
  }

  /** The kinds the if-chain selects: statements by their free variables,
      services and independent groups by their node kind, and nothing else. */
  lemma TaskKindForSpec(expr: TupleExpr, b: BindingSet)
    ensures TaskKindFor(expr, b) == Ok(BoundJoinKind) <==>
              IsStatementTupleExpr(expr) && StatementHasFreeVarsFor(expr, b)
    ensures TaskKindFor(expr, b) == Ok(CheckJoinKind) <==>
              IsStatementTupleExpr(expr) && !StatementHasFreeVarsFor(expr, b)
    ensures TaskKindFor(expr, b) == Ok(ServiceJoinKind) <==> expr.FedXService?
    ensures TaskKindFor(expr, b) == Ok(GroupJoinKind) <==> expr.IndependentJoinGroup?
    ensures TaskKindFor(expr, b).Err? <==>
              !IsStatementTupleExpr(expr) && !expr.FedXService? && !expr.IndependentJoinGroup?
    ensures TaskKindFor(expr, b).Err? ==> TaskKindFor(expr, b).error.cls == RuntimeException
  {
  }

  /** A right argument that passes `canApplyVectoredEvaluation` never reaches
      the error branch of the if-chain. */
  lemma VectoredKindDefined(expr: TupleExpr, enableServiceAsBoundJoin: bool, b: BindingSet)
    requires CanApplyVectoredEvaluation(expr, enableServiceAsBoundJoin)
    ensures TaskKindFor(expr, b).Ok?
  {
  }

  // ---------------------------------------------------------------------------
  // The block partition
  // ---------------------------------------------------------------------------

  /** The block size in force once `total` bindings have been consumed: 3 up
      to and including 10 bindings, the configured size afterwards. */
  function Target(total: nat, blockSize: nat): nat
  {
    if total > 10 then blockSize else 3
  }

  function Min(a: nat, b: nat): nat
  {
    if a <= b then a else b
  }

  /** The blocks the loop cuts from the remaining left bindings `rest`, when
      `total` bindings have already been consumed. */
  function Blocks(rest: seq<BindingSet>, total: nat, blockSize: nat): seq<seq<BindingSet>>
    requires blockSize > 0
    decreases |rest|
  {
    if rest == [] then []
    else
      var k := Min(Target(total, blockSize), |rest|);
      [rest[..k]] + Blocks(rest[k..], total + k, blockSize)
  }

  /** The bindings of a list of blocks, in order. */
  function Flatten(bs: seq<seq<BindingSet>>): seq<BindingSet>
  {
    if bs == [] then [] else bs[0] + Flatten(bs[1..])
  }

  /** The size rule: every block is non-empty and at most the size in force
      when it is cut, and every block but the last has exactly that size. */
  predicate FollowsRule(bs: seq<seq<BindingSet>>, total: nat, blockSize: nat)
    decreases |bs|
  {
    bs == [] ||
    (0 < |bs[0]| <= Target(total, blockSize)
     && (|bs| > 1 ==> |bs[0]| == Target(total, blockSize))
     && FollowsRule(bs[1..], total + |bs[0]|, blockSize))
  }

  /** The blocks give back exactly the bindings they were cut from, in order,
      and they follow the size rule. */
  lemma {:induction false} BlocksPartition(rest: seq<BindingSet>, total: nat, blockSize: nat)
    requires blockSize > 0
    ensures Flatten(Blocks(rest, total, blockSize)) == rest
    ensures FollowsRule(Blocks(rest, total, blockSize), total, blockSize)
  {
    if rest != [] {
      var k := Min(Target(total, blockSize), |rest|);
      var tail := Blocks(rest[k..], total + k, blockSize);
      BlocksPartition(rest[k..], total + k, blockSize);
      var bs := [rest[..k]] + tail;
      assert bs[1..] == tail;
      assert rest == rest[..k] + rest[k..];
      if |bs| > 1 {
        assert rest[k..] != [];
      }
    }
  }

  /** The size rule pins the partition down: any blocks that concatenate to
      the bindings and follow the rule are the ones the loop cuts. */
  lemma {:induction false} BlocksUnique(bs: seq<seq<BindingSet>>, rest: seq<BindingSet>, total: nat, blockSize: nat)
    requires blockSize > 0
    requires Flatten(bs) == rest && FollowsRule(bs, total, blockSize)
    ensures bs == Blocks(rest, total, blockSize)
  {
    if bs != [] {
      var k := |bs[0]|;
      assert rest == bs[0] + Flatten(bs[1..]);
      if |bs| > 1 {
        assert k == Target(total, blockSize);
      } else {
        assert bs[1..] == [];
      }
      assert k == Min(Target(total, blockSize), |rest|);
      assert rest[..k] == bs[0] && rest[k..] == Flatten(bs[1..]);
      BlocksUnique(bs[1..], rest[k..], total + k, blockSize);
      assert bs == [bs[0]] + bs[1..];
    }
  }

  /** Cutting one block from the front. */
  lemma BlocksStep(rest: seq<BindingSet>, total: nat, blockSize: nat, k: nat)
    requires blockSize > 0 && rest != [] && k == Min(Target(total, blockSize), |rest|)
    ensures Blocks(rest, total, blockSize) == [rest[..k]] + Blocks(rest[k..], total + k, blockSize)
  {
  }

  /** The tasks for a list of blocks, all of one kind. */
  function BlockTasks(kind: TaskKind, bs: seq<seq<BindingSet>>): (r: seq<Task>)
    ensures |r| == |bs|
    ensures forall i :: 0 <= i < |bs| ==> r[i] == BlockTask(kind, bs[i])
  {
    seq(|bs|, i requires 0 <= i < |bs| => BlockTask(kind, bs[i]))
  }

  /** The loop invariant one block further on. */
  lemma BlocksAfterBlock(start: seq<BindingSet>, done: seq<seq<BindingSet>>, rest: seq<BindingSet>,
                         total0: nat, total: nat, blockSize: nat, k: nat)
    requires blockSize > 0 && rest != [] && k == Min(Target(total, blockSize), |rest|)
    requires Blocks(start, total0, blockSize) == done + Blocks(rest, total, blockSize)
    ensures Blocks(start, total0, blockSize) == (done + [rest[..k]]) + Blocks(rest[k..], total + k, blockSize)
  {
    BlocksStep(rest, total, blockSize, k);
  }

  lemma BlockTasksAppend(kind: TaskKind, bs: seq<seq<BindingSet>>, b: seq<BindingSet>)
    ensures BlockTasks(kind, bs + [b]) == BlockTasks(kind, bs) + [BlockTask(kind, b)]
  {
  }

  /** The first task: the right argument, or its check pattern when the first
      binding leaves the statement without free variables. */
  function FirstTask(kind: TaskKind, b: BindingSet): Task
  {
    JoinTask(kind == CheckJoinKind, b)
  }

  /** What `handleBindings` schedules for the left bindings `left`, once the
      right argument allows vectored evaluation. */
  function Schedule(kind: TaskKind, left: seq<BindingSet>, blockSize: nat): seq<Task>
    requires blockSize > 0
  {
    if left == [] then []
    else [FirstTask(kind, left[0])] + BlockTasks(kind, Blocks(left[1..], 1, blockSize))
  }

  /** The scheduled bindings, first task and blocks together, are the left
      input in order; the first task carries exactly one binding. */
  lemma ScheduleCoversLeft(kind: TaskKind, left: seq<BindingSet>, blockSize: nat)
    requires blockSize > 0 && left != []
    ensures Schedule(kind, left, blockSize)[0] == JoinTask(kind == CheckJoinKind, left[0])
    ensures [left[0]] + Flatten(Blocks(left[1..], 1, blockSize)) == left
    ensures |Schedule(kind, left, blockSize)| == 1 + |Blocks(left[1..], 1, blockSize)|
  {
    BlocksPartition(left[1..], 1, blockSize);
    assert left == [left[0]] + left[1..];
  }

  // ---------------------------------------------------------------------------
  // The join cursor
  // ---------------------------------------------------------------------------

  class ControlledWorkerBoundJoin {
    const rightArg: TupleExpr
    /** Set when the cursor is closed; nothing more is consumed then. */
    var closed: bool
    /** What `leftIter` has still to deliver. */
    var left: seq<BindingSet>
    /** The tasks handed to the scheduler, in order. */
    var scheduled: seq<Task>
    /** Parties registered with the phaser. */
    var registered: nat
    /** `scheduler.informFinish(this)` has been called. */
    var finishInformed: bool

    constructor (right: TupleExpr, leftBindings: seq<BindingSet>)
      ensures rightArg == right && left == leftBindings
      ensures !closed && scheduled == [] && registered == 0 && !finishInformed
    {
      rightArg := right;
      left := leftBindings;
      closed := false;
      scheduled := [];
      registered := 0;
      finishInformed := false;
    }

    /** The inner loop of `handleBindings`: up to `n` bindings from the left
        iterator, in order. */
    method NextBlock(n: nat) returns (bindings: seq<BindingSet>)
      modifies this`left
      ensures bindings == old(left)[..Min(n, |old(left)|)]
      ensures left == old(left)[Min(n, |old(left)|)..]
    {
      bindings := [];
      var count := 0;
      while count < n && left != []
        invariant 0 <= count <= n && count <= |old(left)|
        invariant bindings == old(left)[..count] && left == old(left)[count..]
      {
        bindings := bindings + [left[0]];
        left := left[1..];
        count := count + 1;
      }
    }

    /** The opening block of `handleBindings`: unless the cursor is closed
        or the left side is empty, the first binding is taken, fixes the task
        kind, and is scheduled alone. Returns the kind and the number of
        bindings consumed. */
    method ScheduleFirst(enableServiceAsBoundJoin: bool) returns (kind: TaskKind, total: nat)
      requires CanApplyVectoredEvaluation(rightArg, enableServiceAsBoundJoin)
      modifies this`left, this`scheduled, this`registered
      ensures closed || old(left) == [] ==>
                total == 0 && left == old(left) && scheduled == old(scheduled) && registered == old(registered)
      ensures !closed && old(left) != [] ==>
                total == 1 && left == old(left)[1..]
                && old(TaskKindFor(rightArg, left[0])) == Ok(kind)
                && scheduled == old(scheduled) + [FirstTask(kind, old(left)[0])]
                && registered == old(registered) + 1
    {
      kind, total := BoundJoinKind, 0;
      if !closed && left != [] {
        var b := left[0];
        left := left[1..];
        total := total + 1;
        VectoredKindDefined(rightArg, enableServiceAsBoundJoin, b);
        kind := TaskKindFor(rightArg, b).value;
        registered := registered + 1;
        scheduled := scheduled + [FirstTask(kind, b)];
      }
    }

    /** The main loop of `handleBindings`: while the cursor is open and the
        left side has bindings, cut the next block and schedule one task of
        the chosen kind for it. */
    method ScheduleBlocks(kind: TaskKind, blockSize: nat, total0: nat)
      requires blockSize > 0
      modifies this`left, this`scheduled, this`registered
      ensures closed ==> left == old(left) && scheduled == old(scheduled) && registered == old(registered)
      ensures !closed ==>
                left == [] && scheduled == old(scheduled) + BlockTasks(kind, Blocks(old(left), total0, blockSize))
                && registered == old(registered) + |Blocks(old(left), total0, blockSize)|
    {
      var total: nat := total0;
      ghost var done: seq<seq<BindingSet>> := [];
      while !closed && left != []
        invariant closed ==> left == old(left) && done == []
        invariant !closed ==> Blocks(old(left), total0, blockSize) == done + Blocks(left, total, blockSize)
        invariant scheduled == old(scheduled) + BlockTasks(kind, done)
        invariant registered == old(registered) + |done|
        decreases |left|
      {
        ghost var before := left;
        var bindings := NextBlock(Target(total, blockSize));
        BlocksAfterBlock(old(left), done, before, total0, total, blockSize, |bindings|);
        total := total + |bindings|;
        registered := registered + 1;
        BlockTasksAppend(kind, done, bindings);
        scheduled := scheduled + [BlockTask(kind, bindings)];
        done := done + [bindings];
      }
    }

    /** `handleBindings()`. A right argument that cannot be evaluated in
        blocks goes to the tuple-at-a-time parent implementation, which is
        not part of this model. Otherwise the first binding is scheduled
        alone and the rest in blocks, each task registered with the phaser. */
    method HandleBindings(blockSize: int, enableServiceAsBoundJoin: bool) returns (r: Handling)
      requires blockSize > 0
      modifies this`left, this`scheduled, this`registered, this`finishInformed
      ensures !CanApplyVectoredEvaluation(rightArg, enableServiceAsBoundJoin) ==>
                r == Fallback && left == old(left) && scheduled == old(scheduled)
                && registered == old(registered) && finishInformed == old(finishInformed)
      ensures CanApplyVectoredEvaluation(rightArg, enableServiceAsBoundJoin) ==>
                r == Scheduled && finishInformed
                && registered == old(registered) + |scheduled| - |old(scheduled)|
      ensures CanApplyVectoredEvaluation(rightArg, enableServiceAsBoundJoin) && (closed || old(left) == []) ==>
                left == old(left) && scheduled == old(scheduled)
      ensures CanApplyVectoredEvaluation(rightArg, enableServiceAsBoundJoin) && !closed && old(left) != [] ==>
                left == [] && old(TaskKindFor(rightArg, left[0])).Ok?
                && scheduled == old(scheduled) + Schedule(old(TaskKindFor(rightArg, left[0])).value, old(left), blockSize)
    {
      if !CanApplyVectoredEvaluation(rightArg, enableServiceAsBoundJoin) {
        return Fallback;
      }
      // the first item is always sent alone
      var kind, total := ScheduleFirst(enableServiceAsBoundJoin);
      ghost var afterFirst := scheduled;
      ScheduleBlocks(kind, blockSize, total);
      if !closed && old(left) != [] {
        assert scheduled == afterFirst + BlockTasks(kind, Blocks(old(left)[1..], 1, blockSize));
        assert afterFirst == old(scheduled) + [FirstTask(kind, old(left)[0])];
        assert Schedule(kind, old(left), blockSize) ==
               [FirstTask(kind, old(left)[0])] + BlockTasks(kind, Blocks(old(left)[1..], 1, blockSize));
      }
      finishInformed := true;
      r := Scheduled;
    }
  }
}
