/** `ParallelExecutorBase`: the consumer side of a parallel join or union.
    Worker tasks hand their result iterations to the executor, which queues
    them; reading the executor drains the queued iterations one after the
    other, and an error raised by the execution surfaces at the next read of
    the queue, before any iteration still queued. The producing threads and the blocking of the
    queue are outside the model: the queue holds what has been added. */
module ParallelExecutors {
  import opened Util

  /** A result iteration handed to `addResult`: an `EmptyIteration` object or
      an iteration over some rows. */
  datatype ResultIteration<T> = EmptyIteration | Rows(rows: seq<T>)

  /** The rows of a sequence of iterations, one iteration after the other. */
  function Flatten<T>(q: seq<seq<T>>): seq<T>
  {
    if q == [] then [] else q[0] + Flatten(q[1..])
  }

  lemma {:induction false} FlattenAppend<T>(a: seq<seq<T>>, b: seq<seq<T>>)
    ensures Flatten(a + b) == Flatten(a) + Flatten(b)
  {
    if a == [] {
      assert a + b == b;
    } else {
      assert (a + b)[1..] == a[1..] + b;
      FlattenAppend(a[1..], b);
    }
  }

  const TimeoutMessage: string := "Query evaluation has run into a timeout"

  /** `checkTimeout()`, given what `getMaxRemainingTimeMS()` answers. */
  function CheckTimeout(maxTimeLeft: int): (r: Outcome)
    ensures r.Failure? <==> maxTimeLeft <= 0
    ensures r.Failure? ==> r.error == Raise(QueryInterruptedException, TimeoutMessage)
  {
    if maxTimeLeft <= 0 then Failure(Raise(QueryInterruptedException, TimeoutMessage)) else Success
  }

  class ParallelExecutor<T> {
    /** The iterations queued in `rightQueue` and not yet taken. */
    var queue: seq<seq<T>>
    /** `rightQueue.done()` was called. */
    var queueDone: bool
    /** `rightQueue.close()` was called. */
    var queueClosed: bool
    /** The exceptions tossed into `rightQueue` and not yet raised. */
    var tossed: seq<Exception>
    /** The rows left in `rightIter`, the iteration being read, if any. */
    var rightIter: Option<seq<T>>
    /** How many iterations the executor has closed. */
    var closedIterations: nat
    var closed: bool
    var finished: bool

    /** The rows still to be delivered, in delivery order. */
    function Pending(): seq<T>
      reads this
    {
      (if rightIter.Some? then rightIter.value else []) + Flatten(queue)
    }

    constructor ()
      ensures queue == [] && tossed == [] && rightIter == None && Pending() == []
      ensures !queueDone && !queueClosed && !closed && !finished && closedIterations == 0
    {
      queue := [];
      queueDone, queueClosed := false, false;
      tossed := [];
      rightIter := None;
      closedIterations := 0;
      closed, finished := false, false;
    }

    /** `addResult(res)`: an `EmptyIteration` is dropped, any other iteration
        is queued after the ones already there. */
    method AddResult(res: ResultIteration<T>)
      modifies this`queue
      ensures queue == old(queue) + (if res.EmptyIteration? then [] else [res.rows])
      ensures Pending() == old(Pending()) + (if res.EmptyIteration? then [] else res.rows)
    {
      if res.EmptyIteration? {
        return;
      }
      FlattenAppend(queue, [res.rows]);
      assert Flatten([res.rows]) == res.rows + Flatten([]);
      queue := queue + [res.rows];
    }

    /** `toss(e)`. */
    method Toss(e: Exception)
      modifies this`tossed
      ensures tossed == old(tossed) + [e]
    {
      tossed := tossed + [e];
    }

    /** The rows left in the iteration being read. */
    function CurrentRows(): seq<T>
      reads this
    {
      if rightIter.Some? then rightIter.value else []
    }

    /** `getNextElement()`: the loop reads `rightIter`, closing it when it is
        exhausted; with no iteration at hand it asks `rightQueue.hasNext()`,
        which raises the first tossed exception before taking the next queued
        iteration. After the loop, `rightQueue.checkException()`. So the rows
        left in the current iteration come before a tossed exception, and
        the iterations still queued come after it. */
    method GetNextElement() returns (r: Result<Option<T>>)
      modifies this`queue, this`rightIter, this`closedIterations, this`tossed
      ensures old(CurrentRows()) != [] ==>
                r == Ok(Some(old(CurrentRows())[0])) && rightIter == Some(old(CurrentRows())[1..])
                && queue == old(queue) && tossed == old(tossed)
      ensures old(CurrentRows()) == [] && old(tossed) != [] ==>
                r == Err(old(tossed)[0]) && tossed == old(tossed)[1..] && rightIter == None && queue == old(queue)
      ensures old(tossed) == [] && old(Pending()) != [] ==>
                r == Ok(Some(old(Pending())[0])) && Pending() == old(Pending())[1..] && tossed == []
      ensures old(tossed) == [] && old(Pending()) == [] ==>
                r == Ok(None) && rightIter == None && queue == [] && tossed == []
    {
      ghost var pending := Pending();
      while true
        invariant Pending() == pending && tossed == old(tossed)
        invariant old(CurrentRows()) != [] ==> rightIter == old(rightIter) && queue == old(queue)
        invariant old(tossed) != [] ==> queue == old(queue) && (rightIter.Some? ==> rightIter == old(rightIter))
        decreases 2 * |queue| + (if rightIter.Some? then 1 else 0)
      {
        if rightIter.None? {
          if |tossed| > 0 {
            var e := tossed[0];
            tossed := tossed[1..];
            return Err(e);
          }
          if |queue| == 0 {
            break;
          }
          assert Flatten(queue) == queue[0] + Flatten(queue[1..]);
          rightIter := Some(queue[0]);
          queue := queue[1..];
        }
        var rows := rightIter.value;
        if |rows| > 0 {
          rightIter := Some(rows[1..]);
          return Ok(Some(rows[0]));
        } else {
          closedIterations := closedIterations + 1;
          rightIter := None;
        }
      }
      // `rightQueue.checkException()`: the `hasNext()` that ended the loop has
      // just checked, and no producer runs in between here.
      assert tossed == [];
      r := Ok(None);
    }

    /** `run()`: performs the execution (whose outcome is `execution`), then
        checks the timeout; a failure of either is tossed. Whatever happens,
        the executor is finished and the queue is done afterwards. */
    method Run(execution: Outcome, maxTimeLeft: int)
      modifies this`tossed, this`finished, this`queueDone
      ensures finished && queueDone
      ensures execution.Failure? ==> tossed == old(tossed) + [execution.error]
      ensures execution.Success? ==>
                tossed == old(tossed) + (if CheckTimeout(maxTimeLeft).Failure? then [CheckTimeout(maxTimeLeft).error] else [])
    {
      if execution.Failure? {
        Toss(execution.error);
      } else {
        var timeout := CheckTimeout(maxTimeLeft);
        if timeout.Failure? {
          Toss(timeout.error);
        }
      }
      finished := true;
      queueDone := true;
    }

    /** `handleClose()`: closes the queue, then closes and clears the current
        iteration even when closing the queue failed (`queueFailure`); only
        then is the executor marked closed. */
    method HandleClose(queueFailure: Option<Exception>) returns (r: Outcome)
      modifies this`queueClosed, this`rightIter, this`closedIterations, this`closed
      ensures rightIter == None
      ensures closedIterations == old(closedIterations) + (if old(rightIter).Some? then 1 else 0)
      ensures queueFailure.None? ==> queueClosed && closed && r == Success
      ensures queueFailure.Some? ==> closed == old(closed) && r == Failure(queueFailure.value)
    {
      if queueFailure.None? {
        queueClosed := true;
      }
      if rightIter.Some? {
        closedIterations := closedIterations + 1;
        rightIter := None;
      }
      if queueFailure.Some? {
        return Failure(queueFailure.value);
      }
      closed := true;
      r := Success;
    }
  }

  /** A new executor that has been handed `results`, in order. */
  method Fill<T>(results: seq<ResultIteration<T>>) returns (ex: ParallelExecutor<T>)
    ensures fresh(ex)
    ensures ex.Pending() == Flatten(NonEmptyRows(results)) && ex.tossed == []
  {
    ex := new ParallelExecutor<T>();
    for i := 0 to |results|
      invariant ex.Pending() == Flatten(NonEmptyRows(results[..i]))
      invariant ex.tossed == []
    {
      ex.AddResult(results[i]);
      FlattenNonEmptyRowsAppend(results[..i], results[i]);
      assert results[..i + 1] == results[..i] + [results[i]];
    }
    assert results[..|results|] == results;
  }

  /** Calls `getNextElement()` until the end of the stream; nothing was tossed. */
  method Drain<T>(ex: ParallelExecutor<T>) returns (out: seq<T>)
    requires ex.tossed == []
    modifies ex`queue, ex`rightIter, ex`closedIterations, ex`tossed
    ensures out == old(ex.Pending())
  {
    out := [];
    var r := ex.GetNextElement();
    while r != Ok(None)
      invariant ex.tossed == []
      invariant r.Ok?
      invariant r.value.Some? ==> out + [r.value.value] + ex.Pending() == old(ex.Pending())
      invariant r.value.None? ==> out == old(ex.Pending())
      decreases |ex.Pending()| + (if r == Ok(None) then 0 else 1)
    {
      out := out + [r.value.value];
      r := ex.GetNextElement();
    }
  }

  /** Reading an executor until the end delivers the rows of the non-empty
      results handed to it, in the order they were added. */
  method DrainInOrder<T>(results: seq<ResultIteration<T>>) returns (out: seq<T>)
    ensures out == Flatten(NonEmptyRows(results))
  {
    var ex := Fill(results);
    out := Drain(ex);
  }

  /** The rows of the results that are not `EmptyIteration`s. */
  function NonEmptyRows<T>(results: seq<ResultIteration<T>>): seq<seq<T>>
  {
    if results == [] then []
    else (if results[0].EmptyIteration? then [] else [results[0].rows]) + NonEmptyRows(results[1..])
  }

  lemma {:induction false} NonEmptyRowsAppend<T>(a: seq<ResultIteration<T>>, x: ResultIteration<T>)
    ensures NonEmptyRows(a + [x]) == NonEmptyRows(a) + (if x.EmptyIteration? then [] else [x.rows])
  {
    if a == [] {
      assert a + [x] == [x];
      assert [x][1..] == [];
    } else {
      assert (a + [x])[1..] == a[1..] + [x];
      NonEmptyRowsAppend(a[1..], x);
    }
  }

  /** Appending a result to the results appends its rows to the flattened rows. */
  lemma FlattenNonEmptyRowsAppend<T>(a: seq<ResultIteration<T>>, x: ResultIteration<T>)
    ensures Flatten(NonEmptyRows(a + [x])) == Flatten(NonEmptyRows(a)) + (if x.EmptyIteration? then [] else x.rows)
  {
    NonEmptyRowsAppend(a, x);
    var tail: seq<seq<T>> := if x.EmptyIteration? then [] else [x.rows];
    FlattenAppend(NonEmptyRows(a), tail);
    assert Flatten(tail) == (if x.EmptyIteration? then [] else x.rows) by {
      if !x.EmptyIteration? {
        assert Flatten(tail) == x.rows + Flatten([]);
      }
    }
  }
}
