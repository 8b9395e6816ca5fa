/** `QueryInfo`: the per-query record that tracks the tasks scheduled for a
    query and aborts them together. */
module QueryInfos {
  import opened Util

  /** A scheduled parallel task, as far as a query sees it: it can be cancelled. */
  class ParallelTask {
    var cancelled: bool

    constructor ()
      ensures !cancelled
    {
      cancelled := false;
    }

    /** `ParallelTask.cancel()`. */
    method Cancel()
      modifies this
      ensures cancelled
    {
      cancelled := true;
    }
  }

  /** The kind of query (`QueryType`); only `GET_STATEMENTS` is named here. */
  datatype QueryType = GetStatements | OtherQueryType(name: string)

  /** `NEXT_QUERY_ID`: the counter the query ids are drawn from. */
  class QueryIdCounter {
    var next: int

    /** The counter starts at 1. */
    constructor ()
      ensures next == 1
    {
      next := 1;
    }

    /** `getAndIncrement()`. */
    method GetAndIncrement() returns (id: int)
      modifies this
      ensures id == old(next) && next == old(next) + 1
    {
      id := next;
      next := next + 1;
    }
  }

  const AbortedMessage: string := "Query is aborted, cannot accept new tasks"

  class QueryInfo {
    const queryID: int
    const query: string
    const queryType: QueryType
    var aborted: bool
    var scheduledSubtasks: set<ParallelTask>

    /** Once aborted, no task is tracked any more. */
    ghost predicate Valid()
      reads this
    {
      aborted ==> scheduledSubtasks == {}
    }

    /** `new QueryInfo(query, queryType)`: takes the next id from the counter. */
    constructor (counter: QueryIdCounter, q: string, qt: QueryType)
      modifies counter
      ensures Valid() && !aborted && scheduledSubtasks == {}
      ensures queryID == old(counter.next) && counter.next == old(counter.next) + 1
      ensures query == q && queryType == qt
    {
      var id := counter.GetAndIncrement();
      queryID := id;
      query := q;
      queryType := qt;
      aborted := false;
      scheduledSubtasks := {};
    }

    /** `registerScheduledTask(task)`: refused once the query is aborted. */
    method RegisterScheduledTask(task: ParallelTask) returns (r: Outcome)
      requires Valid()
      modifies this`scheduledSubtasks
      ensures Valid()
      ensures old(aborted) ==> r == Failure(Raise(QueryEvaluationException, AbortedMessage))
                               && scheduledSubtasks == old(scheduledSubtasks)
      ensures !old(aborted) ==> r == Success && scheduledSubtasks == old(scheduledSubtasks) + {task}
    {
      if aborted {
        return Failure(Raise(QueryEvaluationException, AbortedMessage));
      }
      scheduledSubtasks := scheduledSubtasks + {task};
      r := Success;
    }

    /** `abort()`: the first call marks the query aborted, cancels every task
        registered so far and forgets them; a later call changes nothing. */
    method Abort()
      requires Valid()
      modifies this, scheduledSubtasks
      ensures Valid() && aborted
      ensures old(aborted) ==> scheduledSubtasks == old(scheduledSubtasks)
                               && forall t :: t in old(scheduledSubtasks) ==> t.cancelled == old(t.cancelled)
      ensures !old(aborted) ==> scheduledSubtasks == {}
                                && forall t :: t in old(scheduledSubtasks) ==> t.cancelled
    {
      if aborted {
        return;
      }
      aborted := true;
      AbortScheduledTasks();
    }

    /** `abortScheduledTasks()`: cancels every tracked task, then clears the set. */
    method AbortScheduledTasks()
      modifies this`scheduledSubtasks, scheduledSubtasks
      ensures scheduledSubtasks == {}
      ensures forall t :: t in old(scheduledSubtasks) ==> t.cancelled
    {
      var remaining := scheduledSubtasks;
      while remaining != {}
        invariant remaining <= old(scheduledSubtasks)
        invariant scheduledSubtasks == old(scheduledSubtasks)
        invariant forall t :: t in old(scheduledSubtasks) && t !in remaining ==> t.cancelled
        decreases |remaining|
      {
        var t :| t in remaining;
        t.Cancel();
        remaining := remaining - {t};
      }
      scheduledSubtasks := {};
    }

    /** `hashCode()`: `31 * 1 + queryID` in 32-bit arithmetic. */
    function HashCode(): (h: int)
      ensures -0x8000_0000 <= h < 0x8000_0000
    {
      Wrap32(31 + queryID)
    }

    /** `equals(other)` for another `QueryInfo`: the same object or the same id. */
    predicate Equals(other: QueryInfo?)
    {
      other != null && (other == this || other.queryID == queryID)
    }
  }

  /** Equal queries have equal hash codes. */
  lemma EqualsHash(a: QueryInfo, b: QueryInfo)
    requires a.Equals(b)
    ensures a.HashCode() == b.HashCode()
  {
  }

  /** Two queries created one after the other from the same counter are never
      equal: ids come from a strictly increasing counter. */
  method TwoQueriesDiffer(counter: QueryIdCounter, q1: string, q2: string, qt: QueryType)
    returns (a: QueryInfo, b: QueryInfo)
    modifies counter
    ensures !a.Equals(b) && a.queryID < b.queryID
  {
    a := new QueryInfo(counter, q1, qt);
    b := new QueryInfo(counter, q2, qt);
  }
}
