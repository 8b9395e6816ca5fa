/** `ExceptionUtil`: tracing a query error back to the endpoint whose
    connection raised it, and repairing every connection after a socket
    error. The endpoint manager is the registry's `instance`; the logging is
    left out. */
module ExceptionUtils {
  import opened Util
  import opened Endpoints
  import opened EndpointManagers

  // ---------------------------------------------------------------------------
  // The HTTP error heuristic: ".*<title>(.*)</title>.*" with DOTALL
  // ---------------------------------------------------------------------------

  const TitleOpen: string := "<title>"
  const TitleClose: string := "</title>"

  /** A way for the pattern to match `s`: `<title>` at `i`, `</title>` at `j`,
      the group in between. */
  predicate TitleMatch(s: string, i: int, j: int)
  {
    OccursAt(s, TitleOpen, i) && i + |TitleOpen| <= j && OccursAt(s, TitleClose, j)
  }

  /** The last position at or below `hi` where `t` occurs in `s`, or -1. */
  function LastIndexOf(s: string, t: string, hi: int): (r: int)
    ensures -1 <= r
    ensures r >= 0 ==> r <= hi && OccursAt(s, t, r)
    ensures forall k :: r < k <= hi ==> !OccursAt(s, t, k)
    decreases hi + 1
  {
    if hi < 0 then -1
    else if OccursAt(s, t, hi) then hi
    else LastIndexOf(s, t, hi - 1)
  }

  /** Where the greedy matcher puts `<title>` and `</title>`: the last
      `</title>`, and the last `<title>` that ends before it. */
  function TitleSpan(s: string): Option<(int, int)>
  {
    var j := LastIndexOf(s, TitleClose, |s|);
    if j < 0 then None
    else
      var i := LastIndexOf(s, TitleOpen, j - |TitleOpen|);
      if i < 0 then None else Some((i, j))
  }

  /** `group(1)` when `httpErrorPattern.matcher(s).matches()`, `None` when it
      does not match. */
  function HttpErrorTitle(s: string): Option<string>
  {
    match TitleSpan(s)
    case None => None
    case Some((i, j)) => Some(s[i + |TitleOpen|..j])
  }

  /** The pattern matches iff some `<title>` is followed by a `</title>`; the
      group then lies between the two greediest delimiters: no match has its
      `<title>` or its `</title>` further right. */
  lemma TitleSpanSpec(s: string)
    ensures TitleSpan(s).Some? <==> exists i, j :: TitleMatch(s, i, j)
    ensures TitleSpan(s).Some? ==>
              var (i, j) := TitleSpan(s).value;
              TitleMatch(s, i, j) && HttpErrorTitle(s) == Some(s[i + |TitleOpen|..j])
              && forall i', j' :: TitleMatch(s, i', j') ==> i' <= i && j' <= j
  {
    var j := LastIndexOf(s, TitleClose, |s|);
    if exists i', j' :: TitleMatch(s, i', j') {
      var i', j' :| TitleMatch(s, i', j');
      assert j' <= j;
      var i := LastIndexOf(s, TitleOpen, j - |TitleOpen|);
      assert i' <= i;
      assert TitleSpan(s) == Some((i, j));
      assert TitleMatch(s, i, j);
      forall i'', j'' | TitleMatch(s, i'', j'')
        ensures i'' <= i && j'' <= j
      {
        assert j'' <= j;
      }
    } else if TitleSpan(s).Some? {
      var i := LastIndexOf(s, TitleOpen, j - |TitleOpen|);
      assert TitleMatch(s, i, j);
    }
  }

  /** A message without `<title>` is never taken for an HTTP error page. */
  lemma NoTitleNoHttpError(s: string)
    requires forall i :: !OccursAt(s, TitleOpen, i)
    ensures HttpErrorTitle(s) == None
  {
    TitleSpanSpec(s);
  }

  /** The title of a minimal error page. */
  lemma ServiceUnavailableTitle()
    ensures HttpErrorTitle("<title>503</title>") == Some("503")
  {
    var s := "<title>503</title>";
    assert OccursAt(s, TitleClose, 10);
    assert LastIndexOf(s, TitleClose, |s|) == 10;
    assert OccursAt(s, TitleOpen, 0);
    assert !OccursAt(s, TitleOpen, 3) by { assert s[3..10][0] == s[3] == 't'; }
    assert !OccursAt(s, TitleOpen, 2) by { assert s[2..9][0] == s[2] == 'i'; }
    assert !OccursAt(s, TitleOpen, 1) by { assert s[1..8][0] == s[1] == 't'; }
    assert LastIndexOf(s, TitleOpen, 3) == 0;
    assert s[7..10] == "503";
  }

  // ---------------------------------------------------------------------------
  // traceExceptionSource
  // ---------------------------------------------------------------------------

  /** The message of the traced exception: the endpoint id, then the original
      message ("n/a" when null), shortened to the title of an HTTP error page,
      then the additional information. */
  function TracedMessage(eID: string, message: Option<string>, additionalInfo: Option<string>): string
  {
    var m := if message.Some? then message.value else "n/a";
    var shown := match HttpErrorTitle(m)
      case Some(title) => "HTTP Error: " + title
      case None => m;
    "@ " + eID + " - " + shown + ". " + Str(additionalInfo)
  }

  /** The id an exception is traced to: the endpoint of the connection, or
      "unknown" when no endpoint holds it. */
  function SourceId(m: EndpointManager, conn: Connection?): (id: string)
    reads m
    ensures conn in m.connToEndpoint ==> id == m.connToEndpoint[conn].id
    ensures conn !in m.connToEndpoint ==> id == "unknown"
  {
    match m.GetEndpointByConn(conn)
    case Some(e) => e.id
    case None => "unknown"
  }

  /** `traceExceptionSource(conn, ex, additionalInfo)`: a new
      `QueryEvaluationException` with the traced message and `ex`'s cause;
      refused when the endpoint manager is not initialized. */
  function TraceExceptionSource(reg: EndpointManagerRegistry, conn: Connection?, ex: Exception,
                                additionalInfo: Option<string>): (r: Result<Exception>)
    reads reg, reg.instance
    ensures r.Err? <==> reg.instance == null
    ensures r.Err? ==> r.error == Raise(FedXRuntimeException, NotYetInitializedMessage)
    ensures r.Ok? ==> r.value.cls == QueryEvaluationException && r.value.cause == ex.cause
                      && r.value.message == Some(TracedMessage(SourceId(reg.instance, conn), ex.message, additionalInfo))
  {
    match reg.GetEndpointManager()
    case Err(e) => Err(e)
    case Ok(m) =>
      Ok(Exception(QueryEvaluationException, Some(TracedMessage(SourceId(m, conn), ex.message, additionalInfo)),
                   ex.cause))
  }

  /** A message that is no HTTP error page is kept as it is, behind the
      endpoint id and in front of the additional information. */
  lemma TracedMessageKeepsPlainMessage(eID: string, message: string, additionalInfo: Option<string>)
    requires forall i :: !OccursAt(message, TitleOpen, i)
    ensures TracedMessage(eID, Some(message), additionalInfo) == "@ " + eID + " - " + message + ". " + Str(additionalInfo)
  {
    NoTitleNoHttpError(message);
  }

  /** An HTTP error page is reduced to its title. */
  lemma TracedMessageOfErrorPage(eID: string, message: string, additionalInfo: Option<string>)
    requires exists i, j :: TitleMatch(message, i, j)
    ensures exists title :: HttpErrorTitle(message) == Some(title)
                            && TracedMessage(eID, Some(message), additionalInfo)
                               == "@ " + eID + " - HTTP Error: " + title + ". " + Str(additionalInfo)
  {
    TitleSpanSpec(message);
    var title := HttpErrorTitle(message).value;
    assert "@ " + eID + " - " + ("HTTP Error: " + title) + ". " + Str(additionalInfo)
        == "@ " + eID + " - HTTP Error: " + title + ". " + Str(additionalInfo);
  }

  /** A null message is shown as "n/a". */
  lemma TracedMessageOfNull(eID: string, additionalInfo: Option<string>)
    ensures TracedMessage(eID, None, additionalInfo) == "@ " + eID + " - n/a. " + Str(additionalInfo)
  {
    NoTitleNoHttpError("n/a");
  }

  // ---------------------------------------------------------------------------
  // getExceptionString, changeExceptionMessage
  // ---------------------------------------------------------------------------

  /** `getExceptionString(msg, ex)`: "msg SimpleName: message". */
  function GetExceptionString(msg: string, ex: Exception): string
  {
    msg + " " + SimpleName(ex.cls) + ": " + Str(ex.message)
  }

  /** `changeExceptionMessage(prefix, ex, cls)`: the message becomes
      "prefix.message" when the class has a public `(String, Throwable)`
      constructor; otherwise `ex` is returned as it is. */
  function ChangeExceptionMessage(prefix: string, ex: Exception, hasMessageCauseConstructor: bool): (r: Exception)
    ensures r.cls == ex.cls && r.cause == ex.cause
    ensures !hasMessageCauseConstructor ==> r == ex
    ensures hasMessageCauseConstructor ==> r.message.Some?
  {
    if hasMessageCauseConstructor then ChangedMessage(prefix, ex) else ex
  }

  /** The original message can be read back from a changed one: it follows the
      prefix and the dot. */
  lemma ChangedMessageRoundTrip(prefix: string, ex: Exception)
    ensures var m := ChangeExceptionMessage(prefix, ex, true).message.value;
            m[..|prefix|] == prefix && m[|prefix|] == '.' && m[|prefix| + 1..] == Str(ex.message)
  {
    var m := prefix + "." + Str(ex.message);
    assert m[|prefix|] == "."[0];
  }

  // ---------------------------------------------------------------------------
  // repairConnection
  // ---------------------------------------------------------------------------

  /** The causes below an exception: `ex.getCause()`, its cause, and so on. */
  function CauseChain(c: Option<Exception>): seq<Exception>
    decreases c
  {
    if c.None? then [] else [c.value] + CauseChain(c.value.cause)
  }

  /** The first cause in the chain that is a `SocketException`. */
  function FirstSocketCause(c: Option<Exception>): (r: Option<Exception>)
    decreases c
  {
    if c.None? then None
    else if c.value.cls == SocketException then c
    else FirstSocketCause(c.value.cause)
  }

  /** `FirstSocketCause` finds the earliest socket exception of the chain, and
      finds none exactly when the chain holds none. */
  lemma {:induction false} FirstSocketCauseSpec(c: Option<Exception>)
    ensures FirstSocketCause(c).None? <==> forall k :: 0 <= k < |CauseChain(c)| ==> CauseChain(c)[k].cls != SocketException
    ensures FirstSocketCause(c).Some? ==>
              exists k :: 0 <= k < |CauseChain(c)| && CauseChain(c)[k] == FirstSocketCause(c).value
                          && CauseChain(c)[k].cls == SocketException
                          && forall k' :: 0 <= k' < k ==> CauseChain(c)[k'].cls != SocketException
    decreases c
  {
    if c.Some? && c.value.cls != SocketException {
      FirstSocketCauseSpec(c.value.cause);
      var tail := CauseChain(c.value.cause);
      assert CauseChain(c) == [c.value] + tail;
      if FirstSocketCause(c).Some? {
        var k :| 0 <= k < |tail| && tail[k] == FirstSocketCause(c).value && tail[k].cls == SocketException
                 && forall k' :: 0 <= k' < k ==> tail[k'].cls != SocketException;
        assert CauseChain(c)[k + 1] == tail[k];
      } else {
        forall k | 0 <= k < |CauseChain(c)|
          ensures CauseChain(c)[k].cls != SocketException
        {
          if k == 0 {
            assert CauseChain(c)[0] == c.value;
          } else {
            assert CauseChain(c)[k] == tail[k - 1];
            assert FirstSocketCause(c.value.cause).None?;
            assert CauseChain(c.value.cause)[k - 1].cls != SocketException;
          }
        }
      }
    } else if c.Some? {
      assert CauseChain(c)[0] == c.value;
    }
  }

  /** A `SocketException` passed in itself, rather than as a cause, is not
      looked at. */
  lemma TopLevelSocketExceptionIgnored(message: Option<string>)
    ensures FirstSocketCause(Exception(SocketException, message, None).cause) == None
  {
  }

  /** The `FedXQueryException` that reports a repair. */
  function SocketMessage(eID: string, ex: Exception): string
  {
    "Socket exception occured for endpoint " + GetExceptionString(eID, ex)
      + ", all connections have been repaired. Query processing of the current query is aborted."
  }

  /** The `catch (RepositoryException)` of `repairConnection`: a failed repair
      is rethrown as a `FedXRuntimeException` with the same message; any other
      error passes through. */
  function RepairFailure(err: Exception): (r: Exception)
    ensures err.cls == RepositoryException ==> r.cls == FedXRuntimeException && r.message == err.message && r.cause == Some(err)
    ensures err.cls != RepositoryException ==> r == err
  {
    if err.cls == RepositoryException then Exception(FedXRuntimeException, err.message, Some(err)) else err
  }

  /** A connect failure that is a `RepositoryException` reaches the caller of
      `repairConnection` as a `FedXRuntimeException` whose message carries the
      prefix of `repairAllConnections`. */
  lemma FailedRepairIsRuntimeException(e: Endpoint, failures: map<Endpoint, Exception>)
    requires e.initialized && e.repo != null && e in failures && failures[e].cls == RepositoryException
    ensures var r := RepairFailure(RepairFailureOf(e, failures));
            r.cls == FedXRuntimeException && r.message == Some(RepairAllMessage + "." + Str(failures[e].message))
  {
  }

  /** `repairConnection(conn, ex)`: walks the causes of `ex`; at the first
      `SocketException` all connections are repaired and the query is
      aborted. Without a socket cause nothing happens. The arguments after
      `ex` are those of `repairAllConnections`. */
  method RepairConnection(reg: EndpointManagerRegistry, conn: Connection?, ex: Exception,
                          now: int, finishedAt: int, failures: map<Endpoint, Exception>)
    returns (r: Outcome)
    modifies reg.instance, if reg.instance != null then reg.instance.endpoints.Values else {}
    ensures FirstSocketCause(ex.cause).None? ==>
              r == Success && (reg.instance != null ==> unchanged(reg.instance) && unchanged(reg.instance.endpoints.Values))
    ensures FirstSocketCause(ex.cause).Some? ==> r.Failure?
    ensures FirstSocketCause(ex.cause).Some? && reg.instance == null ==>
              r.error == Raise(FedXRuntimeException, NotYetInitializedMessage)
    ensures FirstSocketCause(ex.cause).Some? && reg.instance != null && old(reg.instance.RepairSucceeds(now, failures)) ==>
              r.error == Exception(FedXQueryException, Some(SocketMessage(old(SourceId(reg.instance, conn)), ex)),
                                   FirstSocketCause(ex.cause))
    ensures FirstSocketCause(ex.cause).Some? && reg.instance != null && !old(reg.instance.RepairSucceeds(now, failures)) ==>
              exists e :: e in reg.instance.endpoints.Values && !Repairable(e, failures)
                          && r.error == RepairFailure(RepairFailureOf(e, failures))
  {
    var cause := ex.cause;
    while cause.Some? && cause.value.cls != SocketException
      invariant FirstSocketCause(cause) == FirstSocketCause(ex.cause)
      decreases cause
    {
      cause := cause.value.cause;
    }
    if cause.None? {
      return Success;
    }
    var abort := RepairAtSocketCause(reg, conn, ex, cause.value, now, finishedAt, failures);
    r := Failure(abort);
  }

  /** The body of `repairConnection` at a socket cause: the endpoint of `conn`
      is looked up, all connections are repaired, and the query is aborted
      with a `FedXQueryException`; a `RepositoryException` of the repair
      becomes a `FedXRuntimeException` instead. */
  method RepairAtSocketCause(reg: EndpointManagerRegistry, conn: Connection?, ex: Exception, cause: Exception,
                             now: int, finishedAt: int, failures: map<Endpoint, Exception>)
    returns (r: Exception)
    modifies reg.instance, if reg.instance != null then reg.instance.endpoints.Values else {}
    ensures reg.instance == null ==> r == Raise(FedXRuntimeException, NotYetInitializedMessage)
    ensures reg.instance != null && old(reg.instance.RepairSucceeds(now, failures)) ==>
              r == Exception(FedXQueryException, Some(SocketMessage(old(SourceId(reg.instance, conn)), ex)), Some(cause))
    ensures reg.instance != null && !old(reg.instance.RepairSucceeds(now, failures)) ==>
              exists e :: e in reg.instance.endpoints.Values && !Repairable(e, failures)
                          && r == RepairFailure(RepairFailureOf(e, failures))
  {
    var mgr := reg.GetEndpointManager();
    if mgr.Err? {
      return mgr.error;
    }
    var m := mgr.value;
    var eID := SourceId(m, conn);
    var repaired := m.RepairAllConnections(now, finishedAt, failures);
    if repaired.Failure? {
      return RepairFailure(repaired.error);
    }
    r := Exception(FedXQueryException, Some(SocketMessage(eID, ex)), Some(cause));
  }

  /** `traceExceptionSourceAndRepair(conn, ex, additionalInfo)`: the repair
      comes first and, when there was a socket cause, aborts with its own
      exception; otherwise the exception is traced. */
  method TraceExceptionSourceAndRepair(reg: EndpointManagerRegistry, conn: Connection?, ex: Exception,
                                       additionalInfo: Option<string>,
                                       now: int, finishedAt: int, failures: map<Endpoint, Exception>)
    returns (r: Result<Exception>)
    modifies reg.instance, if reg.instance != null then reg.instance.endpoints.Values else {}
    ensures FirstSocketCause(ex.cause).None? ==> r == TraceExceptionSource(reg, conn, ex, additionalInfo)
    ensures FirstSocketCause(ex.cause).Some? ==> r.Err?
    ensures FirstSocketCause(ex.cause).Some? && reg.instance == null ==>
              r.error == Raise(FedXRuntimeException, NotYetInitializedMessage)
    ensures FirstSocketCause(ex.cause).Some? && reg.instance != null && old(reg.instance.RepairSucceeds(now, failures)) ==>
              r.error == Exception(FedXQueryException, Some(SocketMessage(old(SourceId(reg.instance, conn)), ex)),
                                   FirstSocketCause(ex.cause))
    ensures FirstSocketCause(ex.cause).Some? && reg.instance != null && !old(reg.instance.RepairSucceeds(now, failures)) ==>
              exists e :: e in reg.instance.endpoints.Values && !Repairable(e, failures)
                          && r.error == RepairFailure(RepairFailureOf(e, failures))
  {
    var repaired := RepairConnection(reg, conn, ex, now, finishedAt, failures);
    if repaired.Failure? {
      r := Err(repaired.error);
      return;
    }
    r := TraceExceptionSource(reg, conn, ex, additionalInfo);
  }
}
