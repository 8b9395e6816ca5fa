/** `EndpointManager`: the registry of federation members, looked up by id
    and by repository connection, which also repairs broken connections. The
    static singleton instance is modelled by `EndpointManagerRegistry`.
    `HashMap` iteration order is unspecified, so loops over the registered
    endpoints pick the next one arbitrarily. */
module EndpointManagers {
  import opened Util
  import opened Endpoints

  const NotYetInitializedMessage: string :=
    "EndpointManager not yet initialized, initialize() must be invoked before use."
  const AlreadyInitializedMessage: string := "Endpoint Manager already initialized."
  const RepairAllMessage: string := "Connection of at least one endpoint could not be repaired."

  /** A repair within the last 3000 ms makes `repairAllConnections` do nothing. */
  const RepairInterval: int := 3000

  /** The id map after `addEndpoint` of each of `eps` in turn. */
  function PutAll(m: map<string, Endpoint>, eps: seq<Endpoint>): map<string, Endpoint>
  {
    if eps == [] then m else PutAll(m, eps[..|eps| - 1])[eps[|eps| - 1].id := eps[|eps| - 1]]
  }

  /** The connection map after `addEndpoint` of each of `eps` in turn. */
  function PutConns(m: map<Connection?, Endpoint>, eps: seq<Endpoint>): map<Connection?, Endpoint>
    reads eps
  {
    if eps == [] then m else PutConns(m, eps[..|eps| - 1])[eps[|eps| - 1].conn := eps[|eps| - 1]]
  }

  /** An id is registered after adding `eps` iff it was before or some added
      endpoint has it, and then it maps to the last endpoint added with it. */
  lemma {:induction false} PutAllLookup(m: map<string, Endpoint>, eps: seq<Endpoint>, id: string)
    ensures id in PutAll(m, eps) <==> id in m || exists i :: 0 <= i < |eps| && eps[i].id == id
    ensures forall i :: 0 <= i < |eps| && eps[i].id == id && (forall j :: i < j < |eps| ==> eps[j].id != id) ==>
              PutAll(m, eps)[id] == eps[i]
  {
    if eps != [] {
      var n := |eps|;
      PutAllLookup(m, eps[..n - 1], id);
      if id in m || exists i :: 0 <= i < n && eps[i].id == id {
        if eps[n - 1].id != id && !(id in m) {
          var i :| 0 <= i < n && eps[i].id == id;
          assert eps[..n - 1][i] == eps[i];
        }
      }
      forall i | 0 <= i < n && eps[i].id == id && (forall j :: i < j < n ==> eps[j].id != id)
        ensures PutAll(m, eps)[id] == eps[i]
      {
        if i < n - 1 {
          assert eps[..n - 1][i] == eps[i];
          assert forall j :: i < j < n - 1 ==> eps[..n - 1][j] == eps[j];
        }
      }
    }
  }

  /** Adding endpoints keeps every id mapped to an endpoint with that id. */
  lemma {:induction false} PutAllKeyed(m: map<string, Endpoint>, eps: seq<Endpoint>)
    requires forall k :: k in m ==> m[k].id == k
    ensures forall k :: k in PutAll(m, eps) ==> PutAll(m, eps)[k].id == k
  {
    if eps != [] {
      PutAllKeyed(m, eps[..|eps| - 1]);
    }
  }

  class EndpointManager {
    var endpoints: map<string, Endpoint>
    var connToEndpoint: map<Connection?, Endpoint>
    var inRepair: bool
    var lastRepaired: int

    /** Every id maps to the endpoint with that id. */
    ghost predicate Valid()
      reads this
    {
      forall k :: k in endpoints ==> endpoints[k].id == k
    }

    /** The private constructor: no endpoint yet, never repaired. */
    constructor ()
      ensures Valid()
      ensures endpoints == map[] && connToEndpoint == map[] && !inRepair && lastRepaired == -1
    {
      endpoints := map[];
      connToEndpoint := map[];
      inRepair := false;
      lastRepaired := -1;
    }

    /** `init(endpoints)`: adds the endpoints in list order; the first one that
        is not initialized stops it. */
    method Init(eps: seq<Endpoint>) returns (r: Outcome)
      requires Valid()
      modifies this`endpoints, this`connToEndpoint
      ensures Valid()
      ensures (forall i :: 0 <= i < |eps| ==> eps[i].initialized) ==>
                r == Success && endpoints == PutAll(old(endpoints), eps)
                && connToEndpoint == PutConns(old(connToEndpoint), eps)
      ensures !(forall i :: 0 <= i < |eps| ==> eps[i].initialized) ==>
                exists k :: 0 <= k < |eps| && !eps[k].initialized && (forall j :: 0 <= j < k ==> eps[j].initialized)
                            && r == Failure(NotInitialized(eps[k].id))
    {
      for i := 0 to |eps|
        invariant Valid()
        invariant forall j :: 0 <= j < i ==> eps[j].initialized
        invariant endpoints == PutAll(old(endpoints), eps[..i])
        invariant connToEndpoint == PutConns(old(connToEndpoint), eps[..i])
      {
        assert eps[..i + 1][..i] == eps[..i];
        r := AddEndpoint(eps[i]);
        if r.Failure? {
          return;
        }
      }
      assert eps[..|eps|] == eps;
      r := Success;
    }

    /** `addEndpoint(e)`: maps the id, then the connection, to `e`, replacing
        earlier entries; `getConn()` refuses an uninitialized endpoint after
        the id is already mapped. */
    method AddEndpoint(e: Endpoint) returns (r: Outcome)
      requires Valid()
      modifies this`endpoints, this`connToEndpoint
      ensures Valid()
      ensures endpoints == old(endpoints)[e.id := e]
      ensures e.initialized ==> r == Success && connToEndpoint == old(connToEndpoint)[e.conn := e]
      ensures !e.initialized ==> r == Failure(NotInitialized(e.id)) && connToEndpoint == old(connToEndpoint)
    {
      endpoints := endpoints[e.id := e];
      var c := e.GetConn();
      if c.Err? {
        return Failure(c.error);
      }
      connToEndpoint := connToEndpoint[c.value := e];
      r := Success;
    }

    /** `removeEndpoint(e)`: an unknown id is refused; otherwise the id and then
        the endpoint's connection are unmapped. */
    method RemoveEndpoint(e: Endpoint) returns (r: Outcome)
      requires Valid()
      modifies this`endpoints, this`connToEndpoint
      ensures Valid()
      ensures e.id !in old(endpoints) ==>
                r == Failure(Raise(NoSuchElementException, "No endpoint avalaible for id " + e.id))
                && endpoints == old(endpoints) && connToEndpoint == old(connToEndpoint)
      ensures e.id in old(endpoints) ==> endpoints == old(endpoints) - {e.id}
      ensures e.id in old(endpoints) && e.initialized ==>
                r == Success && connToEndpoint == old(connToEndpoint) - {e.conn}
      ensures e.id in old(endpoints) && !e.initialized ==>
                r == Failure(NotInitialized(e.id)) && connToEndpoint == old(connToEndpoint)
    {
      if e.id !in endpoints {
        return Failure(Raise(NoSuchElementException, "No endpoint avalaible for id " + e.id));
      }
      endpoints := endpoints - {e.id};
      var c := e.GetConn();
      if c.Err? {
        return Failure(c.error);
      }
      connToEndpoint := connToEndpoint - {c.value};
      r := Success;
    }

    /** `getEndpoint(id)`; `None` is null. */
    function GetEndpoint(id: string): (r: Option<Endpoint>)
      reads this
      ensures r.Some? <==> id in endpoints
      ensures r.Some? ==> r.value == endpoints[id]
    {
      if id in endpoints then Some(endpoints[id]) else None
    }

    /** `getEndpoint(conn)`; `None` is null. */
    function GetEndpointByConn(conn: Connection?): (r: Option<Endpoint>)
      reads this
      ensures r.Some? <==> conn in connToEndpoint
      ensures r.Some? ==> r.value == connToEndpoint[conn]
    {
      if conn in connToEndpoint then Some(connToEndpoint[conn]) else None
    }

    /** `getEndpointByUrl(url)`: some registered endpoint at that location, or
        null when there is none. */
    method GetEndpointByUrl(url: string) returns (r: Option<Endpoint>)
      ensures r.Some? ==> r.value in endpoints.Values && r.value.location == url
      ensures r.None? ==> forall e :: e in endpoints.Values ==> e.location != url
    {
      var remaining := endpoints.Values;
      while remaining != {}
        invariant remaining <= endpoints.Values
        invariant forall e :: e in endpoints.Values && e !in remaining ==> e.location != url
        decreases |remaining|
      {
        var e :| e in remaining;
        if e.location == url {
          return Some(e);
        }
        remaining := remaining - {e};
      }
      r := None;
    }

    /** `getEndpointByName(name)`: some registered endpoint with that name, or
        null when there is none. */
    method GetEndpointByName(name: string) returns (r: Option<Endpoint>)
      ensures r.Some? ==> r.value in endpoints.Values && r.value.name == name
      ensures r.None? ==> forall e :: e in endpoints.Values ==> e.name != name
    {
      var remaining := endpoints.Values;
      while remaining != {}
        invariant remaining <= endpoints.Values
        invariant forall e :: e in endpoints.Values && e !in remaining ==> e.name != name
        decreases |remaining|
      {
        var e :| e in remaining;
        if e.name == name {
          return Some(e);
        }
        remaining := remaining - {e};
      }
      r := None;
    }

    /** `getEndpoints(ids)`: one endpoint per id, in the set's iteration order,
        or `NoSuchElementException` for an unmapped id. */
    method GetEndpoints(ids: set<string>) returns (r: Result<seq<Endpoint>>)
      requires Valid()
      ensures r.Ok? <==> ids <= endpoints.Keys
      ensures r.Ok? ==> |r.value| == |ids|
                        && (forall id :: id in ids ==> endpoints[id] in r.value)
                        && (forall i :: 0 <= i < |r.value| ==> r.value[i].id in ids && r.value[i] == endpoints[r.value[i].id])
      ensures r.Err? ==> exists id :: id in ids && id !in endpoints
                                      && r.error == Raise(NoSuchElementException, "No endpoint found for " + id + ".")
    {
      var remaining := ids;
      ghost var done: set<string> := {};
      var res: seq<Endpoint> := [];
      while remaining != {}
        invariant done + remaining == ids && done !! remaining
        invariant done <= endpoints.Keys
        invariant |res| == |done|
        invariant forall id :: id in done ==> endpoints[id] in res
        invariant forall i :: 0 <= i < |res| ==> res[i].id in done && res[i] == endpoints[res[i].id]
        decreases |remaining|
      {
        var id :| id in remaining;
        if id !in endpoints {
          return Err(Raise(NoSuchElementException, "No endpoint found for " + id + "."));
        }
        res := res + [endpoints[id]];
        remaining := remaining - {id};
        done := done + {id};
      }
      r := Ok(res);
    }

    /** `repairConnection(conn)`: an unknown connection gives null and changes
        nothing (it was probably repaired already); otherwise its entry is
        removed and the endpoint's new connection mapped to the endpoint. A
        `RepositoryException` of the repair has its message prefixed; other
        errors pass unchanged. */
    method RepairConnection(conn: Connection?, connectFailure: Option<Exception>) returns (r: Result<Connection?>)
      modifies this`connToEndpoint, if conn in connToEndpoint then {connToEndpoint[conn]} else {}
      ensures conn !in old(connToEndpoint) ==> r == Ok(null) && connToEndpoint == old(connToEndpoint)
      ensures conn in old(connToEndpoint) ==>
                var e := old(connToEndpoint[conn]);
                (r.Ok? <==> e.initialized && e.repo != null && connectFailure.None?)
                && (r.Ok? ==> r.value == e.conn && r.value != null && fresh(r.value)
                              && connToEndpoint == (old(connToEndpoint) - {conn})[e.conn := e])
                && (r.Err? ==> connToEndpoint == old(connToEndpoint) - {conn} && e.conn == old(e.conn))
      ensures conn in old(connToEndpoint) && old(connToEndpoint[conn]).initialized
              && old(connToEndpoint[conn]).repo != null && connectFailure.Some? ==>
                r == Err(RepairError("Connection of endpoint " + old(connToEndpoint[conn]).id + " could not be repaired",
                                     connectFailure.value))
    {
      if conn !in connToEndpoint {
        return Ok(null);
      }
      var e := connToEndpoint[conn];
      connToEndpoint := connToEndpoint - {conn};
      var res := e.RepairConnection(connectFailure);
      if res.Err? {
        return Err(RepairError("Connection of endpoint " + e.id + " could not be repaired", res.error));
      }
      connToEndpoint := connToEndpoint[res.value := e];
      r := Ok(res.value);
    }

    /** Whether `repairAllConnections` at time `now` ends without an error:
        it is throttled, or every endpoint's connection can be repaired. */
    predicate RepairSucceeds(now: int, failures: map<Endpoint, Exception>)
      reads this, endpoints.Values
    {
      now - lastRepaired < RepairInterval || forall e :: e in endpoints.Values ==> Repairable(e, failures)
    }

    /** `repairAllConnections()`, called at time `now`; the repair completes at
        `finishedAt`, and opening a new connection for an endpoint in
        `failures` fails with the mapped exception. Within 3000 ms of the last
        successful repair nothing happens; otherwise every endpoint's
        connection is repaired, and `lastRepaired` advances only when all of
        them were. `inRepair` is cleared however the repair ends. */
    method RepairAllConnections(now: int, finishedAt: int, failures: map<Endpoint, Exception>) returns (r: Outcome)
      modifies this`connToEndpoint, this`inRepair, this`lastRepaired, endpoints.Values`conn
      ensures now - old(lastRepaired) < RepairInterval ==>
                r == Success && unchanged(this) && unchanged(old(endpoints.Values))
      ensures now - old(lastRepaired) >= RepairInterval ==>
                !inRepair
                && (r.Success? ==> lastRepaired == finishedAt)
                && (r.Failure? ==> lastRepaired == old(lastRepaired))
      ensures r.Success? <==> old(RepairSucceeds(now, failures))
      ensures now - old(lastRepaired) >= RepairInterval && r.Success? ==>
                Repaired(endpoints.Values, failures, connToEndpoint) && forall e :: e in endpoints.Values ==> fresh(e.conn)
      ensures r.Failure? ==>
                exists e :: e in endpoints.Values && !Repairable(e, failures) && r.error == RepairFailureOf(e, failures)
    {
      if now - lastRepaired < RepairInterval {
        return Success;
      }
      ghost var before := forall e :: e in endpoints.Values ==> Repairable(e, failures);
      inRepair := true;
      r := RepairEach(endpoints.Values, failures);
      assert before <==> forall e :: e in endpoints.Values ==> Repairable(e, failures);
      if r.Failure? {
        ghost var failed :| failed in endpoints.Values && !Repairable(failed, failures)
                            && r.error == RepairFailureOf(failed, failures);
        inRepair := false;
        assert failed in endpoints.Values && !Repairable(failed, failures);
        return;
      }
      lastRepaired := finishedAt;
      inRepair := false;
    }

    /** The loop of `repairAllConnections` over the registered endpoints
        `todo`: it stops at the first endpoint whose repair fails. */
    method RepairEach(todo: set<Endpoint>, failures: map<Endpoint, Exception>) returns (r: Outcome)
      modifies this`connToEndpoint, todo`conn
      ensures r.Success? <==> forall e :: e in todo ==> Repairable(e, failures)
      ensures r.Success? ==> Repaired(todo, failures, connToEndpoint)
      ensures r.Success? ==> forall e :: e in todo ==> fresh(e.conn)
      ensures r.Failure? ==> exists e :: e in todo && !Repairable(e, failures) && r.error == RepairFailureOf(e, failures)
    {
      var remaining := todo;
      ghost var done: set<Endpoint> := {};
      while remaining != {}
        invariant remaining <= todo && done == todo - remaining
        invariant forall e :: e in remaining ==> e.conn == old(e.conn)
        invariant forall e :: e in done ==> fresh(e.conn)
        invariant Repaired(done, failures, connToEndpoint)
        decreases |remaining|
      {
        var e :| e in remaining;
        ghost var before := connToEndpoint;
        ghost var oldConn := e.conn;
        assert e !in done;
        label Step:
        r := RepairEndpoint(e, if e in failures then Some(failures[e]) else None);
        assert forall d :: d in done ==> d.conn == old@Step(d.conn);
        if r.Failure? {
          assert !Repairable(e, failures) && r.error == RepairFailureOf(e, failures);
          return;
        }
        MapRepaired(done, failures, before, e, oldConn, connToEndpoint);
        MoveToDone(todo, remaining, done, e);
        remaining := remaining - {e};
        done := done + {e};
      }
      r := Success;
      assert Repaired(todo, failures, connToEndpoint);
    }

    /** One step of `repairAllConnections`: unmaps the endpoint's connection,
        repairs it and maps the new connection to the endpoint. */
    method RepairEndpoint(e: Endpoint, connectFailure: Option<Exception>) returns (r: Outcome)
      modifies this`connToEndpoint, e`conn
      ensures r.Success? <==> e.initialized && e.repo != null && connectFailure.None?
      ensures r.Success? ==> e.conn != null && fresh(e.conn)
                             && connToEndpoint == (old(connToEndpoint) - {old(e.conn)})[e.conn := e]
      ensures r.Failure? ==> r.error == EndpointRepairFailure(e, connectFailure)
    {
      var c := e.GetConn();
      if c.Err? {
        return Failure(c.error);
      }
      connToEndpoint := connToEndpoint - {c.value};
      var res := e.RepairConnection(connectFailure);
      if res.Err? {
        return Failure(RepairError(RepairAllMessage, res.error));
      }
      connToEndpoint := connToEndpoint[res.value := e];
      r := Success;
    }
  }

  /** Every endpoint of `s` is repairable and has a connection that `m`
      maps back to it. */
  ghost predicate Repaired(s: set<Endpoint>, failures: map<Endpoint, Exception>, m: map<Connection?, Endpoint>)
    reads s`conn, s`initialized, s`repo
  {
    forall d :: d in s ==> Repairable(d, failures) && d.conn != null && d.conn in m && m[d.conn] == d
  }

  /** Unmapping `e`'s old connection and mapping its new one keeps the
      endpoints repaired so far mapped, when neither connection is theirs. */
  lemma MapRepaired(done: set<Endpoint>, failures: map<Endpoint, Exception>, before: map<Connection?, Endpoint>,
                    e: Endpoint, oldConn: Connection?, after: map<Connection?, Endpoint>)
    requires Repaired(done, failures, before) && Repairable(e, failures) && e.conn != null && e !in done
    requires forall d :: d in done ==> d.conn != e.conn && d.conn != oldConn
    requires after == (before - {oldConn})[e.conn := e]
    ensures Repaired(done + {e}, failures, after)
  {
  }

  /** Moving an element of `remaining` over to `done` keeps the two a
      partition of `todo`. */
  lemma MoveToDone<T>(todo: set<T>, remaining: set<T>, done: set<T>, x: T)
    requires remaining <= todo && done == todo - remaining && x in remaining
    ensures remaining - {x} <= todo && done + {x} == todo - (remaining - {x})
    ensures |remaining - {x}| < |remaining|
  {
  }

  /** An endpoint whose connection `repairAllConnections` can repair. */
  predicate Repairable(e: Endpoint, failures: map<Endpoint, Exception>)
    reads e`initialized, e`repo
  {
    e.initialized && e.repo != null && e !in failures
  }

  /** The `catch (RepositoryException)` of the repair methods: such an error
      gets the prefix, anything else passes through. */
  function RepairError(prefix: string, ex: Exception): (r: Exception)
    ensures ex.cls == RepositoryException ==> r == ChangedMessage(prefix, ex)
    ensures ex.cls != RepositoryException ==> r == ex
  {
    if ex.cls == RepositoryException then ChangedMessage(prefix, ex) else ex
  }

  /** The error one endpoint's repair ends with: `getConn` refuses an endpoint
      that is not initialized; otherwise `repairConnection` fails (without a
      repository on the null reference, else with the connect error), and a
      `RepositoryException` gets the prefix of `repairAllConnections`. */
  function EndpointRepairFailure(e: Endpoint, connectFailure: Option<Exception>): (r: Exception)
    requires !(e.initialized && e.repo != null && connectFailure.None?)
    reads e`initialized, e`repo
    ensures !e.initialized ==> r == NotInitialized(e.id)
    ensures e.initialized && e.repo == null ==> r == NullPointer
    ensures e.initialized && e.repo != null ==> r == RepairError(RepairAllMessage, connectFailure.value)
  {
    if !e.initialized then NotInitialized(e.id)
    else if e.repo == null then RepairError(RepairAllMessage, NullPointer)
    else RepairError(RepairAllMessage, connectFailure.value)
  }

  /** The same for the failures `repairAllConnections` meets. */
  function RepairFailureOf(e: Endpoint, failures: map<Endpoint, Exception>): Exception
    requires !Repairable(e, failures)
    reads e`initialized, e`repo
  {
    EndpointRepairFailure(e, if e in failures then Some(failures[e]) else None)
  }

  /** The static `instance` of `EndpointManager`. */
  class EndpointManagerRegistry {
    var instance: EndpointManager?

    constructor ()
      ensures instance == null
    {
      instance := null;
    }

    /** `getEndpointManager()`: refused before `initialize`. */
    function GetEndpointManager(): (r: Result<EndpointManager>)
      reads this
      ensures r.Ok? <==> instance != null
      ensures r.Ok? ==> r.value == instance
      ensures r.Err? ==> r.error == Raise(FedXRuntimeException, NotYetInitializedMessage)
    {
      if instance == null then Err(Raise(FedXRuntimeException, NotYetInitializedMessage)) else Ok(instance as EndpointManager)
    }

    /** `initialize(endpoints)` (`initialize()` is the empty list): refused when
        already initialized; the instance is set only if every endpoint could
        be added. */
    method Initialize(eps: seq<Endpoint>) returns (r: Outcome)
      modifies this
      ensures old(instance) != null ==>
                r == Failure(Raise(FedXRuntimeException, AlreadyInitializedMessage)) && instance == old(instance)
      ensures old(instance) == null && (forall i :: 0 <= i < |eps| ==> eps[i].initialized) ==>
                r == Success && instance != null && fresh(instance) && instance.Valid()
                && instance.endpoints == PutAll(map[], eps) && instance.connToEndpoint == PutConns(map[], eps)
                && !instance.inRepair && instance.lastRepaired == -1
      ensures old(instance) == null && !(forall i :: 0 <= i < |eps| ==> eps[i].initialized) ==>
                r.Failure? && instance == null
    {
      if instance != null {
        return Failure(Raise(FedXRuntimeException, AlreadyInitializedMessage));
      }
      var m := new EndpointManager();
      r := m.Init(eps);
      if r.Success? {
        instance := m;
      }
    }

    /** `shutDown()`: forgets the instance, so `initialize` may be called again. */
    method ShutDown()
      modifies this
      ensures instance == null
    {
      instance := null;
    }
  }

  /** A second `initialize` is refused until `shutDown`, after which it succeeds. */
  method InitializeAfterShutDown(reg: EndpointManagerRegistry)
    requires reg.instance == null
    modifies reg
    ensures reg.instance != null && reg.instance.endpoints == map[]
  {
    var r1 := reg.Initialize([]);
    var r2 := reg.Initialize([]);
    assert r2.Failure?;
    reg.ShutDown();
    assert reg.GetEndpointManager().Err?;
    var r3 := reg.Initialize([]);
  }
}
