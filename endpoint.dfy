/** `Endpoint`: a federation member, its type and classification, and the
    lifecycle of its repository connection. The repository itself is remote:
    whether opening a connection fails is an input, and a connection is known
    only by its identity. */
module Endpoints {
  import opened Util

  datatype EndpointClassification = Local | Remote

  datatype EndpointType = NativeStore | SparqlEndpoint | RemoteRepository | Other

  /** `EndpointType.values()`, in declaration order. */
  const AllTypes: seq<EndpointType> := [NativeStore, SparqlEndpoint, RemoteRepository, Other]

  /** The format names each endpoint type lists. */
  function FormatNames(t: EndpointType): seq<string>
  {
    match t
    case NativeStore => ["NativeStore", "lsail/NativeStore"]
    case SparqlEndpoint => ["SparqlEndpoint", "api/sparql"]
    case RemoteRepository => ["RemoteRepository"]
    case Other => ["Other"]
  }

  /** `EndpointType.supportsFormat(format)`. */
  predicate SupportsFormat(t: EndpointType, format: string)
  {
    format in FormatNames(t)
  }

  /** Whether some type among `types` supports the format: the loop of
      `isSupportedFormat` over a prefix of the type list. */
  function AnySupports(types: seq<EndpointType>, format: string): (r: bool)
    ensures r <==> exists i :: 0 <= i < |types| && SupportsFormat(types[i], format)
  {
    if types == [] then false
    else SupportsFormat(types[0], format) || AnySupports(types[1..], format)
  }

  /** `EndpointType.isSupportedFormat(format)`; `None` is a null format. */
  function IsSupportedFormat(format: Option<string>): bool
  {
    format.Some? && AnySupports(AllTypes, format.value)
  }

  /** A format is supported iff it is not null and some endpoint type lists it. */
  lemma IsSupportedFormatSpec(format: Option<string>)
    ensures IsSupportedFormat(format) <==> format.Some? && exists t :: SupportsFormat(t, format.value)
  {
    if format.Some? && exists t :: SupportsFormat(t, format.value) {
      var t :| SupportsFormat(t, format.value);
      var i := match t
        case NativeStore => 0
        case SparqlEndpoint => 1
        case RemoteRepository => 2
        case Other => 3;
      assert AllTypes[i] == t;
    }
  }

  /** "api/sparql" is the format of SPARQL endpoints and of no other type. */
  lemma SparqlFormatOnlyForSparqlEndpoints(t: EndpointType)
    ensures SupportsFormat(t, "api/sparql") <==> t == SparqlEndpoint
    ensures IsSupportedFormat(Some("api/sparql"))
  {
    assert FormatNames(SparqlEndpoint)[1] == "api/sparql";
    assert AllTypes[1] == SparqlEndpoint;
  }

  /** The error of using an endpoint whose repository is not initialized. */
  function NotInitialized(id: string): Exception
  {
    Raise(FedXRuntimeException, "Repository for endpoint " + id + " not initialized")
  }

  /** A repository connection; only its identity matters here. */
  class Connection {
    constructor ()
    {
    }
  }

  /** The repository behind an endpoint. */
  class Repository {
    var isShutDown: bool

    constructor ()
      ensures !isShutDown
    {
      isShutDown := false;
    }

    method ShutDown()
      modifies this
      ensures isShutDown
    {
      isShutDown := true;
    }
  }

  class Endpoint {
    const id: string
    const name: string
    /** The endpoint location, e.g. the URL of a SPARQL endpoint. */
    const location: string
    const epType: EndpointType
    const classification: EndpointClassification
    var repo: Repository?
    var conn: Connection?
    var initialized: bool
    var hasTripleSource: bool

    /** An initialized endpoint holds a connection. */
    ghost predicate Valid()
      reads this
    {
      initialized ==> conn != null
    }

    /** `new Endpoint(id, name, endpoint, type, classification)`. */
    constructor (id: string, name: string, location: string, t: EndpointType, c: EndpointClassification)
      ensures Valid()
      ensures this.id == id && this.name == name && this.location == location
      ensures epType == t && classification == c
      ensures repo == null && conn == null && !initialized && !hasTripleSource
    {
      this.id := id;
      this.name := name;
      this.location := location;
      epType := t;
      classification := c;
      repo := null;
      conn := null;
      initialized := false;
      hasTripleSource := false;
    }

    /** `isLocal()`. */
    predicate IsLocal()
    {
      classification == Local
    }

    /** `setRepo(repo)`. */
    method SetRepo(r: Repository?)
      modifies this`repo
      ensures repo == r
    {
      repo := r;
    }

    /** `getConn()`: the connection, refused before initialization. */
    function GetConn(): (r: Result<Connection?>)
      reads this
      ensures r.Ok? <==> initialized
      ensures r.Ok? ==> r.value == conn
      ensures r.Err? ==> r.error == NotInitialized(id)
    {
      if !initialized then Err(NotInitialized(id)) else Ok(conn)
    }

    /** `initialize()`: refused without a repository, nothing to do when already
        initialized; otherwise the triple source is created and then a
        connection is opened, which fails with `connectFailure` if given. */
    method Initialize(connectFailure: Option<Exception>) returns (r: Outcome)
      modifies this`conn, this`initialized, this`hasTripleSource
      ensures repo == null ==>
                r == Failure(Raise(FedXRuntimeException, "Repository for endpoint " + id + " not yet specified"))
                && unchanged(this)
      ensures repo != null && old(initialized) ==> r == Success && unchanged(this)
      ensures repo != null && !old(initialized) && connectFailure.Some? ==>
                r == Failure(connectFailure.value) && hasTripleSource && !initialized && conn == old(conn)
      ensures repo != null && !old(initialized) && connectFailure.None? ==>
                r == Success && hasTripleSource && initialized && fresh(conn)
    {
      if repo == null {
        return Failure(Raise(FedXRuntimeException, "Repository for endpoint " + id + " not yet specified"));
      }
      if initialized {
        return Success;
      }
      hasTripleSource := true;
      if connectFailure.Some? {
        return Failure(connectFailure.value);
      }
      conn := new Connection();
      initialized := true;
      r := Success;
    }

    /** `repairConnection()`: refused before initialization; otherwise the old
        connection is closed (a failure to close is only logged) and a new one
        is opened from the repository. */
    method RepairConnection(connectFailure: Option<Exception>) returns (r: Result<Connection>)
      modifies this`conn
      ensures !initialized ==> r == Err(NotInitialized(id)) && conn == old(conn)
      ensures initialized && repo == null ==> r == Err(NullPointer) && conn == old(conn)
      ensures initialized && repo != null && connectFailure.Some? ==>
                r == Err(connectFailure.value) && conn == old(conn)
      ensures initialized && repo != null && connectFailure.None? ==>
                r.Ok? && fresh(r.value) && conn == r.value
    {
      if !initialized {
        return Err(NotInitialized(id));
      }
      if repo == null {
        return Err(NullPointer);
      }
      if connectFailure.Some? {
        return Err(connectFailure.value);
      }
      var c := new Connection();
      conn := c;
      r := Ok(c);
    }

    /** `shutDown()`: refused without a repository, nothing to do when not
        initialized; otherwise the connection is dropped, the repository shut
        down, and the endpoint is no longer initialized. */
    method ShutDown() returns (r: Outcome)
      requires Valid()
      modifies this`conn, this`initialized, repo
      ensures Valid()
      ensures old(repo) == null ==>
                r == Failure(Raise(RepositoryException, "Repository for endpoint " + id + " not yet specified"))
                && unchanged(this)
      ensures old(repo) != null && !old(initialized) ==> r == Success && unchanged(this) && unchanged(old(repo))
      ensures old(repo) != null && old(initialized) ==>
                r == Success && conn == null && !initialized && repo.isShutDown
    {
      if repo == null {
        return Failure(Raise(RepositoryException, "Repository for endpoint " + id + " not yet specified"));
      }
      if !initialized {
        return Success;
      }
      conn := null;
      repo.ShutDown();
      initialized := false;
      r := Success;
    }

    /** `equals(other)`: the same object, or an endpoint with the same id and
        type; name, location and connection state are ignored. */
    predicate Equals(other: Endpoint?)
    {
      other != null && (other == this || (other.id == id && other.epType == epType))
    }

    /** `hashCode()`, built from the id's and the type's hash codes; the hash
        code of an enum constant is its identity hash, an input here. */
    function HashCode(typeHash: EndpointType -> int): int
    {
      Wrap32(31 * Wrap32(31 + StringHash(id)) + typeHash(epType))
    }
  }

  /** `String.hashCode()`: `s[0]*31^(n-1) + ... + s[n-1]` in 32-bit arithmetic. */
  function StringHash(s: string): (h: int)
    ensures -0x8000_0000 <= h < 0x8000_0000
  {
    if s == [] then 0 else Wrap32(31 * StringHash(s[..|s| - 1]) + s[|s| - 1] as int)
  }

  /** Equal endpoints have equal hash codes, whatever the enum hashes are. */
  lemma EqualsHash(a: Endpoint, b: Endpoint, typeHash: EndpointType -> int)
    requires a.Equals(b)
    ensures a.HashCode(typeHash) == b.HashCode(typeHash)
  {
  }

  /** Two endpoints that agree on id and type are equal, whatever their names,
      locations and lifecycle states. */
  lemma EqualsIgnoresNameAndLocation(a: Endpoint, b: Endpoint)
    requires a.id == b.id && a.epType == b.epType
    ensures a.Equals(b) && b.Equals(a)
  {
  }

  /** Initializing twice changes nothing the second time, and a shut-down
      endpoint can be initialized again. */
  method LifecycleRoundTrip(e: Endpoint, r: Repository)
    requires e.Valid() && !e.initialized
    modifies e, r
    ensures e.Valid() && e.initialized && e.repo == r
  {
    e.SetRepo(r);
    var o1 := e.Initialize(None);
    var c := e.conn;
    var o2 := e.Initialize(None);
    assert o2 == Success && e.conn == c;
    var o3 := e.ShutDown();
    assert !e.initialized && e.conn == null;
    var o4 := e.Initialize(None);
  }
}
