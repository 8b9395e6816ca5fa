/** The two `EndpointFactory` classes (the older one in the `util` package and
    the newer one in the `endpoint` package): how an endpoint's id, name and
    location are derived, and which provider a configured repository type
    selects. Building the repository itself (providers, HTTP clients, the
    file system) is outside the model: a factory here yields the
    `RepositoryInformation` it hands to the provider. */
module EndpointFactories {
  import opened Util
  import opened Rdf
  import opened Endpoints

  /** `RepositoryInformation(id, name, location, type)`. */
  datatype RepositoryInformation = RepositoryInformation(id: string, name: string, location: string, epType: EndpointType)

  // ---------------------------------------------------------------------------
  // getId
  // ---------------------------------------------------------------------------

  const HttpPrefix: string := "http://"

  /** `getId(endpointID, type)`: every "http://" is removed, then every "/"
      becomes "_", and the type and "_" are put in front. */
  function GetId(endpointID: string, t: string): string
  {
    t + "_" + ReplaceAll(ReplaceAll(endpointID, HttpPrefix, ""), "/", "_")
  }

  /** An id starts with the type and "_", holds no "/" after that, and is never
      longer than the type, the "_" and the endpoint together. */
  lemma GetIdSpec(endpointID: string, t: string)
    ensures var id := GetId(endpointID, t);
            |t| + 1 <= |id| <= |t| + 1 + |endpointID|
            && id[..|t| + 1] == t + "_"
            && forall i :: |t| + 1 <= i < |id| ==> id[i] != '/'
  {
    var stripped := ReplaceAll(endpointID, HttpPrefix, "");
    RemoveAllShortens(endpointID, HttpPrefix);
    ReplaceCharPointwise(stripped, '/', '_');
    ReplaceCharRemovesAll(stripped, '/', '_');
    assert "/" == ['/'] && "_" == ['_'];
    var rest := ReplaceAll(stripped, "/", "_");
    var id := GetId(endpointID, t);
    assert id == (t + "_") + rest;
    forall i | |t| + 1 <= i < |id|
      ensures id[i] != '/'
    {
      assert id[i] == rest[i - |t| - 1];
    }
  }

  /** An endpoint URL "http://" + rest, where rest holds no further "http://",
      keeps rest with its slashes turned into underscores. */
  lemma GetIdOfHttpUrl(rest: string, t: string)
    requires forall i :: !OccursAt(rest, HttpPrefix, i)
    ensures GetId(HttpPrefix + rest, t) == t + "_" + ReplaceAll(rest, "/", "_")
  {
    var s := HttpPrefix + rest;
    assert s[..|HttpPrefix|] == HttpPrefix && s[|HttpPrefix|..] == rest;
    assert ReplaceAll(s, HttpPrefix, "") == "" + ReplaceAll(rest, HttpPrefix, "");
    ReplaceAllWithoutOccurrence(rest, HttpPrefix, "");
    assert "" + rest == rest;
  }

  /** The id `getId` gives for the name "http://" + id is the type, "_" and the
      id itself, when the id holds neither "http://" nor "/". */
  lemma GetIdOfPlainName(id: string, t: string)
    requires forall i :: !OccursAt(id, HttpPrefix, i)
    requires '/' !in id
    ensures GetId(HttpPrefix + id, t) == t + "_" + id
  {
    GetIdOfHttpUrl(id, t);
    NoFirstCharNoOccurrence(id, "/");
    ReplaceAllWithoutOccurrence(id, "/", "_");
  }

  /** A string without the first character of `t` holds no occurrence of `t`. */
  lemma NoFirstCharNoOccurrence(s: string, t: string)
    requires |t| > 0 && t[0] !in s
    ensures forall i :: !OccursAt(s, t, i)
  {
  }

  /** Replacing a single character works on each part of a concatenation
      separately. */
  lemma ReplaceCharAppend(a: string, b: string, c: char, d: char)
    ensures ReplaceAll(a + b, [c], [d]) == ReplaceAll(a, [c], [d]) + ReplaceAll(b, [c], [d])
  {
    ReplaceCharPointwise(a + b, c, d);
    ReplaceCharPointwise(a, c, d);
    ReplaceCharPointwise(b, c, d);
  }

  /** The id of "http://" + host + "/" + path, where neither part holds "/"
      or "h". */
  lemma GetIdOfHostAndPath(host: string, path: string, t: string)
    requires '/' !in host && '/' !in path && 'h' !in host && 'h' !in path
    ensures GetId(HttpPrefix + host + "/" + path, t) == t + "_" + host + "_" + path
  {
    var rest := host + "/" + path;
    assert HttpPrefix + host + "/" + path == HttpPrefix + rest;
    NoFirstCharNoOccurrence(rest, HttpPrefix);
    GetIdOfHttpUrl(rest, t);
    assert "/" == ['/'] && "_" == ['_'];
    ReplaceCharAppend(host + "/", path, '/', '_');
    ReplaceCharAppend(host, "/", '/', '_');
    NoFirstCharNoOccurrence(host, "/");
    ReplaceAllWithoutOccurrence(host, "/", "_");
    NoFirstCharNoOccurrence(path, "/");
    ReplaceAllWithoutOccurrence(path, "/", "_");
  }

  /** The DBpedia URLs, taken apart into prefix, host and path. */
  lemma DbpediaUrlParts()
    ensures "http://dbpedia.org/sparql" == HttpPrefix + "dbpedia.org" + "/" + "sparql"
    ensures "http://dbpedia.org/" == HttpPrefix + "dbpedia.org" + "/" + ""
  {
  }

  /** The DBpedia ids, taken apart into type, host and path. */
  lemma DbpediaIdParts()
    ensures "sparql_dbpedia.org_sparql" == "sparql" + "_" + "dbpedia.org" + "_" + "sparql"
    ensures "sparql_dbpedia.org_" == "sparql" + "_" + "dbpedia.org" + "_" + ""
  {
  }

  /** The id of the DBpedia SPARQL endpoint. */
  lemma DbpediaSparqlId(url: string)
    requires url == "http://dbpedia.org/sparql"
    ensures GetId(url, "sparql") == "sparql_dbpedia.org_sparql"
  {
    DbpediaUrlParts();
    DbpediaIdParts();
    GetIdOfHostAndPath("dbpedia.org", "sparql", "sparql");
  }

  /** The trailing slash of "http://dbpedia.org/" survives as a trailing "_". */
  lemma DbpediaTrailingSlash(url: string)
    requires url == "http://dbpedia.org/"
    ensures GetId(url, "sparql") == "sparql_dbpedia.org_"
  {
    DbpediaUrlParts();
    DbpediaIdParts();
    GetIdOfHostAndPath("dbpedia.org", "", "sparql");
  }

  // ---------------------------------------------------------------------------
  // loadSPARQLEndpoint
  // ---------------------------------------------------------------------------

  /** `loadSPARQLEndpoint(name, endpoint)` of the `util` factory: the id is
      "sparql_" and the endpoint URL without "http://" and with "_" for "/". */
  function SparqlInformation(name: string, endpoint: string): (r: RepositoryInformation)
    ensures r.name == name && r.location == endpoint && r.epType == SparqlEndpoint
    ensures |r.id| >= 7 && r.id[..7] == "sparql_" && forall i :: 7 <= i < |r.id| ==> r.id[i] != '/'
  {
    GetIdSpec(endpoint, "sparql");
    assert "sparql" + "_" == "sparql_";
    RepositoryInformation(GetId(endpoint, "sparql"), name, endpoint, SparqlEndpoint)
  }

  /** What `new URL(endpoint)` yields: the host and the port, -1 when the URL
      names none. */
  datatype Url = Url(host: string, port: int)

  /** The name `loadSPARQLEndpoint(endpoint)` gives: "http://" and the host,
      with "_" and the port for "localhost". */
  function SparqlEndpointName(u: Url): string
  {
    HttpPrefix + (if u.host == "localhost" then u.host + "_" + IntToString(u.port) else u.host)
  }

  /** A host other than "localhost" is the name after "http://"; for
      "localhost" a given port can be read back from the name. */
  lemma SparqlEndpointNameSpec(u: Url)
    ensures u.host != "localhost" ==> SparqlEndpointName(u) == HttpPrefix + u.host
    ensures u.host == "localhost" && u.port >= 0 ==>
              var n := SparqlEndpointName(u);
              n[..17] == "http://localhost_" && ParseDigits(n[17..]) == u.port
  {
    if u.host == "localhost" && u.port >= 0 {
      NatToStringRoundTrip(u.port);
      var n := SparqlEndpointName(u);
      assert n == "http://localhost_" + NatToString(u.port);
      assert n[17..] == NatToString(u.port);
    }
  }

  /** Without a port in the URL, `getPort()` answers -1 and the name ends in
      "_-1". */
  lemma LocalhostWithoutPort()
    ensures SparqlEndpointName(Url("localhost", -1)) == "http://localhost_-1"
  {
    assert NatToString(1) == "1";
  }

  /** `loadSPARQLEndpoint(endpoint)` of the `util` factory: the endpoint is
      named after the host of its URL; `parsed` is what `new URL(endpoint)`
      yields, `None` for a malformed URL. */
  function LoadSparqlEndpoint(endpoint: string, parsed: Option<Url>): (r: Result<RepositoryInformation>)
    ensures r.Err? <==> parsed.None?
    ensures r.Err? ==> r.error == Raise(FedXException, "Malformed URL: " + endpoint)
    ensures r.Ok? ==> r.value == SparqlInformation(SparqlEndpointName(parsed.value), endpoint)
  {
    match parsed
    case None => Err(Raise(FedXException, "Malformed URL: " + endpoint))
    case Some(u) => Ok(SparqlInformation(SparqlEndpointName(u), endpoint))
  }

  /** The name `loadSPARQLEndpoint(endpoint)` of the `endpoint` factory passes
      on to `SPARQLRepositoryInformation`; the same host-based name. */
  function LoadSparqlEndpointName(endpoint: string, parsed: Option<Url>): (r: Result<string>)
    ensures r.Err? <==> parsed.None?
    ensures r.Err? ==> r.error == Raise(FedXException, "Malformed URL: " + endpoint)
    ensures r.Ok? ==> r.value == SparqlEndpointName(parsed.value)
  {
    match parsed
    case None => Err(Raise(FedXException, "Malformed URL: " + endpoint))
    case Some(u) => Ok(SparqlEndpointName(u))
  }

  /** The DBpedia endpoint of the factory's test, named after its host. */
  lemma DbpediaSparqlEndpoint(url: string, host: string)
    requires url == "http://dbpedia.org/sparql" && host == "dbpedia.org"
    ensures LoadSparqlEndpoint(url, Some(Url(host, -1)))
              == Ok(RepositoryInformation("sparql_dbpedia.org_sparql", "http://dbpedia.org", url, SparqlEndpoint))
  {
    DbpediaSparqlId(url);
    assert host[0] != "localhost"[0];
    DbpediaHostName(host);
  }

  /** "http://" followed by the DBpedia host. */
  lemma DbpediaHostName(host: string)
    requires host == "dbpedia.org"
    ensures HttpPrefix + host == "http://dbpedia.org"
  {
  }

  // ---------------------------------------------------------------------------
  // loadEndpoint(id, repository), loadNativeEndpoint(name, location, baseDir)
  // ---------------------------------------------------------------------------

  const UnknownLocation: string := "http://unknown"

  /** `loadEndpoint(id, repository)`: named "http://" + id, located at the
      repository's data directory, or at "http://unknown" when that cannot be
      read (`dataDir` is `None`); the type is `Other`. */
  function LoadEndpoint(id: string, dataDir: Option<string>): (r: RepositoryInformation)
    ensures r.id == id && r.epType == Other
    ensures |r.name| == 7 + |id| && r.name[..7] == HttpPrefix && r.name[7..] == id
    ensures r.location == if dataDir.Some? then dataDir.value else UnknownLocation
  {
    RepositoryInformation(id, HttpPrefix + id, if dataDir.Some? then dataDir.value else UnknownLocation, Other)
  }

  /** The location `loadNativeEndpoint(name, location, baseDir)` passes on:
      the base directory's absolute path, "/", and the location. */
  function NativeLocation(baseDirAbsolute: string, location: string): (r: string)
    ensures |r| == |baseDirAbsolute| + 1 + |location|
    ensures r[..|baseDirAbsolute|] == baseDirAbsolute && r[|baseDirAbsolute|] == '/'
    ensures r[|baseDirAbsolute| + 1..] == location
  {
    baseDirAbsolute + "/" + location
  }

  // ---------------------------------------------------------------------------
  // loadEndpoint(graph, repNode, repType): the type dispatch
  // ---------------------------------------------------------------------------

  /** The providers a configured repository type can select. */
  datatype Provider = NativeStoreProvider | SparqlProvider | RemoteRepositoryProvider | ResolvableRepositoryProvider

  /** The `fedx:store` literal that selects each provider. */
  function TypeName(p: Provider): string
  {
    match p
    case NativeStoreProvider => "NativeStore"
    case SparqlProvider => "SPARQLEndpoint"
    case RemoteRepositoryProvider => "RemoteRepository"
    case ResolvableRepositoryProvider => "ResolvableRepository"
  }

  /** The two refusals of the dispatch: "Other" is not yet supported, any
      other unknown type is not supported at all. */
  function UnsupportedType(repType: Value): Exception
  {
    if repType == Literal("Other") then
      Raise(UnsupportedOperationException, "Operation not yet supported for generic type.")
    else
      Raise(FedXRuntimeException, "Repository type not supported: " + StringValue(repType))
  }

  /** The dispatch of the `util` factory: no resolvable repositories. */
  function SelectProvider(repType: Value): (r: Result<Provider>)
    ensures r.Ok? ==> r.value != ResolvableRepositoryProvider && repType == Literal(TypeName(r.value))
    ensures r.Err? ==> r.error == UnsupportedType(repType)
  {
    if repType == Literal("NativeStore") then Ok(NativeStoreProvider)
    else if repType == Literal("SPARQLEndpoint") then Ok(SparqlProvider)
    else if repType == Literal("RemoteRepository") then Ok(RemoteRepositoryProvider)
    else Err(UnsupportedType(repType))
  }

  /** The dispatch of the `endpoint` factory, which adds resolvable
      repositories. */
  function SelectProviderWithResolvable(repType: Value): (r: Result<Provider>)
    ensures r.Ok? ==> repType == Literal(TypeName(r.value))
    ensures r.Err? ==> r.error == UnsupportedType(repType)
  {
    if repType == Literal("NativeStore") then Ok(NativeStoreProvider)
    else if repType == Literal("SPARQLEndpoint") then Ok(SparqlProvider)
    else if repType == Literal("RemoteRepository") then Ok(RemoteRepositoryProvider)
    else if repType == Literal("ResolvableRepository") then Ok(ResolvableRepositoryProvider)
    else Err(UnsupportedType(repType))
  }

  /** Each provider's literal selects that provider, in both factories where
      the provider exists; an IRI never selects one. */
  lemma SelectProviderRoundTrip(p: Provider, iri: string)
    ensures SelectProviderWithResolvable(Literal(TypeName(p))) == Ok(p)
    ensures p != ResolvableRepositoryProvider ==> SelectProvider(Literal(TypeName(p))) == Ok(p)
    ensures SelectProvider(Iri(iri)).Err? && SelectProviderWithResolvable(Iri(iri)).Err?
  {
  }

  /** The two factories agree on every type except "ResolvableRepository",
      which only the newer one accepts. */
  lemma DispatchesAgree(repType: Value)
    ensures repType != Literal("ResolvableRepository") ==>
              SelectProvider(repType) == SelectProviderWithResolvable(repType)
    ensures SelectProvider(Literal("ResolvableRepository"))
              == Err(Raise(FedXRuntimeException, "Repository type not supported: ResolvableRepository"))
  {
    var v := Literal("ResolvableRepository");
    assert v.lexical[0] != "NativeStore"[0] && v.lexical[0] != "SPARQLEndpoint"[0] && v.lexical[0] != "Other"[0];
    assert v.lexical[2] != "RemoteRepository"[2];
    assert "Repository type not supported: " + "ResolvableRepository"
        == "Repository type not supported: ResolvableRepository";
  }
}
