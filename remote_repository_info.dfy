/** `RemoteRepositoryGraphRepositoryInformation`: the description of a remote
    RDF4J repository, built either from a server URL and a repository name or
    from the configuration graph. Its settings live in a property map that the
    constructors fill in step by step. */
module RemoteRepositoryInfos {
  import opened Util
  import opened Rdf
  import opened Endpoints
  import opened EndpointFactories

  const RepositoryServerPredicate: string := "http://fluidops.org/config#repositoryServer"
  const RepositoryNamePredicate: string := "http://fluidops.org/config#repositoryName"

  /** A configuration triple. */
  datatype Statement = Statement(subject: Value, pred: string, obj: Value)

  /** The error `iterator().next()` raises on an empty model. */
  const NoSuchElement: Exception := Exception(NoSuchElementException, None, None)

  /** `graph.filter(subject, pred, null).iterator().next().getObject()`:
      the object of the first triple with that subject and predicate, `None`
      when there is none. The filtered model keeps the graph's order. */
  function FirstObject(graph: seq<Statement>, subject: Value, pred: string): Option<Value>
  {
    if graph == [] then None
    else if graph[0].subject == subject && graph[0].pred == pred then Some(graph[0].obj)
    else FirstObject(graph[1..], subject, pred)
  }

  /** Whether the i-th triple has the subject and predicate looked for. */
  predicate MatchesAt(graph: seq<Statement>, i: int, subject: Value, pred: string)
    requires 0 <= i < |graph|
  {
    graph[i].subject == subject && graph[i].pred == pred
  }

  /** `FirstObject` finds nothing exactly when no triple matches, and otherwise
      the object of a matching triple with no match before it. */
  lemma {:induction false} FirstObjectSpec(graph: seq<Statement>, subject: Value, pred: string)
    ensures var r := FirstObject(graph, subject, pred);
            (r.None? <==> forall i :: 0 <= i < |graph| ==> !MatchesAt(graph, i, subject, pred))
            && (r.Some? ==> exists i :: 0 <= i < |graph| && MatchesAt(graph, i, subject, pred)
                                        && graph[i].obj == r.value
                                        && forall j :: 0 <= j < i ==> !MatchesAt(graph, j, subject, pred))
  {
    if graph != [] && !MatchesAt(graph, 0, subject, pred) {
      var tail := graph[1..];
      FirstObjectSpec(tail, subject, pred);
      forall i | 1 <= i < |graph|
        ensures MatchesAt(graph, i, subject, pred) == MatchesAt(tail, i - 1, subject, pred)
      {
        assert graph[i] == tail[i - 1];
      }
      var r := FirstObject(tail, subject, pred);
      if r.Some? {
        var k :| 0 <= k < |tail| && MatchesAt(tail, k, subject, pred) && tail[k].obj == r.value
                 && forall j :: 0 <= j < k ==> !MatchesAt(tail, j, subject, pred);
        assert graph[k + 1] == tail[k];
        assert MatchesAt(graph, k + 1, subject, pred);
      }
    }
  }

  /** The id the graph form derives from the node: "remote_", then the node
      without "http://" and with "_" for "/". */
  function GraphId(node: string): string
  {
    GetId(node, "remote")
  }

  class RemoteRepositoryInformation {
    const epType: EndpointType
    /** The settings (`setProperty`): "id", "name", "location",
        "repositoryServer", "repositoryName". */
    var properties: map<string, string>

    /** `new RemoteRepositoryGraphRepositoryInformation(repositoryServer,
        repositoryName)`: id "remote_" + name, name "http://" + name, location
        server + "/" + name, and the two inputs stored verbatim. */
    constructor Direct(repositoryServer: string, repositoryName: string)
      ensures epType == RemoteRepository
      ensures properties == map["id" := "remote_" + repositoryName,
                                "name" := HttpPrefix + repositoryName,
                                "location" := repositoryServer + "/" + repositoryName,
                                "repositoryServer" := repositoryServer,
                                "repositoryName" := repositoryName]
    {
      epType := RemoteRepository;
      properties := map["id" := "remote_" + repositoryName,
                        "name" := HttpPrefix + repositoryName,
                        "location" := repositoryServer + "/" + repositoryName];
      new;
      SetProperty("repositoryServer", repositoryServer);
      SetProperty("repositoryName", repositoryName);
    }

    /** `super(EndpointType.RemoteRepository)`: the type, no settings yet. */
    constructor OfType()
      ensures epType == RemoteRepository && properties == map[]
    {
      epType := RemoteRepository;
      properties := map[];
    }

    /** `setProperty(key, value)`. */
    method SetProperty(key: string, value: string)
      modifies this`properties
      ensures properties == old(properties)[key := value]
    {
      properties := properties[key := value];
    }

    /** `initialize(graph, repNode)`: the name is the node's string value; the
        first `repositoryServer` object becomes both the location and the
        `repositoryServer` setting; the first `repositoryName` object the
        `repositoryName` setting; and the id is derived from the node. A missing
        triple raises `NoSuchElementException` and leaves the settings made
        before it. */
    method Initialize(graph: seq<Statement>, repNode: Value) returns (r: Outcome)
      modifies this`properties
      ensures var server := FirstObject(graph, repNode, RepositoryServerPredicate);
              var name := FirstObject(graph, repNode, RepositoryNamePredicate);
              var named := old(properties)["name" := StringValue(repNode)];
              (server.None? ==> r == Failure(NoSuchElement) && properties == named)
              && (server.Some? ==>
                    var located := named["location" := StringValue(server.value)]
                                        ["repositoryServer" := StringValue(server.value)];
                    (name.None? ==> r == Failure(NoSuchElement) && properties == located)
                    && (name.Some? ==>
                          r == Success
                          && properties == located["repositoryName" := StringValue(name.value)]
                                                  ["id" := GraphId(StringValue(repNode))]))
    {
      SetProperty("name", StringValue(repNode));
      var server := FirstObject(graph, repNode, RepositoryServerPredicate);
      if server.None? {
        return Failure(NoSuchElement);
      }
      var location := StringValue(server.value);
      SetProperty("location", location);
      SetProperty("repositoryServer", location);
      var name := FirstObject(graph, repNode, RepositoryNamePredicate);
      if name.None? {
        return Failure(NoSuchElement);
      }
      SetProperty("repositoryName", StringValue(name.value));
      var id := ReplaceAll(StringValue(repNode), HttpPrefix, "");
      id := "remote_" + ReplaceAll(id, "/", "_");
      assert "remote" + "_" == "remote_";
      SetProperty("id", id);
      r := Success;
    }
  }

  /** `new RemoteRepositoryGraphRepositoryInformation(graph, repNode)`: the
      constructor's exception is the `Err` result. */
  method FromGraph(graph: seq<Statement>, repNode: Value) returns (r: Result<RemoteRepositoryInformation>)
    ensures var server := FirstObject(graph, repNode, RepositoryServerPredicate);
            var name := FirstObject(graph, repNode, RepositoryNamePredicate);
            (r.Err? <==> server.None? || name.None?)
            && (r.Err? ==> r.error == NoSuchElement)
            && (r.Ok? ==> fresh(r.value) && r.value.epType == RemoteRepository
                          && r.value.properties == map["name" := StringValue(repNode),
                                                       "location" := StringValue(server.value),
                                                       "repositoryServer" := StringValue(server.value),
                                                       "repositoryName" := StringValue(name.value),
                                                       "id" := GraphId(StringValue(repNode))])
  {
    var info := new RemoteRepositoryInformation.OfType();
    var o := info.Initialize(graph, repNode);
    if o.Failure? {
      return Err(o.error);
    }
    r := Ok(info);
  }

  /** The graph form's id: "remote_", then no '/' at all. */
  lemma GraphIdSpec(node: string)
    ensures var id := GraphId(node);
            |id| >= 7 && id[..7] == "remote_" && forall i :: 7 <= i < |id| ==> id[i] != '/'
  {
    GetIdSpec(node, "remote");
    assert "remote" + "_" == "remote_";
  }

  /** The two forms agree: a node written "http://" + name, for a repository
      name with neither '/' nor "http://" inside, gets the id the direct form
      gives that name. */
  lemma GraphIdMatchesDirectId(repositoryName: string)
    requires forall i :: !OccursAt(repositoryName, HttpPrefix, i)
    requires '/' !in repositoryName
    ensures GraphId(HttpPrefix + repositoryName) == "remote_" + repositoryName
  {
    GetIdOfPlainName(repositoryName, "remote");
    assert "remote" + "_" == "remote_";
  }

  /** The node "http://dbpedia.org/" ends in "_" in its id: the slash is
      replaced, not dropped. */
  lemma DbpediaRemoteId(node: string)
    requires node == "http://dbpedia.org/"
    ensures GraphId(node) == "remote_dbpedia.org_"
  {
    DbpediaUrlParts();
    GetIdOfHostAndPath("dbpedia.org", "", "remote");
    DbpediaRemoteIdParts();
  }

  lemma DbpediaRemoteIdParts()
    ensures "remote_dbpedia.org_" == "remote" + "_" + "dbpedia.org" + "_" + ""
  {
  }

  /** Built from the graph with both triples present, the settings name the
      same server twice, and the name is the node itself. */
  method GraphLocationIsServer(graph: seq<Statement>, repNode: Value, server: Value, name: Value)
    returns (info: RemoteRepositoryInformation)
    requires FirstObject(graph, repNode, RepositoryServerPredicate) == Some(server)
    requires FirstObject(graph, repNode, RepositoryNamePredicate) == Some(name)
    ensures info.properties.Keys == {"id", "name", "location", "repositoryServer", "repositoryName"}
    ensures info.properties["location"] == info.properties["repositoryServer"] == StringValue(server)
    ensures info.properties["name"] == StringValue(repNode)
  {
    var r := FromGraph(graph, repNode);
    info := r.value;
  }
}
