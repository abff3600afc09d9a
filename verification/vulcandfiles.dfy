/** The router writer split over `receiver/vulcand/backend.go`,
    `frontend.go` and `server.go`: the same keys and records as
    `RegisterInformation`'s helpers, but the backend record is a fixed
    text and every store error is returned as it is. */
module VulcandRecordFiles {
  import opened Wrappers
  import opened KeyValueStore
  import opened RouterRecords
  import opened JsonText
  import Application
  import Container

  /** `httpBackendJSON`, written by hand: note the space after the colon. */
  const BackendJson: string := "{\"Type\": \"http\"}"

  /** `setBackend`: the fixed record under the project's backend key. The
      base domain plays no part. */
  function SetBackend(st: Store, app: Application.Application, baseDomain: string): (r: (Store, Outcome))
    ensures r.1.Pass? <==> BackendKey(app.projectName) !in st.failing
    ensures r.1.Pass? ==> Get(r.0, BackendKey(app.projectName)) == Ok(BackendJson)
    ensures r.1.Pass? ==> r.0.values.Keys == st.values.Keys + {BackendKey(app.projectName)}
    ensures r.1.Pass? ==> forall k | k in st.values && k != BackendKey(app.projectName) :: r.0.values[k] == st.values[k]
    ensures r.1.Fail? ==> r.0 == st
    ensures r.1.Fail? ==>
      r.1.msg == Wrap("Failed to set etcd value. key: " + BackendKey(app.projectName) + ", value: " + BackendJson, st.cause)
  {
    Set(st, BackendKey(app.projectName), BackendJson)
  }

  /** Registering the backend twice leaves the store as once does. */
  lemma SetBackendIdempotent(st: Store, app: Application.Application, baseDomain: string)
    ensures SetBackend(SetBackend(st, app, baseDomain).0, app, baseDomain) == SetBackend(st, app, baseDomain)
  {
    SetIdempotent(st, BackendKey(app.projectName), BackendJson);
  }

  /** `setFrontend`: the replaced frontend record for `identifier`, its
      store error returned unwrapped. */
  function SetFrontend(st: Store, app: Application.Application, identifier: string, baseDomain: string): (r: (Store, Outcome))
    ensures r.1.Pass? <==> FrontendKey(identifier) !in st.failing
    ensures r.1.Pass? ==>
      Get(r.0, FrontendKey(identifier)) == Ok(FrontendValueAsWritten(app.projectName, Route(identifier, baseDomain)))
    ensures r.1.Pass? && PlainFrontend(app.projectName, identifier, baseDomain) ==>
      ReadFrontend(Get(r.0, FrontendKey(identifier)).value) == Some((app.projectName, Route(identifier, baseDomain)))
    ensures r.1.Pass? ==> r.0.values.Keys == st.values.Keys + {FrontendKey(identifier)}
    ensures r.1.Fail? ==> r.0 == st
    ensures r.1.Fail? ==>
      r.1.msg == Set(st, FrontendKey(identifier), FrontendValueAsWritten(app.projectName, Route(identifier, baseDomain))).1.msg
  {
    StoredFrontendReads(app.projectName, identifier, baseDomain);
    Set(st, FrontendKey(identifier), FrontendValueAsWritten(app.projectName, Route(identifier, baseDomain)))
  }

  /** `setServer`: the container's address under its own server key, the
      store error unwrapped. */
  function SetServer(st: Store, app: Application.Application, c: Container.Container, baseDomain: string): (r: (Store, Outcome))
    ensures r.1.Pass? <==> ServerKey(app.projectName, c.containerId) !in st.failing
    ensures r.1.Pass? ==>
      Get(r.0, ServerKey(app.projectName, c.containerId)).Ok?
      && ReadSingle(Get(r.0, ServerKey(app.projectName, c.containerId)).value, ServerHead, ServerTail) == Some(ServerUrl(c))
    ensures r.1.Pass? ==> r.0.values.Keys == st.values.Keys + {ServerKey(app.projectName, c.containerId)}
    ensures r.1.Pass? ==>
      forall k | k in st.values && k != ServerKey(app.projectName, c.containerId) :: r.0.values[k] == st.values[k]
    ensures r.1.Fail? ==> r.0 == st
    ensures r.1.Fail? ==> r.1.msg == Set(st, ServerKey(app.projectName, c.containerId), ServerValue(ServerUrl(c))).1.msg
  {
    ServerRoundTrip(ServerUrl(c));
    Set(st, ServerKey(app.projectName, c.containerId), ServerValue(ServerUrl(c)))
  }

  /** Two containers of one project get two server records: a second
      container's registration keeps the first one's address. */
  lemma ServersPerContainer(st: Store, app: Application.Application, c1: Container.Container, c2: Container.Container, baseDomain: string)
    requires c1.containerId != c2.containerId
    requires SetServer(st, app, c1, baseDomain).1.Pass?
    requires SetServer(SetServer(st, app, c1, baseDomain).0, app, c2, baseDomain).1.Pass?
    ensures var st' := SetServer(SetServer(st, app, c1, baseDomain).0, app, c2, baseDomain).0;
      Get(st', ServerKey(app.projectName, c1.containerId)) == Get(SetServer(st, app, c1, baseDomain).0, ServerKey(app.projectName, c1.containerId))
  {
    var n := |KeyBase + BackendsDir + app.projectName + "/servers/"|;
    assert ServerKey(app.projectName, c1.containerId)[n..] == c1.containerId;
    assert ServerKey(app.projectName, c2.containerId)[n..] == c2.containerId;
  }
}

/** The router writer of the older `receiver/vulcand.go`. The backend record
    is a package variable that only `NewVulcand` fills in, so it is a field
    of the writer here; store errors come from the older client as they are
    and are wrapped once. */
module LegacyVulcand {
  import opened Wrappers
  import opened KeyValueStore
  import opened RouterRecords
  import opened JsonText
  import Application
  import Container
  import VulcandRegister

  /** The writer, holding the backend record it writes. */
  datatype Vulcand = Vulcand(backendJson: string)

  /** `NewVulcand`: the backend record is the marshalled `{Type: "http"}`. */
  function NewVulcand(): (v: Vulcand)
    ensures v.backendJson == MarshalledBackend
  {
    Vulcand(MarshalledBackend)
  }

  /** `SetBackend`. */
  function SetBackend(v: Vulcand, st: Store, app: Application.Application, baseDomain: string): (r: (Store, Outcome))
    ensures r.1.Pass? <==> BackendKey(app.projectName) !in st.failing
    ensures r.1.Pass? ==> Get(r.0, BackendKey(app.projectName)) == Ok(v.backendJson)
    ensures r.1.Fail? ==> r.0 == st && r.1.msg == Wrap("Failed to set vulcand backend in etcd.", st.cause)
  {
    var (st', out) := SetRaw(st, BackendKey(app.projectName), v.backendJson);
    if out.Fail? then (st', Fail(Wrap("Failed to set vulcand backend in etcd.", out.msg))) else (st', Pass)
  }

  /** A writer made by `NewVulcand` stores the marshalled backend record. */
  lemma NewVulcandBackend(st: Store, app: Application.Application, baseDomain: string)
    requires BackendKey(app.projectName) !in st.failing
    ensures Get(SetBackend(NewVulcand(), st, app, baseDomain).0, BackendKey(app.projectName)) == Ok("{\"Type\":\"http\"}")
  {
  }

  /** `SetFrontend`: the same key and replaced record as the newer writer. */
  function SetFrontend(v: Vulcand, st: Store, app: Application.Application, identifier: string, baseDomain: string): (r: (Store, Outcome))
    ensures r.1.Pass? <==> FrontendKey(identifier) !in st.failing
    ensures r.1.Pass? ==>
      Get(r.0, FrontendKey(identifier)) == Ok(FrontendValueAsWritten(app.projectName, Route(identifier, baseDomain)))
    ensures r.1.Pass? && PlainFrontend(app.projectName, identifier, baseDomain) ==>
      ReadFrontend(Get(r.0, FrontendKey(identifier)).value) == Some((app.projectName, Route(identifier, baseDomain)))
    ensures r.1.Fail? ==> r.0 == st && r.1.msg == Wrap("Failed to set vulcand frontend in etcd.", st.cause)
  {
    StoredFrontendReads(app.projectName, identifier, baseDomain);
    var (st', out) := SetRaw(st, FrontendKey(identifier), FrontendValueAsWritten(app.projectName, Route(identifier, baseDomain)));
    if out.Fail? then (st', Fail(Wrap("Failed to set vulcand frontend in etcd.", out.msg))) else (st', Pass)
  }

  /** `SetServer`. */
  function SetServer(v: Vulcand, st: Store, app: Application.Application, c: Container.Container, baseDomain: string): (r: (Store, Outcome))
    ensures r.1.Pass? <==> ServerKey(app.projectName, c.containerId) !in st.failing
    ensures r.1.Pass? ==>
      Get(r.0, ServerKey(app.projectName, c.containerId)).Ok?
      && ReadSingle(Get(r.0, ServerKey(app.projectName, c.containerId)).value, ServerHead, ServerTail) == Some(ServerUrl(c))
    ensures r.1.Fail? ==> r.0 == st && r.1.msg == Wrap("Failed to set vulcand server in etcd.", st.cause)
  {
    ServerRoundTrip(ServerUrl(c));
    var (st', out) := SetRaw(st, ServerKey(app.projectName, c.containerId), ServerValue(ServerUrl(c)));
    if out.Fail? then (st', Fail(Wrap("Failed to set vulcand server in etcd.", out.msg))) else (st', Pass)
  }

  /** The older and the newer writers leave the same frontend and server
      records behind. */
  lemma SameRecordsAsNewer(st: Store, app: Application.Application, identifier: string, c: Container.Container, baseDomain: string)
    ensures SetFrontend(NewVulcand(), st, app, identifier, baseDomain).0
      == VulcandRegister.SetFrontend(st, app, identifier, baseDomain).0
    ensures SetServer(NewVulcand(), st, app, c, baseDomain).0 == VulcandRegister.SetServer(st, app, c).0
  {
  }
}
