/** The etcd keys and JSON records through which the receiver configures
    the vulcand router, shared by every revision of the router writer: one
    backend per project, one frontend per host name, one server per web
    container. */
module RouterRecords {
  import opened Wrappers
  import opened GoStrings
  import opened JsonText
  import Container

  const KeyBase: string := "/vulcand"
  const BackendsDir: string := "/backends/"
  const FrontendsDir: string := "/frontends/"

  function BackendKey(projectName: string): string
  {
    KeyBase + BackendsDir + projectName + "/backend"
  }

  function FrontendKey(identifier: string): string
  {
    KeyBase + FrontendsDir + identifier + "/frontend"
  }

  function ServerKey(projectName: string, containerId: string): string
  {
    KeyBase + BackendsDir + projectName + "/servers/" + containerId
  }

  /** The frontend key names its identifier: distinct identifiers, distinct
      keys. */
  lemma FrontendKeyInjective(a: string, b: string)
    requires FrontendKey(a) == FrontendKey(b)
    ensures a == b
  {
    var n := |KeyBase + FrontendsDir|;
    assert a == FrontendKey(a)[n..|FrontendKey(a)| - 9];
    assert b == FrontendKey(b)[n..|FrontendKey(b)| - 9];
  }

  /** Backend and server records live under `/vulcand/backends/`, frontends
      under `/vulcand/frontends/`, and a project's backend key is not one of
      its server keys. */
  lemma KeysApart(projectName: string, containerId: string, identifier: string)
    ensures FrontendKey(identifier) != BackendKey(projectName)
    ensures FrontendKey(identifier) != ServerKey(projectName, containerId)
    ensures BackendKey(projectName) != ServerKey(projectName, containerId)
  {
    assert FrontendKey(identifier)[9] == 'f';
    assert BackendKey(projectName)[9] == 'b';
    assert ServerKey(projectName, containerId)[9] == 'b';
    var n := |KeyBase + BackendsDir + projectName|;
    assert BackendKey(projectName)[n + 1] == 'b';
    assert ServerKey(projectName, containerId)[n + 1] == 's';
  }

  // ------------------------------------------------------------- frontend

  /** The routing rule: the lower-cased identifier as a sub-domain of the
      lower-cased base domain, any path. */
  function Route(identifier: string, baseDomain: string): string
  {
    "Host(`" + ToLower(identifier) + "." + ToLower(baseDomain) + "`) && PathRegexp(`/`)"
  }

  /** The case of the identifier and of the domain does not matter. */
  lemma RouteIgnoresCase(identifier: string, baseDomain: string)
    ensures Route(identifier, baseDomain) == Route(ToLower(identifier), ToLower(baseDomain))
  {
    ToLowerIdempotent(identifier);
    ToLowerIdempotent(baseDomain);
  }

  const FrontendHead: string := "{\"Type\":\"http\",\"BackendId\":\""
  const RouteLabel: string := ",\"Route\":\""
  const SettingsTail: string := ",\"Settings\":{\"TrustForwardHeader\":true}}"

  /** The frontend record `{Type: "http", BackendId, Route, Settings:
      {TrustForwardHeader: true}}` as `json.Marshal` writes it (`escapeAmp`
      true) or with literal ampersands. */
  function MarshalFrontend(backendId: string, route: string, escapeAmp: bool): string
  {
    PairRecord(FrontendHead, backendId, RouteLabel, route, SettingsTail, escapeAmp)
  }

  /** The value the Go code stores: the marshalled record with every
      `\u0026` replaced by `&`. */
  function FrontendValueAsWritten(backendId: string, route: string): string
  {
    RestoreAmpersands(MarshalFrontend(backendId, route, true))
  }

  /** The record with its ampersands literal and everything else escaped as
      `json.Marshal` does: the value the replacement is meant to produce. */
  function FrontendValue(backendId: string, route: string): string
  {
    MarshalFrontend(backendId, route, false)
  }

  /** `BackendId` and `Route` of a stored frontend record. */
  function ReadFrontend(t: string): Option<(string, string)>
  {
    ReadPair(t, FrontendHead, RouteLabel, SettingsTail)
  }

  /** The stored frontend record reads back as its backend and route. */
  lemma FrontendRoundTrip(backendId: string, route: string)
    ensures ReadFrontend(FrontendValue(backendId, route)) == Some((backendId, route))
  {
    PairRoundTrip(FrontendHead, backendId, RouteLabel, route, SettingsTail, false);
  }

  lemma PlainHead()
    ensures '\\' !in FrontendHead
  {
  }

  lemma PlainLabel()
    ensures '\\' !in "\"" + RouteLabel
  {
  }

  lemma PlainTail()
    ensures '\\' !in "\"" + SettingsTail
  {
  }

  /** Without backslashes in the fields, the replacement gives exactly the
      record with literal ampersands. */
  lemma FrontendAsWrittenAgrees(backendId: string, route: string)
    requires '\\' !in backendId && '\\' !in route
    ensures FrontendValueAsWritten(backendId, route) == FrontendValue(backendId, route)
  {
    PlainHead();
    PlainLabel();
    PlainTail();
    RestorePair(FrontendHead, backendId, RouteLabel, route, SettingsTail);
  }

  /** Neither the backend nor the parts of the host name hold a
      backslash: the replacement then meets only the escapes `json.Marshal`
      made. */
  predicate PlainFrontend(backendId: string, identifier: string, baseDomain: string)
  {
    '\\' !in backendId && '\\' !in identifier && '\\' !in baseDomain
  }

  lemma LowerAddsNoBackslash(s: string)
    requires '\\' !in s
    ensures '\\' !in ToLower(s)
  {
    forall i | 0 <= i < |s|
      ensures ToLower(s)[i] != '\\'
    {
      assert s[i] in s;
    }
  }

  /** The record the Go code stores reads back as its backend and route
      whenever no field holds a backslash (see `FrontendAsWrittenBroken`
      for one that does). */
  lemma StoredFrontendReads(backendId: string, identifier: string, baseDomain: string)
    ensures PlainFrontend(backendId, identifier, baseDomain) ==>
      ReadFrontend(FrontendValueAsWritten(backendId, Route(identifier, baseDomain)))
        == Some((backendId, Route(identifier, baseDomain)))
  {
    if PlainFrontend(backendId, identifier, baseDomain) {
      LowerAddsNoBackslash(identifier);
      LowerAddsNoBackslash(baseDomain);
      var route := Route(identifier, baseDomain);
      assert '\\' !in route;
      FrontendAsWrittenAgrees(backendId, route);
      FrontendRoundTrip(backendId, route);
    }
  }

  lemma LowerEscapedAmp(w: string)
    ensures ToLower(EscapedAmp + w) == EscapedAmp + ToLower(w)
  {
    ToLowerAppend(EscapedAmp, w);
    assert ToLower(EscapedAmp) == EscapedAmp;
  }

  /** A route identifier that starts with the six characters `\u0026`,
      under a project name without a backslash, gives a stored record no
      JSON reader accepts: the route holds `\&`. The `user-app` identifier
      of a user whose name starts with `\u0026` is one. */
  lemma FrontendAsWrittenBroken(projectName: string, identifier: string, baseDomain: string)
    requires '\\' !in projectName && HasPrefix(identifier, EscapedAmp)
    ensures ReadFrontend(FrontendValueAsWritten(projectName, Route(identifier, baseDomain))) == None
  {
    var w := identifier[|EscapedAmp|..];
    assert identifier == EscapedAmp + w;
    LowerEscapedAmp(w);
    var a := "Host(`";
    var z := ToLower(w) + "." + ToLower(baseDomain) + "`) && PathRegexp(`/`)";
    assert Route(identifier, baseDomain) == a + EscapedAmp + z;
    PlainHead();
    PlainLabel();
    RestorePairBroken(FrontendHead, projectName, RouteLabel, a, z, SettingsTail);
  }

  // --------------------------------------------------------------- server

  /** The address of the web container's exposed port. */
  function ServerUrl(c: Container.Container): string
  {
    "http://" + Container.HostIP(c) + ":" + Container.HostPort(c)
  }

  const ServerHead: string := "{\"URL\":\""
  const ServerTail: string := "}"

  /** The server record `{URL}` as `json.Marshal` writes it. */
  function ServerValue(url: string): string
  {
    SingleRecord(ServerHead, url, ServerTail)
  }

  /** The stored server record reads back as its URL. */
  lemma ServerRoundTrip(url: string)
    ensures ReadSingle(ServerValue(url), ServerHead, ServerTail) == Some(url)
  {
    SingleRoundTrip(ServerHead, url, ServerTail);
  }

  // -------------------------------------------------------------- backend

  /** `json.Marshal` of the backend record `{Type: "http"}`. */
  const MarshalledBackend: string := "{\"Type\":\"http\"}"
}

/** `RegisterInformation` of `receiver/vulcand/vulcand.go`: the project's
    backend, a frontend for each of its two host names, then the web
    container's server, written in that order into etcd; the first failed
    write ends the registration. */
module VulcandRegister {
  import opened Wrappers
  import opened GoStrings
  import opened KeyValueStore
  import opened RouterRecords
  import opened JsonText
  import Application
  import Container

  /** `httpBackendJSON` is declared in this file but never assigned, so the
      backend record written is the empty string. */
  const BackendValue: string := ""

  const BackendStoreError: string := "Failed to set vulcand backend in etcd."
  const FrontendStoreError: string := "Failed to set vulcand frontend in etcd."
  const ServerStoreError: string := "Failed to set vulcand server in etcd."
  const BackendError: string := "Failed to set vulcand backend."
  const FrontendError: string := "Failed to set vulcand frontend. identifier: "

  /** `setBackend`. */
  function SetBackend(st: Store, app: Application.Application): (r: (Store, Outcome))
    ensures r.1.Pass? <==> BackendKey(app.projectName) !in st.failing
    ensures r.1.Pass? ==> Get(r.0, BackendKey(app.projectName)) == Ok(BackendValue)
    ensures r.1.Fail? ==> r.0 == st
    ensures r.1.Fail? ==> r.1.msg == Wrap(BackendStoreError, Set(st, BackendKey(app.projectName), BackendValue).1.msg)
  {
    var (st', out) := Set(st, BackendKey(app.projectName), BackendValue);
    if out.Fail? then (st', Fail(Wrap(BackendStoreError, out.msg))) else (st', Pass)
  }

  /** `setFrontend`: the stored record is the marshalled one with its
      `\u0026` sequences replaced; when no field holds a backslash it names
      the project's backend and routes the identifier's host name to it. */
  function SetFrontend(st: Store, app: Application.Application, identifier: string, baseDomain: string): (r: (Store, Outcome))
    ensures r.1.Pass? <==> FrontendKey(identifier) !in st.failing
    ensures r.1.Pass? ==>
      Get(r.0, FrontendKey(identifier)) == Ok(FrontendValueAsWritten(app.projectName, Route(identifier, baseDomain)))
    ensures r.1.Pass? && PlainFrontend(app.projectName, identifier, baseDomain) ==>
      ReadFrontend(Get(r.0, FrontendKey(identifier)).value) == Some((app.projectName, Route(identifier, baseDomain)))
    ensures r.1.Fail? ==> r.0 == st
    ensures r.1.Fail? ==> r.1.msg == Wrap(FrontendStoreError,
      Set(st, FrontendKey(identifier), FrontendValueAsWritten(app.projectName, Route(identifier, baseDomain))).1.msg)
  {
    StoredFrontendReads(app.projectName, identifier, baseDomain);
    var (st', out) := Set(st, FrontendKey(identifier), FrontendValueAsWritten(app.projectName, Route(identifier, baseDomain)));
    if out.Fail? then (st', Fail(Wrap(FrontendStoreError, out.msg))) else (st', Pass)
  }

  /** `setServer`: the stored record holds the address of the container's
      exposed port. */
  function SetServer(st: Store, app: Application.Application, c: Container.Container): (r: (Store, Outcome))
    ensures r.1.Pass? <==> ServerKey(app.projectName, c.containerId) !in st.failing
    ensures r.1.Pass? ==>
      Get(r.0, ServerKey(app.projectName, c.containerId)).Ok?
      && ReadSingle(Get(r.0, ServerKey(app.projectName, c.containerId)).value, ServerHead, ServerTail) == Some(ServerUrl(c))
    ensures r.1.Fail? ==> r.0 == st
    ensures r.1.Fail? ==> r.1.msg == Wrap(ServerStoreError,
      Set(st, ServerKey(app.projectName, c.containerId), ServerValue(ServerUrl(c))).1.msg)
  {
    ServerRoundTrip(ServerUrl(c));
    var (st', out) := Set(st, ServerKey(app.projectName, c.containerId), ServerValue(ServerUrl(c)));
    if out.Fail? then (st', Fail(Wrap(ServerStoreError, out.msg))) else (st', Pass)
  }

  /** The host names a project is reachable under: the project name, and
      user and app name joined by `-`, both lower-cased. */
  function Identifiers(app: Application.Application): seq<string>
  {
    [ToLower(app.projectName), ToLower(app.username + "-" + app.appName)]
  }

  /** Names without backslashes give host names without them, so every
      frontend of the project reads back. */
  lemma IdentifiersPlain(app: Application.Application, baseDomain: string)
    requires '\\' !in app.projectName && '\\' !in app.username && '\\' !in app.appName && '\\' !in baseDomain
    ensures forall id | id in Identifiers(app) :: PlainFrontend(app.projectName, id, baseDomain)
  {
    LowerAddsNoBackslash(app.projectName);
    assert '\\' !in app.username + "-" + app.appName;
    LowerAddsNoBackslash(app.username + "-" + app.appName);
  }

  /** The loop over the identifiers. */
  function SetFrontends(st: Store, app: Application.Application, ids: seq<string>, baseDomain: string): (r: (Store, Outcome))
    decreases |ids|
  {
    if ids == [] then (st, Pass)
    else
      var (st', out) := SetFrontend(st, app, ids[0], baseDomain);
      if out.Fail? then (st', Fail(Wrap(FrontendError + ids[0], out.msg)))
      else SetFrontends(st', app, ids[1..], baseDomain)
  }

  /** `RegisterInformation`: the identifiers on success, no identifiers
      and the first failure otherwise. */
  function RegisterInformation(st: Store, app: Application.Application, baseDomain: string, c: Container.Container)
    : (r: (Store, Result<seq<string>>))
    ensures r.1.Ok? ==> r.1.value == Identifiers(app)
    ensures BackendKey(app.projectName) in st.failing ==> r.0 == st && r.1.Err?
  {
    var (st1, out1) := SetBackend(st, app);
    if out1.Fail? then (st1, Err(Wrap(BackendError, out1.msg)))
    else
      var ids := Identifiers(app);
      var (st2, out2) := SetFrontends(st1, app, ids, baseDomain);
      if out2.Fail? then (st2, Err(out2.msg))
      else
        var (st3, out3) := SetServer(st2, app, c);
        if out3.Fail? then (st3, Err(Wrap(BackendError, out3.msg)))
        else (st3, Ok(ids))
  }

  // ------------------------------------------------------------ the plan

  /** One write of the registration, with the message its failure is
      wrapped in. */
  datatype Step = Step(key: string, value: string, context: string)

  function FrontendSteps(app: Application.Application, ids: seq<string>, baseDomain: string): (r: seq<Step>)
    ensures |r| == |ids|
  {
    seq(|ids|, i requires 0 <= i < |ids| =>
      Step(FrontendKey(ids[i]), FrontendValueAsWritten(app.projectName, Route(ids[i], baseDomain)),
           Wrap(FrontendError + ids[i], FrontendStoreError)))
  }

  /** Every write of a registration, in order. */
  function Plan(app: Application.Application, baseDomain: string, c: Container.Container): (r: seq<Step>)
    ensures |r| == 4
  {
    [Step(BackendKey(app.projectName), BackendValue, Wrap(BackendError, BackendStoreError))]
    + FrontendSteps(app, Identifiers(app), baseDomain)
    + [Step(ServerKey(app.projectName, c.containerId), ServerValue(ServerUrl(c)), Wrap(BackendError, ServerStoreError))]
  }

  /** The position of the first write whose key fails, if any. */
  function FirstFailing(failing: set<string>, steps: seq<Step>): (r: Option<nat>)
    ensures r.None? <==> forall i | 0 <= i < |steps| :: steps[i].key !in failing
    ensures r.Some? ==> r.value < |steps| && steps[r.value].key in failing
    ensures r.Some? ==> forall j | 0 <= j < r.value :: steps[j].key !in failing
  {
    if steps == [] then None
    else if steps[0].key in failing then Some(0)
    else match FirstFailing(failing, steps[1..])
      case None => None
      case Some(i) => Some(i + 1)
  }

  /** The store after every write of `steps`, none failing. */
  function Written(st: Store, steps: seq<Step>): Store
    decreases |steps|
  {
    if steps == [] then st else Written(Put(st, steps[0].key, steps[0].value), steps[1..])
  }

  function SetStep(st: Store, s: Step): (Store, Outcome)
  {
    var (st', out) := Set(st, s.key, s.value);
    if out.Fail? then (st', Fail(Wrap(s.context, out.msg))) else (st', Pass)
  }

  /** The writes of `steps`, in order, up to the first that fails: the
      writes before it are made, none after it, and its failure is
      reported. */
  function Apply(st: Store, steps: seq<Step>): (r: (Store, Outcome))
    ensures FirstFailing(st.failing, steps).None? ==> r == (Written(st, steps), Pass)
    ensures FirstFailing(st.failing, steps).Some? ==>
      var i := FirstFailing(st.failing, steps).value;
      r == (Written(st, steps[..i]), Fail(Wrap(steps[i].context, Set(st, steps[i].key, steps[i].value).1.msg)))
    decreases |steps|
  {
    if steps == [] then (st, Pass)
    else
      var (st', out) := SetStep(st, steps[0]);
      if out.Fail? then (st', out)
      else
        var r := Apply(st', steps[1..]);
        assert FirstFailing(st.failing, steps).Some? ==>
          var i := FirstFailing(st.failing, steps).value;
          steps[1..][..i - 1] == steps[..i][1..] && steps[1..][i - 1] == steps[i];
        r
  }

  // ------------------------------------------- the registration is the plan

  lemma WrapNested(a: string, b: string, c: string)
    ensures Wrap(a, Wrap(b, c)) == Wrap(Wrap(a, b), c)
  {
    ConcatAssoc(a + ": ", b + ": ", c);
    ConcatAssoc(a + ": ", b, ": ");
    ConcatAssoc(a, ": ", b);
  }

  /** Running two lists of writes one after the other is running their
      concatenation. */
  lemma {:induction false} ApplyConcat(st: Store, a: seq<Step>, b: seq<Step>)
    ensures Apply(st, a + b) == (if Apply(st, a).1.Fail? then Apply(st, a) else Apply(Apply(st, a).0, b))
    decreases |a|
  {
    if a == [] {
      assert a + b == b;
    } else {
      assert (a + b)[0] == a[0] && (a + b)[1..] == a[1..] + b;
      var (st', out) := SetStep(st, a[0]);
      if out.Pass? {
        ApplyConcat(st', a[1..], b);
      }
    }
  }

  lemma SetFrontendIsStep(st: Store, app: Application.Application, id: string, baseDomain: string)
    ensures var (st', out) := SetFrontend(st, app, id, baseDomain);
      SetStep(st, FrontendSteps(app, [id], baseDomain)[0])
      == (st', if out.Fail? then Fail(Wrap(FrontendError + id, out.msg)) else Pass)
  {
    var step := FrontendSteps(app, [id], baseDomain)[0];
    var out := Set(st, step.key, step.value).1;
    if out.Fail? {
      WrapNested(FrontendError + id, FrontendStoreError, out.msg);
    }
  }

  lemma SetBackendIsStep(st: Store, app: Application.Application, baseDomain: string, c: Container.Container)
    ensures var (st', out) := SetBackend(st, app);
      SetStep(st, Plan(app, baseDomain, c)[0]) == (st', if out.Fail? then Fail(Wrap(BackendError, out.msg)) else Pass)
  {
    var step := Plan(app, baseDomain, c)[0];
    var out := Set(st, step.key, step.value).1;
    if out.Fail? {
      WrapNested(BackendError, BackendStoreError, out.msg);
    }
  }

  lemma SetServerIsStep(st: Store, app: Application.Application, baseDomain: string, c: Container.Container)
    ensures var (st', out) := SetServer(st, app, c);
      SetStep(st, Plan(app, baseDomain, c)[3]) == (st', if out.Fail? then Fail(Wrap(BackendError, out.msg)) else Pass)
  {
    var step := Plan(app, baseDomain, c)[3];
    var out := Set(st, step.key, step.value).1;
    if out.Fail? {
      WrapNested(BackendError, ServerStoreError, out.msg);
    }
  }

  /** A plan of one write, some writes, and one more. */
  lemma ApplyThree(st: Store, b: Step, f: seq<Step>, s: Step)
    ensures Apply(st, [b] + f + [s])
      == var (st1, out1) := SetStep(st, b);
         if out1.Fail? then (st1, out1)
         else
           var (st2, out2) := Apply(st1, f);
           if out2.Fail? then (st2, out2) else SetStep(st2, s)
  {
    ApplyConcat(st, [b] + f, [s]);
    ApplyConcat(st, [b], f);
    SingleStep(st, b);
    var (st1, out1) := SetStep(st, b);
    if out1.Pass? {
      var (st2, out2) := Apply(st1, f);
      if out2.Pass? {
        SingleStep(st2, s);
      }
    }
  }

  /** The loop over the identifiers makes the frontend writes of the plan. */
  lemma {:induction false} SetFrontendsIsApply(st: Store, app: Application.Application, ids: seq<string>, baseDomain: string)
    ensures SetFrontends(st, app, ids, baseDomain) == Apply(st, FrontendSteps(app, ids, baseDomain))
    decreases |ids|
  {
    if ids != [] {
      var steps := FrontendSteps(app, ids, baseDomain);
      assert steps[0] == FrontendSteps(app, [ids[0]], baseDomain)[0];
      assert steps[1..] == FrontendSteps(app, ids[1..], baseDomain);
      SetFrontendIsStep(st, app, ids[0], baseDomain);
      var (st', out) := SetFrontend(st, app, ids[0], baseDomain);
      if out.Pass? {
        SetFrontendsIsApply(st', app, ids[1..], baseDomain);
      }
    }
  }

  lemma SingleStep(st: Store, s: Step)
    ensures Apply(st, [s]) == SetStep(st, s)
  {
    assert [s][1..] == [];
  }

  /** `RegisterInformation` makes the writes of the plan, in order, and
      fails exactly as the plan does. */
  lemma RegisterFollowsPlan(st: Store, app: Application.Application, baseDomain: string, c: Container.Container)
    ensures var r := RegisterInformation(st, app, baseDomain, c);
      var run := Apply(st, Plan(app, baseDomain, c));
      r.0 == run.0 && (r.1.Ok? <==> run.1.Pass?) && (r.1.Err? ==> r.1.msg == run.1.msg)
  {
    var plan := Plan(app, baseDomain, c);
    var f := FrontendSteps(app, Identifiers(app), baseDomain);
    assert plan == [plan[0]] + f + [plan[3]];
    ApplyThree(st, plan[0], f, plan[3]);
    SetBackendIsStep(st, app, baseDomain, c);
    var (st1, out1) := SetBackend(st, app);
    if out1.Pass? {
      SetFrontendsIsApply(st1, app, Identifiers(app), baseDomain);
      var (st2, out2) := SetFrontends(st1, app, Identifiers(app), baseDomain);
      if out2.Pass? {
        SetServerIsStep(st2, app, baseDomain, c);
      }
    }
  }

  /** The outcome of a registration: it succeeds exactly when no write of
      the plan fails, and then has made every write and returns the
      identifiers; otherwise it has made the writes before the first failing
      one and none after, and reports that one's failure. */
  lemma RegisterOutcome(st: Store, app: Application.Application, baseDomain: string, c: Container.Container)
    ensures var r := RegisterInformation(st, app, baseDomain, c);
      var plan := Plan(app, baseDomain, c);
      (r.1.Ok? <==> FirstFailing(st.failing, plan).None?)
      && (r.1.Ok? ==> r.0 == Written(st, plan) && r.1.value == Identifiers(app))
      && (r.1.Err? ==>
            var i := FirstFailing(st.failing, plan).value;
            r.0 == Written(st, plan[..i])
            && r.1.msg == Wrap(plan[i].context, Set(st, plan[i].key, plan[i].value).1.msg))
  {
    RegisterFollowsPlan(st, app, baseDomain, c);
  }

  // ---------------------------------------------- what a registration leaves

  /** Writes leave the failing keys, directories and listings alone. */
  lemma {:induction false} WrittenShape(st: Store, steps: seq<Step>)
    ensures var w := Written(st, steps);
      w.failing == st.failing && w.dirs == st.dirs && w.listings == st.listings && w.cause == st.cause
    decreases |steps|
  {
    if steps != [] {
      WrittenShape(Put(st, steps[0].key, steps[0].value), steps[1..]);
    }
  }

  /** A key no step writes keeps its value, or its absence. */
  lemma {:induction false} WrittenFrame(st: Store, steps: seq<Step>, key: string)
    requires forall i | 0 <= i < |steps| :: steps[i].key != key
    ensures key in Written(st, steps).values <==> key in st.values
    ensures key in st.values ==> Written(st, steps).values[key] == st.values[key]
    decreases |steps|
  {
    if steps != [] {
      WrittenFrame(Put(st, steps[0].key, steps[0].value), steps[1..], key);
    }
  }

  /** A step's value is in place after all writes, unless a later step
      writes another value under the same key. */
  lemma {:induction false} WrittenHolds(st: Store, steps: seq<Step>, i: nat)
    requires i < |steps|
    requires forall j | i < j < |steps| && steps[j].key == steps[i].key :: steps[j].value == steps[i].value
    ensures steps[i].key in Written(st, steps).values && Written(st, steps).values[steps[i].key] == steps[i].value
    decreases |steps|
  {
    var st' := Put(st, steps[0].key, steps[0].value);
    if i == 0 {
      if forall j | 0 < j < |steps| :: steps[j].key != steps[0].key {
        WrittenFrame(st', steps[1..], steps[0].key);
      } else {
        var j :| 0 < j < |steps| && steps[j].key == steps[0].key;
        WrittenHolds(st', steps[1..], j - 1);
      }
    } else {
      WrittenHolds(st', steps[1..], i - 1);
    }
  }

  /** Steps that agree on the value of every key they share. */
  predicate Consistent(steps: seq<Step>)
  {
    forall i, j | 0 <= i < j < |steps| && steps[i].key == steps[j].key :: steps[i].value == steps[j].value
  }

  /** After the writes of consistent steps, none failing, each key reads
      back as its step's value and every other key reads as before. */
  lemma WrittenReads(st: Store, steps: seq<Step>)
    requires Consistent(steps) && FirstFailing(st.failing, steps).None?
    ensures forall i | 0 <= i < |steps| :: Get(Written(st, steps), steps[i].key) == Ok(steps[i].value)
    ensures forall key | forall i | 0 <= i < |steps| :: steps[i].key != key ::
      Get(Written(st, steps), key) == Get(st, key)
  {
    WrittenShape(st, steps);
    forall i | 0 <= i < |steps|
      ensures Get(Written(st, steps), steps[i].key) == Ok(steps[i].value)
    {
      WrittenHolds(st, steps, i);
    }
    forall key | forall i | 0 <= i < |steps| :: steps[i].key != key
      ensures Get(Written(st, steps), key) == Get(st, key)
    {
      WrittenFrame(st, steps, key);
    }
  }

  /** The plan never writes two values under one key: its keys differ
      except when both host names are the same, and then so are the
      records. */
  lemma PlanConsistent(app: Application.Application, baseDomain: string, c: Container.Container)
    ensures Consistent(Plan(app, baseDomain, c))
  {
    var plan := Plan(app, baseDomain, c);
    var ids := Identifiers(app);
    PlanKeysAre(app, baseDomain, c);
    KeysApart(app.projectName, c.containerId, ids[0]);
    KeysApart(app.projectName, c.containerId, ids[1]);
    if plan[1].key == plan[2].key {
      FrontendKeyInjective(ids[0], ids[1]);
      assert plan[1] == plan[2];
    }
    ConsistentFour(plan);
  }

  lemma PlanKeysAre(app: Application.Application, baseDomain: string, c: Container.Container)
    ensures var plan, ids := Plan(app, baseDomain, c), Identifiers(app);
      plan[0].key == BackendKey(app.projectName) && plan[0].value == BackendValue
      && plan[1].key == FrontendKey(ids[0]) && plan[2].key == FrontendKey(ids[1])
      && plan[3].key == ServerKey(app.projectName, c.containerId)
  {
  }

  lemma ConsistentFour(steps: seq<Step>)
    requires |steps| == 4
    requires steps[0].key != steps[1].key && steps[0].key != steps[2].key && steps[0].key != steps[3].key
    requires steps[1].key != steps[3].key && steps[2].key != steps[3].key
    requires steps[1].key == steps[2].key ==> steps[1].value == steps[2].value
    ensures Consistent(steps)
  {
  }

  /** The keys a registration writes. */
  function PlanKeys(app: Application.Application, c: Container.Container): set<string>
  {
    {BackendKey(app.projectName), ServerKey(app.projectName, c.containerId)}
    + set id | id in Identifiers(app) :: FrontendKey(id)
  }

  lemma PlanValuesAre(app: Application.Application, baseDomain: string, c: Container.Container)
    ensures var plan, ids := Plan(app, baseDomain, c), Identifiers(app);
      plan[1].value == FrontendValueAsWritten(app.projectName, Route(ids[0], baseDomain))
      && plan[2].value == FrontendValueAsWritten(app.projectName, Route(ids[1], baseDomain))
      && plan[3].value == ServerValue(ServerUrl(c))
  {
  }

  /** A successful registration has made every write of the plan. */
  lemma RegisteredWritten(st: Store, app: Application.Application, baseDomain: string, c: Container.Container)
    requires RegisterInformation(st, app, baseDomain, c).1.Ok?
    ensures FirstFailing(st.failing, Plan(app, baseDomain, c)).None?
    ensures RegisterInformation(st, app, baseDomain, c).0 == Written(st, Plan(app, baseDomain, c))
  {
    RegisterOutcome(st, app, baseDomain, c);
  }

  /** What the writes of the plan leave behind, when none fails. */
  lemma PlanRecords(st: Store, app: Application.Application, baseDomain: string, c: Container.Container)
    requires FirstFailing(st.failing, Plan(app, baseDomain, c)).None?
    ensures var st' := Written(st, Plan(app, baseDomain, c));
      Get(st', BackendKey(app.projectName)) == Ok(BackendValue)
      && (forall id | id in Identifiers(app) ::
            Get(st', FrontendKey(id)) == Ok(FrontendValueAsWritten(app.projectName, Route(id, baseDomain)))
            && (PlainFrontend(app.projectName, id, baseDomain) ==>
                  ReadFrontend(Get(st', FrontendKey(id)).value) == Some((app.projectName, Route(id, baseDomain)))))
      && Get(st', ServerKey(app.projectName, c.containerId)).Ok?
      && ReadSingle(Get(st', ServerKey(app.projectName, c.containerId)).value, ServerHead, ServerTail) == Some(ServerUrl(c))
  {
    PlanEnds(st, app, baseDomain, c);
    var ids := Identifiers(app);
    forall id | id in ids
      ensures var st' := Written(st, Plan(app, baseDomain, c));
        Get(st', FrontendKey(id)) == Ok(FrontendValueAsWritten(app.projectName, Route(id, baseDomain)))
        && (PlainFrontend(app.projectName, id, baseDomain) ==>
              ReadFrontend(Get(st', FrontendKey(id)).value) == Some((app.projectName, Route(id, baseDomain))))
    {
      if id == ids[0] {
        PlanFrontendRecord(st, app, baseDomain, c, 0);
      } else {
        PlanFrontendRecord(st, app, baseDomain, c, 1);
      }
    }
  }

  lemma PlanEnds(st: Store, app: Application.Application, baseDomain: string, c: Container.Container)
    requires FirstFailing(st.failing, Plan(app, baseDomain, c)).None?
    ensures var st' := Written(st, Plan(app, baseDomain, c));
      Get(st', BackendKey(app.projectName)) == Ok(BackendValue)
      && Get(st', ServerKey(app.projectName, c.containerId)).Ok?
      && ReadSingle(Get(st', ServerKey(app.projectName, c.containerId)).value, ServerHead, ServerTail) == Some(ServerUrl(c))
  {
    var plan := Plan(app, baseDomain, c);
    PlanConsistent(app, baseDomain, c);
    WrittenReads(st, plan);
    PlanKeysAre(app, baseDomain, c);
    PlanValuesAre(app, baseDomain, c);
    ServerRoundTrip(ServerUrl(c));
  }

  lemma PlanFrontendRecord(st: Store, app: Application.Application, baseDomain: string, c: Container.Container, n: nat)
    requires FirstFailing(st.failing, Plan(app, baseDomain, c)).None? && n < 2
    ensures var st', id := Written(st, Plan(app, baseDomain, c)), Identifiers(app)[n];
      Get(st', FrontendKey(id)) == Ok(FrontendValueAsWritten(app.projectName, Route(id, baseDomain)))
      && (PlainFrontend(app.projectName, id, baseDomain) ==>
            ReadFrontend(Get(st', FrontendKey(id)).value) == Some((app.projectName, Route(id, baseDomain))))
  {
    var plan, id := Plan(app, baseDomain, c), Identifiers(app)[n];
    PlanConsistent(app, baseDomain, c);
    WrittenReads(st, plan);
    PlanKeysAre(app, baseDomain, c);
    PlanValuesAre(app, baseDomain, c);
    StoredFrontendReads(app.projectName, id, baseDomain);
    assert plan[n + 1].key == FrontendKey(id);
  }

  /** The writes of the plan touch no key outside it. */
  lemma PlanFrame(st: Store, app: Application.Application, baseDomain: string, c: Container.Container)
    requires FirstFailing(st.failing, Plan(app, baseDomain, c)).None?
    ensures forall key | key !in PlanKeys(app, c) :: Get(Written(st, Plan(app, baseDomain, c)), key) == Get(st, key)
  {
    var plan := Plan(app, baseDomain, c);
    PlanConsistent(app, baseDomain, c);
    WrittenReads(st, plan);
    PlanKeysCover(app, baseDomain, c);
  }

  lemma PlanKeysCover(app: Application.Application, baseDomain: string, c: Container.Container)
    ensures forall i | 0 <= i < |Plan(app, baseDomain, c)| :: Plan(app, baseDomain, c)[i].key in PlanKeys(app, c)
  {
    var ids := Identifiers(app);
    PlanKeysAre(app, baseDomain, c);
    assert FrontendKey(ids[0]) in PlanKeys(app, c) && FrontendKey(ids[1]) in PlanKeys(app, c);
  }

  /** After a successful registration the backend reads back as the empty
      record, each host name's frontend holds the replaced record, which
      routes it to the project's backend when no field holds a backslash,
      the server holds the container's address, and every other key reads
      as it did before. */
  lemma RegisteredRecords(st: Store, app: Application.Application, baseDomain: string, c: Container.Container)
    requires RegisterInformation(st, app, baseDomain, c).1.Ok?
    ensures var st' := RegisterInformation(st, app, baseDomain, c).0;
      Get(st', BackendKey(app.projectName)) == Ok(BackendValue)
      && (forall id | id in Identifiers(app) ::
            Get(st', FrontendKey(id)) == Ok(FrontendValueAsWritten(app.projectName, Route(id, baseDomain)))
            && (PlainFrontend(app.projectName, id, baseDomain) ==>
                  ReadFrontend(Get(st', FrontendKey(id)).value) == Some((app.projectName, Route(id, baseDomain)))))
      && Get(st', ServerKey(app.projectName, c.containerId)).Ok?
      && ReadSingle(Get(st', ServerKey(app.projectName, c.containerId)).value, ServerHead, ServerTail) == Some(ServerUrl(c))
      && forall key | key !in PlanKeys(app, c) :: Get(st', key) == Get(st, key)
  {
    RegisteredWritten(st, app, baseDomain, c);
    PlanRecords(st, app, baseDomain, c);
    PlanFrame(st, app, baseDomain, c);
  }
}
