/** The web container of `receiver/model/container.go`: its first exposed
    host binding and the HTTP health check run against it. The Docker
    inspection, the HTTP request and the sleep are outside the model: the
    port map is given, and each attempt's outcome comes from an oracle. */
module Container {
  import opened Wrappers

  /** One host binding of a container port. */
  datatype PortBinding = PortBinding(hostIp: string, hostPort: string)

  datatype Container = Container(containerId: string, exposedPort: PortBinding)

  function HostIP(c: Container): string
  {
    c.exposedPort.hostIp
  }

  function HostPort(c: Container): string
  {
    c.exposedPort.hostPort
  }

  // ------------------------------------------------------ firstExposedPort

  /** The bindings of every port, ports taken in `order`. */
  function Flatten(ports: map<string, seq<PortBinding>>, order: seq<string>): seq<PortBinding>
    requires forall k | k in order :: k in ports
  {
    if order == [] then [] else ports[order[0]] + Flatten(ports, order[1..])
  }

  /** `order` lists the ports of the map once each: the order in which the
      runtime happens to iterate it. */
  predicate IterationOrder(ports: map<string, seq<PortBinding>>, order: seq<string>)
  {
    (forall k | k in order :: k in ports)
    && (forall k | k in ports :: k in order)
    && (forall i, j | 0 <= i < j < |order| :: order[i] != order[j])
  }

  /** `firstExposedPort`: the first binding when the bindings of all ports
      are laid end to end. The Go code indexes the flattened slice without a
      check, so some port must have a binding. */
  function FirstExposedPort(ports: map<string, seq<PortBinding>>, order: seq<string>): (r: PortBinding)
    requires IterationOrder(ports, order)
    requires exists k | k in ports :: ports[k] != []
    ensures exists i | 0 <= i < |order| :: FirstBoundAt(ports, order, i) && r == ports[order[i]][0]
  {
    FirstBound(ports, order);
    var i :| 0 <= i < |order| && FirstBoundAt(ports, order, i);
    FlattenAtFirstBound(ports, order, i);
    Flatten(ports, order)[0]
  }

  /** Port `order[i]` is the first, in iteration order, with a binding. */
  predicate FirstBoundAt(ports: map<string, seq<PortBinding>>, order: seq<string>, i: nat)
    requires forall k | k in order :: k in ports
  {
    i < |order| && ports[order[i]] != [] && forall j | 0 <= j < i :: ports[order[j]] == []
  }

  lemma {:induction false} FirstBound(ports: map<string, seq<PortBinding>>, order: seq<string>)
    requires IterationOrder(ports, order)
    requires exists k | k in ports :: ports[k] != []
    ensures exists i | 0 <= i < |order| :: FirstBoundAt(ports, order, i)
  {
    var k :| k in ports && ports[k] != [];
    var n :| 0 <= n < |order| && order[n] == k;
    var i := 0;
    while i < n && ports[order[i]] == []
      invariant 0 <= i <= n
      invariant forall j | 0 <= j < i :: ports[order[j]] == []
    {
      i := i + 1;
    }
    assert FirstBoundAt(ports, order, i);
  }

  lemma {:induction false} FlattenAtFirstBound(ports: map<string, seq<PortBinding>>, order: seq<string>, i: nat)
    requires forall k | k in order :: k in ports
    requires FirstBoundAt(ports, order, i)
    ensures Flatten(ports, order) != [] && Flatten(ports, order)[0] == ports[order[i]][0]
  {
    if i > 0 {
      assert FirstBoundAt(ports, order[1..], i - 1);
      FlattenAtFirstBound(ports, order[1..], i - 1);
    }
  }

  // ---------------------------------------------------- ExecuteHealthCheck

  /** The URL every attempt requests. */
  function CheckUrl(c: Container, path: string): string
  {
    "http://" + HostIP(c) + ":" + HostPort(c) + path
  }

  /** One attempt: the callback's arguments, then the request. */
  datatype Attempt = Attempt(path: string, try: int, url: string)

  /** The attempt number of the first healthy answer within `maxTry`, if
      any. */
  function FirstHealthy(healthy: int -> bool, maxTry: int, from: int): (r: Option<int>)
    requires from >= 1
    ensures r.Some? ==> from <= r.value <= maxTry && healthy(r.value)
    ensures r.Some? ==> forall t | from <= t < r.value :: !healthy(t)
    ensures r.None? ==> forall t | from <= t <= maxTry :: !healthy(t)
    decreases maxTry - from
  {
    if from > maxTry then None
    else if healthy(from) then Some(from)
    else FirstHealthy(healthy, maxTry, from + 1)
  }

  /** `ExecuteHealthCheck`: attempts 1, 2, ... up to `maxTry`, each
      announced to the callback, stopping at the first healthy answer
      (`healthy(i)` says whether attempt `i` got a response with status 200
      and no error). Every unhealthy attempt is followed by a sleep of
      `interval` seconds, the last one included. */
  method ExecuteHealthCheck(c: Container, path: string, interval: int, maxTry: int, healthy: int -> bool)
    returns (ok: bool, attempts: seq<Attempt>, sleeps: seq<int>)
    ensures ok <==> FirstHealthy(healthy, maxTry, 1).Some?
    ensures ok ==> |attempts| == FirstHealthy(healthy, maxTry, 1).value && healthy(|attempts|)
    ensures !ok ==> |attempts| == (if maxTry > 0 then maxTry else 0)
    ensures forall i | 0 <= i < |attempts| :: attempts[i] == Attempt(path, i + 1, CheckUrl(c, path))
    ensures forall t | 1 <= t < |attempts| :: !healthy(t)
    ensures !ok ==> forall t | 1 <= t <= maxTry :: !healthy(t)
    ensures |attempts| <= (if maxTry > 0 then maxTry else 0)
    ensures |sleeps| == (if ok then |attempts| - 1 else |attempts|)
    ensures forall s | s in sleeps :: s == interval
  {
    var url := CheckUrl(c, path);
    attempts := [];
    sleeps := [];
    var i := 1;
    while i <= maxTry
      invariant 1 <= i && (maxTry >= 1 ==> i <= maxTry + 1) && (maxTry < 1 ==> i == 1)
      invariant |attempts| == i - 1 && |sleeps| == i - 1
      invariant forall j | 0 <= j < |attempts| :: attempts[j] == Attempt(path, j + 1, url)
      invariant forall t | 1 <= t < i :: !healthy(t)
      invariant forall s | s in sleeps :: s == interval
      invariant FirstHealthy(healthy, maxTry, 1) == FirstHealthy(healthy, maxTry, i)
      decreases maxTry - i
    {
      attempts := attempts + [Attempt(path, i, url)];
      if healthy(i) {
        return true, attempts, sleeps;
      }
      sleeps := sleeps + [interval];
      i := i + 1;
    }
    return false, attempts, sleeps;
  }
}
