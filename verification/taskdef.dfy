/** The conversion of a compose project into an ECS task definition, from
    `receiver/modules/compose/ecs/utils/convert_task_definition.go`. Every
    field of a compose service is parsed by a small converter; the first
    error of any converter aborts the whole conversion. Host paths of mounted
    volumes are numbered `volume-0`, `volume-1`, … in a table shared by all
    services of the project. */
module EcsTaskDefinition {
  import opened Wrappers
  import opened GoStrings
  import opened GoStrconv

  const DefaultMemLimit: int := 512
  const KiB: int := 1024
  const MiB: int := 1024 * 1024

  const ReadOnlyMode: string := "ro"
  const ReadWriteMode: string := "rw"
  const VolumeFromContainerKey: string := "container"
  const VolumeNamePrefix: string := "volume"

  const ProtocolTcp: string := "tcp"
  const ProtocolUdp: string := "udp"
  const TcpSuffix: string := "/tcp"
  const UdpSuffix: string := "/udp"

  const LogDriver: string := "awslogs"
  const LogGroupOption: string := "awslogs-group"
  const LogRegionOption: string := "awslogs-region"

  const PortFormatError: string := "expected format [hostPort]:containerPort. Could not parse portmappings: "
  const PortIntegerError: string := "Could not convert port into integer in portmappings: "
  const VolumeFromFormatError: string := "expected format [container:]SERVICE|CONTAINER[:ro|rw]. could not parse cfgVolumeFrom: "
  const AccessModeError: string := "Could not parse access mode "
  const VolumeFormatError: string := "expected format [HOST:]CONTAINER[:ro|rw]. could not parse volume: "
  const ExtraHostFormatError: string := "expected format HOSTNAME:IPADDRESS. could not parse ExtraHost: "

  const AtoiErrorPrefix: string := "strconv.Atoi: parsing "
  const SyntaxError: string := "invalid syntax"
  const RangeError: string := "value out of range"

  // ------------------------------------------------------------ traversal

  /** Position `i` holds the first element on which `f` fails. */
  predicate FirstErrorAt<A, B>(xs: seq<A>, f: A -> Result<B>, i: int)
  {
    0 <= i < |xs| && f(xs[i]).Err? && forall j | 0 <= j < i :: f(xs[j]).Ok?
  }

  /** The converters' loop: apply `f` to each element in order, collecting
      the results, and return the first error unchanged. */
  function MapAll<A, B>(xs: seq<A>, f: A -> Result<B>): (r: Result<seq<B>>)
    ensures r.Ok? <==> forall i | 0 <= i < |xs| :: f(xs[i]).Ok?
    ensures r.Ok? ==> |r.value| == |xs| && forall i | 0 <= i < |xs| :: r.value[i] == f(xs[i]).value
    ensures r.Err? ==> exists i :: FirstErrorAt(xs, f, i) && r.msg == f(xs[i]).msg
    decreases |xs|
  {
    if xs == [] then Ok([])
    else
      match f(xs[0])
      case Err(msg) =>
        assert FirstErrorAt(xs, f, 0);
        Err(msg)
      case Ok(v) =>
        var rest := MapAll(xs[1..], f);
        if rest.Err? then
          assert forall i :: FirstErrorAt(xs[1..], f, i) ==> FirstErrorAt(xs, f, i + 1);
          Err(rest.msg)
        else
          Ok([v] + rest.value)
  }

  /** A list succeeds when its head and its tail do; the head's error comes
      first. */
  lemma MapAllCons<A, B>(xs: seq<A>, f: A -> Result<B>)
    requires xs != []
    ensures MapAll(xs, f).Ok? <==> f(xs[0]).Ok? && MapAll(xs[1..], f).Ok?
    ensures MapAll(xs, f).Err? ==> MapAll(xs, f).msg == (if f(xs[0]).Err? then f(xs[0]).msg else MapAll(xs[1..], f).msg)
  {
  }

  // --------------------------------------------------------------- memory

  /** Go's `/` on integers, which truncates toward zero. */
  function Quo(a: int, b: int): (q: int)
    requires b > 0
  {
    if a >= 0 then a / b else -((-a) / b)
  }

  /** The container memory in MiB: the byte limit divided by 1024 twice,
      replaced by 512 when that gives 0 (no limit, or less than 1 MiB). */
  function Memory(memLimit: int): (mem: int)
    ensures mem != 0
    ensures -MiB < memLimit < MiB ==> mem == DefaultMemLimit
  {
    var mem := if memLimit != 0 then Quo(Quo(memLimit, KiB), KiB) else 0;
    if mem == 0 then DefaultMemLimit else mem
  }

  /** Two divisions by 1024 are one division by 1 MiB. */
  lemma QuoTwice(a: nat)
    ensures Quo(Quo(a, KiB), KiB) == a / MiB
  {
    var q := a / KiB;
    var m := q / KiB;
    assert a == q * KiB + a % KiB;
    assert q == m * KiB + q % KiB;
    assert a == m * MiB + (q % KiB) * KiB + a % KiB;
    assert 0 <= (q % KiB) * KiB + a % KiB < MiB;
  }

  /** For a limit of at least 1 MiB the memory is the whole number of MiB it
      holds; a negative limit of at least 1 MiB in size mirrors it. */
  lemma MemoryIsWholeMiB(memLimit: int)
    ensures memLimit >= MiB ==> Memory(memLimit) >= 1 && Memory(memLimit) * MiB <= memLimit < (Memory(memLimit) + 1) * MiB
    ensures memLimit <= -MiB ==> Memory(memLimit) == -Memory(-memLimit)
  {
    if memLimit >= MiB {
      QuoTwice(memLimit);
      var m := memLimit / MiB;
      assert m >= 1;
      assert m * MiB <= memLimit < (m + 1) * MiB;
    } else if memLimit <= -MiB {
      QuoTwice(-memLimit);
      assert Quo(memLimit, KiB) == -Quo(-memLimit, KiB);
      assert (-memLimit) / MiB >= 1;
    }
  }

  // ---------------------------------------------------------- environment

  datatype KeyValuePair = KeyValuePair(name: string, value: string)

  /** `context.EnvironmentLookup`: the entries a variable of a service
      resolves to; `None` when no lookup is configured. */
  type Lookup = Option<(string, string) -> seq<string>>

  /** An entry that carries its own value: `K=V` with `V` not empty. */
  predicate Explicit(env: string)
  {
    '=' in env && SplitN2(env, '=')[1] != ""
  }

  /** The variable an entry names: the text before the first `=`. */
  function EnvKey(env: string): (k: string)
    ensures '=' !in k && HasPrefix(env, k)
    ensures env == k || env[|k|] == '='
  {
    SplitN2(env, '=')[0]
  }

  /** A lookup answer for an entry without its own value is empty or starts
      with a `K=V` entry; any other answer makes Go index past the end of
      the split. */
  predicate Resolvable(lookup: Lookup, env: string, service: string)
  {
    lookup.Some? && !Explicit(env) ==>
      var answer := lookup.value(EnvKey(env), service);
      answer == [] || '=' in answer[0]
  }

  predicate AllResolvable(lookup: Lookup, envs: seq<string>, service: string)
  {
    forall i | 0 <= i < |envs| :: Resolvable(lookup, envs[i], service)
  }

  /** One environment entry: its own value if it has one, otherwise the value
      after the first `=` of the lookup's first answer, or `""` when the lookup
      has no answer; with no lookup the entry is dropped. */
  function EnvEntry(env: string, lookup: Lookup, service: string): (r: Option<KeyValuePair>)
    requires Resolvable(lookup, env, service)
    ensures Explicit(env) ==> r.Some? && r.value.name + "=" + r.value.value == env && '=' !in r.value.name
    ensures !Explicit(env) ==> (r.Some? <==> lookup.Some?)
    ensures r.Some? ==> r.value.name == EnvKey(env)
    ensures !Explicit(env) && r.Some? && lookup.value(EnvKey(env), service) == [] ==> r.value.value == ""
    ensures !Explicit(env) && r.Some? && lookup.value(EnvKey(env), service) != [] ==>
      var first := lookup.value(EnvKey(env), service)[0];
      EnvKey(first) + "=" + r.value.value == first
  {
    var parts := SplitN2(env, '=');
    var key := parts[0];
    if |parts| > 1 && parts[1] != "" then Some(KeyValuePair(key, parts[1]))
    else if lookup.None? then None
    else
      var answer := lookup.value(key, service);
      if answer == [] then Some(KeyValuePair(key, ""))
      else Some(KeyValuePair(key, SplitN2(answer[0], '=')[1]))
  }

  /** A bare name resolved by a lookup answering `name=v` takes the value `v`. */
  lemma EnvEntryResolved(name: string, v: string, lookup: Lookup, service: string)
    requires '=' !in name
    requires lookup.Some? && |lookup.value(name, service)| > 0 && lookup.value(name, service)[0] == name + "=" + v
    ensures Resolvable(lookup, name, service)
    ensures EnvEntry(name, lookup, service) == Some(KeyValuePair(name, v))
  {
    assert SplitN2(name, '=') == [name];
    FirstSplitUnique(name, v, '=');
  }

  /** The pairs an entry contributes: none or one. */
  function Emit(entry: Option<KeyValuePair>): (r: seq<KeyValuePair>)
    ensures |r| <= 1
  {
    match entry
    case None => []
    case Some(p) => [p]
  }

  /** `convertToKeyValuePairs`: the entries in order, less the dropped ones. */
  function KeyValuePairs(envs: seq<string>, lookup: Lookup, service: string): (r: seq<KeyValuePair>)
    requires AllResolvable(lookup, envs, service)
    ensures |r| <= |envs|
    ensures lookup.Some? || (forall i | 0 <= i < |envs| :: Explicit(envs[i])) ==>
      |r| == |envs| && forall i | 0 <= i < |envs| :: Some(r[i]) == EnvEntry(envs[i], lookup, service)
    decreases |envs|
  {
    if envs == [] then []
    else
      assert forall i | 1 <= i < |envs| :: envs[1..][i - 1] == envs[i];
      var rest := KeyValuePairs(envs[1..], lookup, service);
      var entry := EnvEntry(envs[0], lookup, service);
      assert entry.Some? ==> forall i | 1 <= i <= |rest| :: ([entry.value] + rest)[i] == rest[i - 1];
      Emit(entry) + rest
  }

  lemma AllResolvableAppend(envs: seq<string>, e: string, lookup: Lookup, service: string)
    requires AllResolvable(lookup, envs + [e], service)
    ensures AllResolvable(lookup, envs, service) && Resolvable(lookup, e, service)
    ensures |envs| > 0 ==> (envs + [e])[0] == envs[0] && (envs + [e])[1..] == envs[1..] + [e]
  {
    assert forall i | 0 <= i < |envs| :: envs[i] == (envs + [e])[i];
    assert e == (envs + [e])[|envs|];
  }

  /** Entries are converted one by one: adding an entry at the end adds what
      that entry contributes, so an entry without a value adds nothing when
      no lookup is configured. */
  lemma {:induction false} KeyValuePairsAppend(envs: seq<string>, e: string, lookup: Lookup, service: string)
    requires AllResolvable(lookup, envs + [e], service)
    ensures AllResolvable(lookup, envs, service) && Resolvable(lookup, e, service)
    ensures KeyValuePairs(envs + [e], lookup, service) == KeyValuePairs(envs, lookup, service) + Emit(EnvEntry(e, lookup, service))
    decreases |envs|
  {
    AllResolvableAppend(envs, e, lookup, service);
    if envs == [] {
      ConsParts(e, []);
    } else {
      KeyValuePairsAppend(envs[1..], e, lookup, service);
      ConcatAssoc(Emit(EnvEntry(envs[0], lookup, service)), KeyValuePairs(envs[1..], lookup, service), Emit(EnvEntry(e, lookup, service)));
    }
  }

  /** Without a lookup an entry without its own value is dropped. */
  lemma DroppedWithoutLookup(envs: seq<string>, e: string, service: string)
    requires AllResolvable(None, envs + [e], service) && !Explicit(e)
    ensures KeyValuePairs(envs + [e], None, service) == KeyValuePairs(envs, None, service)
  {
    KeyValuePairsAppend(envs, e, None, service);
  }

  // -------------------------------------------------------- port mappings

  datatype PortMapping = PortMapping(protocol: string, containerPort: int, hostPort: int)

  /** The text of the error `strconv.Atoi` reports for `s` (Go's quoting of
      unprintable characters is not modelled). */
  function AtoiError(s: string): string
  {
    AtoiErrorPrefix + "\"" + s + "\": " + (if Atoi(s).value == 0 then SyntaxError else RangeError)
  }

  /** A trailing `/tcp` or `/udp` names the protocol and is cut off; tcp is
      the default. Gives the remaining text and the protocol. */
  function SplitProtocol(spec: string): (r: (string, string))
    ensures r.1 == ProtocolTcp || r.1 == ProtocolUdp
    ensures r.1 == ProtocolUdp <==> HasSuffix(spec, UdpSuffix)
    ensures r.0 + "/" + r.1 == spec || (r == (spec, ProtocolTcp) && !HasSuffix(spec, TcpSuffix))
  {
    if HasSuffix(spec, TcpSuffix) || HasSuffix(spec, UdpSuffix) then
      assert spec == spec[..|spec| - 4] + spec[|spec| - 4..];
      (spec[..|spec| - 4], spec[|spec| - 3..])
    else (spec, ProtocolTcp)
  }

  /** A text followed by a protocol suffix splits back into the two. */
  lemma SplitProtocolSuffixed(body: string, protocol: string)
    requires protocol == ProtocolTcp || protocol == ProtocolUdp
    ensures SplitProtocol(body + "/" + protocol) == (body, protocol)
  {
    var spec := body + "/" + protocol;
    assert spec[|spec| - 4..] == "/" + protocol;
    assert spec[..|spec| - 4] == body;
  }

  /** The ports of the `:`-separated segments: the container port is always
      the last segment; the host port is the one before it, 0 when there is
      none, and whatever `Atoi` left when it does not parse. */
  function PortFields(parts: seq<string>, body: string, protocol: string): (r: Result<PortMapping>)
    requires |parts| >= 1
    ensures |parts| > 3 ==> r == Err(PortFormatError + body)
    ensures |parts| <= 3 && r.Err? ==> HasPrefix(r.msg, PortIntegerError)
    ensures |parts| <= 3 ==> (r.Ok? <==> Atoi(parts[|parts| - 1]).ok)
    ensures |parts| <= 3 && r.Ok? ==> r.value.containerPort == Atoi(parts[|parts| - 1]).value
    ensures |parts| <= 3 && r.Ok? ==> r.value.hostPort == (if |parts| == 1 then 0 else Atoi(parts[|parts| - 2]).value)
    ensures r.Ok? ==> r.value.protocol == protocol
  {
    if |parts| == 1 then
      var container := Atoi(parts[0]);
      if !container.ok then Err(PortIntegerError + AtoiError(parts[0]))
      else Ok(PortMapping(protocol, container.value, 0))
    else if |parts| == 2 then
      var host := Atoi(parts[0]);
      var container := Atoi(parts[1]);
      if !container.ok then Err(PortIntegerError + AtoiError(parts[1]))
      else Ok(PortMapping(protocol, container.value, host.value))
    else if |parts| == 3 then
      var host := Atoi(parts[1]);
      var container := Atoi(parts[2]);
      if !container.ok then Err(PortIntegerError + AtoiError(parts[2]))
      else Ok(PortMapping(protocol, container.value, host.value))
    else
      Err(PortFormatError + body)
  }

  /** One entry of `convertToPortMappings`: `[ip:][host:]container` with an
      optional `/tcp` or `/udp`. Only the container port's parse error is
      reported: the host port's error is overwritten before it is checked. */
  function PortMappingOf(spec: string): (r: Result<PortMapping>)
    ensures r.Ok? ==> r.value.protocol == (if HasSuffix(spec, UdpSuffix) then ProtocolUdp else ProtocolTcp)
    ensures r.Err? ==> HasPrefix(r.msg, PortFormatError) || HasPrefix(r.msg, PortIntegerError)
  {
    var (body, protocol) := SplitProtocol(spec);
    PortFields(Split(body, ':'), body, protocol)
  }

  /** The compose text of a port mapping: `host:container/protocol`. */
  function PortSpec(m: PortMapping): string
  {
    Itoa(m.hostPort) + ":" + Itoa(m.containerPort) + "/" + m.protocol
  }

  lemma ItoaHasNoSeparators(n: int)
    ensures ':' !in Itoa(n) && '/' !in Itoa(n)
  {
    var d := NatToDecimal(if n < 0 then -n else n);
    assert forall i | 0 <= i < |d| :: IsDigit(d[i]);
  }

  /** Parsing the text of a mapping gives the mapping back. */
  lemma PortSpecRoundTrip(m: PortMapping)
    requires m.protocol == ProtocolTcp || m.protocol == ProtocolUdp
    requires MinInt64 <= m.containerPort <= MaxInt64 && MinInt64 <= m.hostPort <= MaxInt64
    ensures PortMappingOf(PortSpec(m)) == Ok(m)
  {
    var h, c := Itoa(m.hostPort), Itoa(m.containerPort);
    var body := h + ":" + c;
    ItoaHasNoSeparators(m.hostPort);
    ItoaHasNoSeparators(m.containerPort);
    SplitProtocolSuffixed(body, m.protocol);
    SplitFirst(h, c, ':');
    assert Split(body, ':') == [h, c];
    ParseItoa(m.hostPort);
    ParseItoa(m.containerPort);
  }

  /** A bare container port maps over tcp with host port 0. */
  lemma ContainerOnlyPort(port: int)
    requires MinInt64 <= port <= MaxInt64
    ensures PortMappingOf(Itoa(port)) == Ok(PortMapping(ProtocolTcp, port, 0))
  {
    var s := Itoa(port);
    ItoaHasNoSeparators(port);
    assert SplitProtocol(s) == (s, ProtocolTcp) by {
      if |s| >= 4 {
        assert s[|s| - 4] in s;
      }
    }
    assert Split(s, ':') == [s];
    ParseItoa(port);
  }

  /** A host port that does not parse is taken as 0 and no error is raised:
      `abc:80` maps container port 80 with host port 0. */
  lemma HostPortErrorIgnored(host: string, port: int)
    requires ':' !in host && Atoi(host) == Parsed(0, false)
    requires MinInt64 <= port <= MaxInt64
    ensures PortMappingOf(host + ":" + Itoa(port)) == Ok(PortMapping(ProtocolTcp, port, 0))
  {
    var c := Itoa(port);
    var spec := host + ":" + c;
    ItoaHasNoSeparators(port);
    assert SplitProtocol(spec) == (spec, ProtocolTcp) by {
      assert IsDigit(c[|c| - 1]);
      assert spec[|spec| - 1] == c[|c| - 1];
    }
    assert Split(spec, ':') == [host, c] by {
      assert spec == host + [':'] + c;
      SplitFirst(host, c, ':');
      assert Split(c, ':') == [c];
    }
    ParseItoa(port);
    assert PortFields([host, c], spec, ProtocolTcp) == Ok(PortMapping(ProtocolTcp, port, 0));
  }

  /** Four or more `:`-separated segments are rejected. */
  lemma TooManyPortSegments(parts: seq<string>, protocol: string)
    requires |parts| >= 4
    requires forall i | 0 <= i < |parts| :: ':' !in parts[i]
    requires protocol == ProtocolTcp || protocol == ProtocolUdp
    ensures PortMappingOf(Join(parts, ':') + "/" + protocol) == Err(PortFormatError + Join(parts, ':'))
  {
    SplitProtocolSuffixed(Join(parts, ':'), protocol);
    SplitJoin(parts, ':');
  }

  // ---------------------------------------------------------- volumes_from

  datatype VolumeFrom = VolumeFrom(sourceContainer: string, readOnly: bool)

  /** An access mode: `ro` is read-only; `rw` and the empty mode are
      read-write. */
  function AccessMode(mode: string): (r: Result<bool>)
    ensures r.Ok? <==> mode == "" || mode == ReadOnlyMode || mode == ReadWriteMode
    ensures r.Ok? ==> (r.value <==> mode == ReadOnlyMode)
    ensures r.Err? ==> r.msg == AccessModeError + mode
  {
    if mode == "" then Ok(false)
    else if mode == ReadOnlyMode then Ok(true)
    else if mode == ReadWriteMode then Ok(false)
    else Err(AccessModeError + mode)
  }

  /** The `:`-separated segments of a `volumes_from` entry: `name`,
      `name:mode`, `container:name` or `container:name:mode`. */
  function VolumeFromFields(parts: seq<string>, entry: string): (r: Result<VolumeFrom>)
    requires |parts| >= 1
    ensures |parts| > 3 || (|parts| == 3 && parts[0] != VolumeFromContainerKey) ==> r == Err(VolumeFromFormatError + entry)
    ensures r.Ok? ==> r.value.sourceContainer in parts
  {
    if |parts| == 1 then
      Ok(VolumeFrom(parts[0], false))
    else if |parts| == 2 && parts[0] == VolumeFromContainerKey then
      Ok(VolumeFrom(parts[1], false))
    else if |parts| == 2 then
      var readOnly :- AccessMode(parts[1]);
      Ok(VolumeFrom(parts[0], readOnly))
    else if |parts| == 3 && parts[0] == VolumeFromContainerKey then
      var readOnly :- AccessMode(parts[2]);
      Ok(VolumeFrom(parts[1], readOnly))
    else
      Err(VolumeFromFormatError + entry)
  }

  /** One entry of `convertToVolumesFrom`. */
  function VolumeFromOf(entry: string): (r: Result<VolumeFrom>)
    ensures r.Ok? ==> ':' !in r.value.sourceContainer
  {
    VolumeFromFields(Split(entry, ':'), entry)
  }

  /** The compose text of a `volumes_from` entry: an optional `container:`
      keyword, the name, and an optional access mode. */
  function VolumeFromSpec(keyword: bool, name: string, mode: string): string
  {
    (if keyword then VolumeFromContainerKey + ":" else "") + name + (if mode == "" then "" else ":" + mode)
  }

  /** The segments of `a:b` when neither holds a `:`. */
  lemma SplitPair(a: string, b: string)
    requires ':' !in a && ':' !in b
    ensures Split(a + ":" + b, ':') == [a, b]
  {
    assert a + ":" + b == a + [':'] + b;
    SplitWhole(b, ':');
    SplitFirst(a, b, ':');
  }

  /** The segments of the text of a `volumes_from` entry. */
  lemma VolumeFromSplit(keyword: bool, name: string, mode: string)
    requires ':' !in name && ':' !in mode
    ensures Split(VolumeFromSpec(keyword, name, mode), ':')
         == (if keyword then [VolumeFromContainerKey] else []) + (if mode == "" then [name] else [name, mode])
  {
    var key := VolumeFromContainerKey;
    var spec := VolumeFromSpec(keyword, name, mode);
    if !keyword && mode == "" {
      assert spec == name;
      SplitWhole(name, ':');
    } else if !keyword {
      assert spec == name + ":" + mode;
      SplitPair(name, mode);
    } else if mode == "" {
      assert spec == key + ":" + name;
      SplitPair(key, name);
    } else {
      var tail := name + ":" + mode;
      assert spec == key + [':'] + tail;
      SplitPair(name, mode);
      SplitFirst(key, tail, ':');
    }
  }

  /** Each accepted form names the container and gives its access mode; an
      unknown mode is reported. A bare `container` before a mode would be
      read as the keyword, so that name needs the keyword form. */
  lemma VolumeFromForms(keyword: bool, name: string, mode: string)
    requires ':' !in name && ':' !in mode
    requires !keyword && mode != "" ==> name != VolumeFromContainerKey
    ensures AccessMode(mode).Ok? ==> VolumeFromOf(VolumeFromSpec(keyword, name, mode)) == Ok(VolumeFrom(name, mode == ReadOnlyMode))
    ensures AccessMode(mode).Err? ==> VolumeFromOf(VolumeFromSpec(keyword, name, mode)) == Err(AccessModeError + mode)
  {
    VolumeFromSplit(keyword, name, mode);
  }

  /** Three segments without the `container` keyword, or more than three
      segments, are rejected. */
  lemma VolumeFromBadShape(parts: seq<string>)
    requires forall i | 0 <= i < |parts| :: ':' !in parts[i]
    requires |parts| > 3 || (|parts| == 3 && parts[0] != VolumeFromContainerKey)
    ensures VolumeFromOf(Join(parts, ':')) == Err(VolumeFromFormatError + Join(parts, ':'))
  {
    SplitJoin(parts, ':');
    assert Split(Join(parts, ':'), ':') == parts;
  }

  // ---------------------------------------------------------- mount points

  /** A compose volume `[source:]destination[:mode]`. */
  datatype Volume = Volume(source: string, destination: string, accessMode: string)

  datatype MountPoint = MountPoint(containerPath: string, sourceVolume: string, readOnly: bool)

  /** libcompose's text of a volume, used in the error message. */
  function VolumeText(v: Volume): string
  {
    (if v.source != "" then v.source + ":" else "") + v.destination + (if v.accessMode != "" then ":" + v.accessMode else "")
  }

  /** The access mode of a volume, with the volume format error. */
  function VolumeAccess(v: Volume): (r: Result<bool>)
    ensures r.Ok? <==> AccessMode(v.accessMode).Ok?
    ensures r.Ok? ==> r.value == AccessMode(v.accessMode).value
    ensures r.Err? ==> r.msg == VolumeFormatError + VolumeText(v)
  {
    if AccessMode(v.accessMode).Ok? then Ok(AccessMode(v.accessMode).value)
    else Err(VolumeFormatError + VolumeText(v))
  }

  /** `getVolumeName`. */
  function VolumeName(n: nat): (name: string)
    ensures HasPrefix(name, VolumeNamePrefix + "-")
  {
    VolumeNamePrefix + "-" + Itoa(n)
  }

  /** Different numbers give different volume names. */
  lemma VolumeNameInjective(a: nat, b: nat)
    requires VolumeName(a) == VolumeName(b)
    ensures a == b
  {
    var n := |VolumeNamePrefix + "-"|;
    assert Itoa(a) == VolumeName(a)[n..];
    assert Itoa(b) == VolumeName(b)[n..];
    assert DecimalValue(NatToDecimal(a)) == a;
  }

  /** `volume-0` up to `volume-(n-1)`. */
  function VolumeNames(n: nat): set<string>
  {
    set i | 0 <= i < n :: VolumeName(i)
  }

  /** The host-path table of the conversion: its names are `volume-0` up to
      `volume-(n-1)` for `n` host paths, one per path. */
  predicate Numbered(table: map<string, string>)
  {
    && table.Values == VolumeNames(|table|)
    && forall a, b | a in table && b in table && a != b :: table[a] != table[b]
  }

  /** Every entry of `small` is in `big` unchanged. */
  predicate Extends(big: map<string, string>, small: map<string, string>)
  {
    forall h | h in small :: h in big && big[h] == small[h]
  }

  /** Entering a new key adds its value to the values. */
  lemma MapValuesAdd<K, V>(m: map<K, V>, k: K, v: V)
    requires k !in m
    ensures m[k := v].Values == m.Values + {v}
    ensures |m[k := v]| == |m| + 1
  {
    var t := m[k := v];
    forall x | x in m.Values
      ensures x in t.Values
    {
      var j :| j in m && m[j] == x;
      assert t[j] == x;
    }
    assert t[k] == v;
  }

  lemma VolumeNamesNext(n: nat)
    ensures VolumeNames(n + 1) == VolumeNames(n) + {VolumeName(n)}
  {
  }

  /** The next number's name is not in the table yet. */
  lemma NextNameFresh(table: map<string, string>)
    requires Numbered(table)
    ensures VolumeName(|table|) !in table.Values
  {
    if VolumeName(|table|) in table.Values {
      var i :| 0 <= i < |table| && VolumeName(i) == VolumeName(|table|);
      VolumeNameInjective(i, |table|);
    }
  }

  /** A new host path takes the next number. */
  lemma NumberedAdd(table: map<string, string>, h: string)
    requires Numbered(table) && h !in table
    ensures Numbered(table[h := VolumeName(|table|)])
  {
    var n := |table|;
    var t := table[h := VolumeName(n)];
    assert t.Values == VolumeNames(|t|) by {
      MapValuesAdd(table, h, VolumeName(n));
      VolumeNamesNext(n);
    }
    assert forall a, b | a in t && b in t && a != b :: t[a] != t[b] by {
      NextNameFresh(table);
      forall a, b | a in t && b in t && a != b
        ensures t[a] != t[b]
      {
        if a == h {
          assert t[b] == table[b] && table[b] in table.Values;
        } else if b == h {
          assert t[a] == table[a] && table[a] in table.Values;
        }
      }
    }
  }

  /** No name in a numbered table is empty. */
  lemma NumberedNamesNonEmpty(table: map<string, string>)
    requires Numbered(table)
    ensures "" !in table.Values
  {
    assert forall i | 0 <= i < |table| :: VolumeName(i) != "";
  }

  /** The volume name of a host path: the one in the table, or, when the
      table has none (Go reads a missing key as `""`), the next number, which
      is then entered. */
  function Enter(table: map<string, string>, hostPath: string): (r: (string, map<string, string>))
    ensures "" !in table.Values ==> Extends(r.1, table) && hostPath in r.1 && r.1[hostPath] == r.0
    ensures "" !in table.Values ==> r.1.Keys == table.Keys + {hostPath}
    ensures "" !in table.Values && hostPath in table ==> r.1 == table
    ensures hostPath !in table ==> r == (VolumeName(|table|), table[hostPath := VolumeName(|table|)])
  {
    var existing := if |table| > 0 && hostPath in table then table[hostPath] else "";
    if existing == "" then
      (VolumeName(|table|), table[hostPath := VolumeName(|table|)])
    else
      (existing, table)
  }

  /** Entering a host path keeps the table numbered. */
  lemma EnterNumbered(table: map<string, string>, hostPath: string)
    requires Numbered(table)
    ensures "" !in table.Values
    ensures Numbered(Enter(table, hostPath).1)
  {
    NumberedNamesNonEmpty(table);
    if hostPath !in table {
      NumberedAdd(table, hostPath);
    }
  }

  /** One volume of `convertToMountPoints`: an unknown access mode is an
      error; a host path already in the table reuses its name, and a new one
      is entered under the next number. */
  function MountPointOf(v: Volume, table: map<string, string>): (r: Result<(MountPoint, map<string, string>)>)
    ensures r.Ok? <==> VolumeAccess(v).Ok?
    ensures r.Err? ==> r.msg == VolumeAccess(v).msg
    ensures r.Ok? ==> r.value.0.containerPath == v.destination && r.value.0.readOnly == VolumeAccess(v).value
    ensures r.Ok? ==> (r.value.0.sourceVolume, r.value.1) == Enter(table, v.source)
  {
    var readOnly :- VolumeAccess(v);
    var (name, table') := Enter(table, v.source);
    Ok((MountPoint(v.destination, name, readOnly), table'))
  }

  /** The host paths of a list of volumes. */
  function Sources(vs: seq<Volume>): set<string>
  {
    set k | 0 <= k < |vs| :: vs[k].source
  }

  /** The mount points of volumes whose access modes are all valid: each
      host path is entered in the table in turn. */
  function EnterAll(vs: seq<Volume>, table: map<string, string>): (r: (seq<MountPoint>, map<string, string>))
    ensures |r.0| == |vs|
    decreases |vs|
  {
    if vs == [] then ([], table)
    else
      var (name, t1) := Enter(table, vs[0].source);
      var (mps, t2) := EnterAll(vs[1..], t1);
      ([MountPoint(vs[0].destination, name, vs[0].accessMode == ReadOnlyMode)] + mps, t2)
  }

  /** The mount points of a list of volumes, threading the table; the first
      volume with an unknown access mode aborts. */
  function MountPointsFrom(vs: seq<Volume>, table: map<string, string>): (r: Result<(seq<MountPoint>, map<string, string>)>)
    ensures r.Ok? <==> MapAll(vs, VolumeAccess).Ok?
    ensures r.Err? ==> r.msg == MapAll(vs, VolumeAccess).msg
    ensures r.Ok? ==> r.value == EnterAll(vs, table)
    decreases |vs|
  {
    if vs == [] then Ok(([], table))
    else
      var (mp, t1) :- MountPointOf(vs[0], table);
      var (mps, t2) :- MountPointsFrom(vs[1..], t1);
      Ok(([mp] + mps, t2))
  }

  /** The final table of a non-empty list is the final table of its tail,
      started from the table after the first volume. */
  lemma EnterAllTail(vs: seq<Volume>, table: map<string, string>)
    requires vs != []
    ensures EnterAll(vs, table).1 == EnterAll(vs[1..], Enter(table, vs[0].source).1).1
  {
  }

  lemma SourcesCons(vs: seq<Volume>)
    requires |vs| > 0
    ensures Sources(vs) == {vs[0].source} + Sources(vs[1..])
  {
    assert forall k | 0 < k < |vs| :: vs[k] == vs[1..][k - 1];
  }

  lemma ExtendsTransitive(a: map<string, string>, b: map<string, string>, c: map<string, string>)
    requires Extends(a, b) && Extends(b, c)
    ensures Extends(a, c)
  {
  }

  /** Entering a host path keeps every name non-empty. */
  lemma EnterNonEmpty(table: map<string, string>, hostPath: string)
    requires "" !in table.Values
    ensures "" !in Enter(table, hostPath).1.Values
  {
    if hostPath !in table {
      MapValuesAdd(table, hostPath, VolumeName(|table|));
    }
  }

  /** Across a list of volumes every name in the table stays non-empty. */
  lemma {:induction false} EnterAllNonEmpty(vs: seq<Volume>, table: map<string, string>)
    requires "" !in table.Values
    ensures "" !in EnterAll(vs, table).1.Values
    decreases |vs|
  {
    if vs != [] {
      EnterNonEmpty(table, vs[0].source);
      EnterAllNonEmpty(vs[1..], Enter(table, vs[0].source).1);
      EnterAllTail(vs, table);
    }
  }

  /** Across a list of volumes the table keeps its entries and gains exactly
      the new host paths. */
  lemma {:induction false} EnterAllKeys(vs: seq<Volume>, table: map<string, string>)
    requires "" !in table.Values
    ensures Extends(EnterAll(vs, table).1, table)
    ensures EnterAll(vs, table).1.Keys == table.Keys + Sources(vs)
    decreases |vs|
  {
    if vs != [] {
      var t1 := Enter(table, vs[0].source).1;
      EnterNonEmpty(table, vs[0].source);
      EnterAllKeys(vs[1..], t1);
      var t2 := EnterAll(vs[1..], t1).1;
      EnterAllTail(vs, table);
      ExtendsTransitive(t2, t1, table);
      SourcesCons(vs);
      UnionStep(t2.Keys, t1.Keys, table.Keys, {vs[0].source}, Sources(vs[1..]));
    }
  }

  /** Set algebra for one step of a table walk. */
  lemma UnionStep<T>(c: set<T>, b: set<T>, a: set<T>, x: set<T>, rest: set<T>)
    requires c == b + rest && b == a + x
    ensures c == a + (x + rest)
  {
  }

  /** Each mount point is named after its host path's entry in the final
      table and carries its container path and mode. */
  lemma {:induction false} EnterAllNames(vs: seq<Volume>, table: map<string, string>)
    requires "" !in table.Values
    ensures forall k | 0 <= k < |vs| ::
      && vs[k].source in EnterAll(vs, table).1
      && EnterAll(vs, table).1[vs[k].source] == EnterAll(vs, table).0[k].sourceVolume
      && EnterAll(vs, table).0[k].containerPath == vs[k].destination
      && EnterAll(vs, table).0[k].readOnly == (vs[k].accessMode == ReadOnlyMode)
    decreases |vs|
  {
    if vs != [] {
      var (name, t1) := Enter(table, vs[0].source);
      EnterNonEmpty(table, vs[0].source);
      EnterAllNames(vs[1..], t1);
      EnterAllKeys(vs[1..], t1);
      var (mps, t2) := EnterAll(vs[1..], t1);
      var mp := MountPoint(vs[0].destination, name, vs[0].accessMode == ReadOnlyMode);
      var all := [mp] + mps;
      assert EnterAll(vs, table) == (all, t2);
      forall k | 0 <= k < |vs|
        ensures vs[k].source in t2 && t2[vs[k].source] == all[k].sourceVolume
        ensures all[k].containerPath == vs[k].destination
        ensures all[k].readOnly == (vs[k].accessMode == ReadOnlyMode)
      {
        if k > 0 {
          assert vs[k] == vs[1..][k - 1] && all[k] == mps[k - 1];
        }
      }
    }
  }

  /** Across a list of volumes the table stays numbered. */
  lemma {:induction false} EnterAllNumbered(vs: seq<Volume>, table: map<string, string>)
    requires Numbered(table)
    ensures Numbered(EnterAll(vs, table).1)
    decreases |vs|
  {
    if vs != [] {
      EnterNumbered(table, vs[0].source);
      EnterAllNumbered(vs[1..], Enter(table, vs[0].source).1);
    }
  }

  /** `convertToMountPoints`: a service without volumes has no mount points. */
  function MountPoints(volumes: Option<seq<Volume>>, table: map<string, string>): (r: Result<(seq<MountPoint>, map<string, string>)>)
    ensures volumes.None? ==> r == Ok(([], table))
    ensures r.Ok? <==> MapAll(if volumes.None? then [] else volumes.value, VolumeAccess).Ok?
    ensures r.Err? ==> r.msg == MapAll(if volumes.None? then [] else volumes.value, VolumeAccess).msg
    ensures r.Ok? ==> r.value == EnterAll(if volumes.None? then [] else volumes.value, table)
  {
    if volumes.None? then Ok(([], table)) else MountPointsFrom(volumes.value, table)
  }

  // ----------------------------------------------------------- extra hosts

  datatype HostEntry = HostEntry(hostname: string, ipAddress: string)

  /** One entry of `convertToExtraHosts`: exactly one `:` separates host
      name and address. */
  function ExtraHostOf(entry: string): (r: Result<HostEntry>)
    ensures r.Ok? <==> multiset(entry)[':'] == 1
    ensures r.Ok? ==> r.value.hostname + ":" + r.value.ipAddress == entry
    ensures r.Ok? ==> ':' !in r.value.hostname && ':' !in r.value.ipAddress
    ensures r.Err? ==> r.msg == ExtraHostFormatError + entry
  {
    var parts := Split(entry, ':');
    SplitCount(entry, ':');
    if |parts| != 2 then Err(ExtraHostFormatError + entry)
    else Ok(HostEntry(parts[0], parts[1]))
  }

  /** A host name and an address without `:` come back from their text. */
  lemma ExtraHostRoundTrip(hostname: string, ipAddress: string)
    requires ':' !in hostname && ':' !in ipAddress
    ensures ExtraHostOf(hostname + ":" + ipAddress) == Ok(HostEntry(hostname, ipAddress))
  {
    SplitFirst(hostname, ipAddress, ':');
    assert Split(ipAddress, ':') == [ipAddress];
  }

  // ------------------------------------------------------- task definition

  /** A `ulimits` entry, copied as it is. */
  datatype Ulimit = Ulimit(name: string, soft: int, hard: int)

  /** The service settings the conversion copies into the container
      definition unchanged: image, CPU shares, command, entry point, links,
      DNS servers and search domains, security options, labels, ulimits, and
      the privileged and read-only flags. */
  datatype CopiedSettings = CopiedSettings(
    image: string,
    cpuShares: int,
    command: seq<string>,
    entrypoint: seq<string>,
    links: seq<string>,
    dns: seq<string>,
    dnsSearch: seq<string>,
    securityOpt: seq<string>,
    labels: map<string, string>,
    ulimits: seq<Ulimit>,
    privileged: bool,
    readOnly: bool)

  /** The parts of a compose service the conversion reads. */
  datatype ServiceConfig = ServiceConfig(
    copied: CopiedSettings,
    memLimit: int,
    environment: seq<string>,
    ports: seq<string>,
    volumesFrom: seq<string>,
    volumes: Option<seq<Volume>>,
    extraHosts: seq<string>,
    hostname: string,
    user: string,
    workingDir: string)

  datatype LogConfiguration = LogConfiguration(logDriver: string, options: map<string, string>)

  datatype ContainerDefinition = ContainerDefinition(
    name: string,
    copied: CopiedSettings,
    memory: int,
    environment: seq<KeyValuePair>,
    portMappings: seq<PortMapping>,
    volumesFrom: seq<VolumeFrom>,
    mountPoints: seq<MountPoint>,
    extraHosts: seq<HostEntry>,
    logConfiguration: LogConfiguration,
    hostname: Option<string>,
    user: Option<string>,
    workingDirectory: Option<string>)

  datatype EcsVolume = EcsVolume(name: string, sourcePath: string)

  datatype TaskDefinition = TaskDefinition(
    family: string,
    containerDefinitions: seq<ContainerDefinition>,
    volumes: set<EcsVolume>)

  /** The volumes of a service; none when it declares none. */
  function VolumesOf(svc: ServiceConfig): seq<Volume>
  {
    if svc.volumes.None? then [] else svc.volumes.value
  }

  /** A field that is set only when the compose value is not empty. */
  function NonEmpty(s: string): (r: Option<string>)
    ensures r.Some? <==> s != ""
    ensures r.Some? ==> r.value == s
  {
    if s == "" then None else Some(s)
  }

  /** The logging setup every container gets: the awslogs driver writing to
      the ECS service's log group in the region. */
  function LogConfigurationFor(serviceName: string, region: string): (c: LogConfiguration)
    ensures c.logDriver == LogDriver
    ensures c.options.Keys == {LogGroupOption, LogRegionOption}
    ensures c.options[LogGroupOption] == serviceName && c.options[LogRegionOption] == region
  {
    LogConfiguration(LogDriver, map[LogGroupOption := serviceName, LogRegionOption := region])
  }

  /** The first error of a service's converters, in the order ports,
      `volumes_from`, volumes, `extra_hosts`; the table plays no part in it. */
  function ServiceCheck(svc: ServiceConfig): Result<()>
  {
    var ports := MapAll(svc.ports, PortMappingOf);
    var volumesFrom := MapAll(svc.volumesFrom, VolumeFromOf);
    var access := MapAll(VolumesOf(svc), VolumeAccess);
    var extraHosts := MapAll(svc.extraHosts, ExtraHostOf);
    if ports.Err? then Err(ports.msg)
    else if volumesFrom.Err? then Err(volumesFrom.msg)
    else if access.Err? then Err(access.msg)
    else if extraHosts.Err? then Err(extraHosts.msg)
    else Ok(())
  }

  /** `convertToContainerDef`: memory, environment, then the converters in
      order, each error returned as it is; host name, user and working
      directory only when set. */
  function ContainerDefinitionOf(name: string, svc: ServiceConfig, lookup: Lookup, table: map<string, string>,
                                 serviceName: string, region: string): (r: Result<(ContainerDefinition, map<string, string>)>)
    requires AllResolvable(lookup, svc.environment, name)
    ensures r.Ok? <==> ServiceCheck(svc).Ok?
    ensures r.Err? ==> r.msg == ServiceCheck(svc).msg
    ensures r.Ok? ==> r.value.0.name == name
    ensures r.Ok? ==> (r.value.0.mountPoints, r.value.1) == EnterAll(VolumesOf(svc), table)
    ensures r.Ok? ==> Ok(r.value.0.portMappings) == MapAll(svc.ports, PortMappingOf)
    ensures r.Ok? ==> Ok(r.value.0.volumesFrom) == MapAll(svc.volumesFrom, VolumeFromOf)
    ensures r.Ok? ==> Ok(r.value.0.extraHosts) == MapAll(svc.extraHosts, ExtraHostOf)
    ensures r.Ok? ==> r.value.0.memory == Memory(svc.memLimit)
    ensures r.Ok? ==> r.value.0.environment == KeyValuePairs(svc.environment, lookup, name)
    ensures r.Ok? ==> r.value.0.logConfiguration == LogConfigurationFor(serviceName, region)
    ensures r.Ok? ==> r.value.0.copied == svc.copied
    ensures r.Ok? ==> r.value.0.hostname == NonEmpty(svc.hostname) && r.value.0.user == NonEmpty(svc.user)
    ensures r.Ok? ==> r.value.0.workingDirectory == NonEmpty(svc.workingDir)
  {
    var ports := MapAll(svc.ports, PortMappingOf);
    var volumesFrom := MapAll(svc.volumesFrom, VolumeFromOf);
    var mounts := MountPoints(svc.volumes, table);
    var extraHosts := MapAll(svc.extraHosts, ExtraHostOf);
    if ports.Err? then Err(ports.msg)
    else if volumesFrom.Err? then Err(volumesFrom.msg)
    else if mounts.Err? then Err(mounts.msg)
    else if extraHosts.Err? then Err(extraHosts.msg)
    else
      var definition := ContainerDefinition(
        name, svc.copied, Memory(svc.memLimit), KeyValuePairs(svc.environment, lookup, name),
        ports.value, volumesFrom.value, mounts.value.0, extraHosts.value,
        LogConfigurationFor(serviceName, region), NonEmpty(svc.hostname), NonEmpty(svc.user), NonEmpty(svc.workingDir));
      Ok((definition, mounts.value.1))
  }

  /** A project's services in key order, each with its name. */
  type Services = seq<(string, ServiceConfig)>

  predicate ProjectResolvable(lookup: Lookup, services: Services)
  {
    forall i | 0 <= i < |services| :: AllResolvable(lookup, services[i].1.environment, services[i].0)
  }

  function CheckService(service: (string, ServiceConfig)): Result<()>
  {
    ServiceCheck(service.1)
  }

  /** The volumes of all services, in service order. */
  function AllVolumes(services: Services): seq<Volume>
  {
    if services == [] then [] else VolumesOf(services[0].1) + AllVolumes(services[1..])
  }

  /** The mount points of all container definitions, in order. */
  function AllMountPoints(definitions: seq<ContainerDefinition>): seq<MountPoint>
  {
    if definitions == [] then [] else definitions[0].mountPoints + AllMountPoints(definitions[1..])
  }

  /** Entering two lists of volumes one after the other is entering their
      concatenation. */
  lemma {:induction false} EnterAllConcat(a: seq<Volume>, b: seq<Volume>, table: map<string, string>)
    ensures EnterAll(a + b, table)
         == (EnterAll(a, table).0 + EnterAll(b, EnterAll(a, table).1).0, EnterAll(b, EnterAll(a, table).1).1)
    decreases |a|
  {
    if a == [] {
      assert a + b == b;
      assert [] + EnterAll(b, table).0 == EnterAll(b, table).0;
    } else {
      assert (a + b)[0] == a[0] && (a + b)[1..] == a[1..] + b;
      var t1 := Enter(table, a[0].source).1;
      EnterAllConcat(a[1..], b, t1);
      var mp := MountPoint(a[0].destination, Enter(table, a[0].source).0, a[0].accessMode == ReadOnlyMode);
      ConcatAssoc([mp], EnterAll(a[1..], t1).0, EnterAll(b, EnterAll(a[1..], t1).1).0);
    }
  }

  /** The container definitions of the services in order, threading the
      volume table; the first failing service aborts. */
  function ConvertServices(services: Services, lookup: Lookup, table: map<string, string>,
                           serviceName: string, region: string): (r: Result<(seq<ContainerDefinition>, map<string, string>)>)
    requires ProjectResolvable(lookup, services)
    ensures r.Ok? <==> MapAll(services, CheckService).Ok?
    ensures r.Err? ==> r.msg == MapAll(services, CheckService).msg
    ensures r.Ok? ==> |r.value.0| == |services|
    decreases |services|
  {
    if services == [] then Ok(([], table))
    else
      MapAllCons(services, CheckService);
      var head := ContainerDefinitionOf(services[0].0, services[0].1, lookup, table, serviceName, region);
      if head.Err? then Err(head.msg)
      else
        var tail := ConvertServices(services[1..], lookup, head.value.1, serviceName, region);
        if tail.Err? then Err(tail.msg)
        else Ok(([head.value.0] + tail.value.0, tail.value.1))
  }

  /** The names of container definitions, in order. */
  function DefinitionNames(definitions: seq<ContainerDefinition>): seq<string>
  {
    if definitions == [] then [] else [definitions[0].name] + DefinitionNames(definitions[1..])
  }

  /** The names of services, in order. */
  function ServiceNames(services: Services): seq<string>
  {
    if services == [] then [] else [services[0].0] + ServiceNames(services[1..])
  }

  /** Each converted service keeps its name, in order. */
  lemma {:induction false} ConvertServicesNames(services: Services, lookup: Lookup, table: map<string, string>,
                                                serviceName: string, region: string)
    requires ProjectResolvable(lookup, services)
    requires ConvertServices(services, lookup, table, serviceName, region).Ok?
    ensures DefinitionNames(ConvertServices(services, lookup, table, serviceName, region).value.0) == ServiceNames(services)
    decreases |services|
  {
    if services != [] {
      var head := ContainerDefinitionOf(services[0].0, services[0].1, lookup, table, serviceName, region);
      var rest := ConvertServices(services[1..], lookup, head.value.1, serviceName, region).value.0;
      ConvertServicesNames(services[1..], lookup, head.value.1, serviceName, region);
      ConsParts(head.value.0, rest);
    }
  }

  /** The mount points of all converted services, and the final table, are
      those of entering all the services' volumes in order. */
  lemma {:induction false} ConvertServicesMounts(services: Services, lookup: Lookup, table: map<string, string>,
                                                 serviceName: string, region: string)
    requires ProjectResolvable(lookup, services)
    requires ConvertServices(services, lookup, table, serviceName, region).Ok?
    ensures var r := ConvertServices(services, lookup, table, serviceName, region).value;
      (AllMountPoints(r.0), r.1) == EnterAll(AllVolumes(services), table)
    decreases |services|
  {
    if services != [] {
      var head := ContainerDefinitionOf(services[0].0, services[0].1, lookup, table, serviceName, region);
      var tail := ConvertServices(services[1..], lookup, head.value.1, serviceName, region);
      ConvertServicesMounts(services[1..], lookup, head.value.1, serviceName, region);
      ConsParts(head.value.0, tail.value.0);
      EnterAllConcat(VolumesOf(services[0].1), AllVolumes(services[1..]), table);
    }
  }

  /** The ECS volumes of the table: one per host path, under its name. */
  function EcsVolumes(table: map<string, string>): (r: set<EcsVolume>)
    ensures forall v | v in r :: v.sourcePath in table && table[v.sourcePath] == v.name
    ensures forall h | h in table :: EcsVolume(table[h], h) in r
  {
    set h | h in table :: EcsVolume(table[h], h)
  }

  /** `ConvertToTaskDefinition`: one container definition per service in key
      order, the family set to the given name, and one volume per host path;
      the first error aborts with no task definition. */
  function ConvertToTaskDefinition(family: string, services: Services, lookup: Lookup,
                                   serviceName: string, region: string): (r: Result<TaskDefinition>)
    requires ProjectResolvable(lookup, services)
    ensures r.Ok? <==> forall i | 0 <= i < |services| :: ServiceCheck(services[i].1).Ok?
    ensures r.Err? ==> exists i :: FirstErrorAt(services, CheckService, i) && r.msg == ServiceCheck(services[i].1).msg
    ensures r.Ok? ==> r.value.family == family
    ensures r.Ok? ==> |r.value.containerDefinitions| == |services|
  {
    var converted := ConvertServices(services, lookup, map[], serviceName, region);
    if converted.Err? then Err(converted.msg)
    else Ok(TaskDefinition(family, converted.value.0, EcsVolumes(converted.value.1)))
  }

  /** A task definition names its containers after the services, in order;
      its mount points are those of entering every service's volumes into
      an empty table, and its volumes are that table's entries. */
  lemma TaskDefinitionContents(family: string, services: Services, lookup: Lookup, serviceName: string, region: string)
    requires ProjectResolvable(lookup, services)
    requires ConvertToTaskDefinition(family, services, lookup, serviceName, region).Ok?
    ensures var td := ConvertToTaskDefinition(family, services, lookup, serviceName, region).value;
      && DefinitionNames(td.containerDefinitions) == ServiceNames(services)
      && AllMountPoints(td.containerDefinitions) == EnterAll(AllVolumes(services), map[]).0
      && td.volumes == EcsVolumes(EnterAll(AllVolumes(services), map[]).1)
  {
    ConvertServicesNames(services, lookup, map[], serviceName, region);
    ConvertServicesMounts(services, lookup, map[], serviceName, region);
  }

  /** Converting from an empty table enters each host path once, numbers
      the names from zero, and names each mount point after its host path's
      entry. */
  lemma FreshTable(vs: seq<Volume>)
    ensures EnterAll(vs, map[]).1.Keys == Sources(vs)
    ensures Numbered(EnterAll(vs, map[]).1)
    ensures forall k | 0 <= k < |vs| ::
      EcsVolume(EnterAll(vs, map[]).0[k].sourceVolume, vs[k].source) in EcsVolumes(EnterAll(vs, map[]).1)
  {
    var empty: map<string, string> := map[];
    assert Numbered(empty);
    EnterAllKeys(vs, empty);
    EnterAllNumbered(vs, empty);
    EnterAllNames(vs, empty);
  }

  /** In a numbered table's volumes, a name identifies one volume, and the
      names are `volume-0` onwards. */
  lemma NumberedVolumes(table: map<string, string>)
    requires Numbered(table)
    ensures forall v, w | v in EcsVolumes(table) && w in EcsVolumes(table) && v.name == w.name :: v == w
    ensures forall v | v in EcsVolumes(table) :: v.name in VolumeNames(|table|)
  {
  }

  /** The task definition declares one volume per distinct host path of the
      services, named `volume-0` onwards with no name used twice, and every
      mount point's volume is declared with the mount point's host path. */
  lemma TaskDefinitionVolumes(family: string, services: Services, lookup: Lookup, serviceName: string, region: string)
    requires ProjectResolvable(lookup, services)
    requires ConvertToTaskDefinition(family, services, lookup, serviceName, region).Ok?
    ensures var td := ConvertToTaskDefinition(family, services, lookup, serviceName, region).value;
      var vs := AllVolumes(services);
      var mps := AllMountPoints(td.containerDefinitions);
      && (forall v | v in td.volumes :: v.sourcePath in Sources(vs))
      && (forall h | h in Sources(vs) :: exists v | v in td.volumes :: v.sourcePath == h)
      && (forall v, w | v in td.volumes && w in td.volumes && v.name == w.name :: v == w)
      && (forall v | v in td.volumes :: v.name in VolumeNames(|Sources(vs)|))
      && |mps| == |vs|
      && (forall k | 0 <= k < |vs| :: EcsVolume(mps[k].sourceVolume, vs[k].source) in td.volumes)
  {
    var vs := AllVolumes(services);
    TaskDefinitionContents(family, services, lookup, serviceName, region);
    FreshTable(vs);
    var t := EnterAll(vs, map[]).1;
    NumberedVolumes(t);
    assert |t| == |Sources(vs)| by {
      assert |t| == |t.Keys|;
    }
    forall h | h in Sources(vs)
      ensures EcsVolume(t[h], h) in EcsVolumes(t)
    {
    }
  }
}
