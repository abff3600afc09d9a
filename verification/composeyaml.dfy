/** A decoded compose file as the receiver edits it in place: the value
    `yaml.Unmarshal` leaves in a `map[interface{}]interface{}`, and the
    helpers both compose-file revisions share (`receiver/model/compose_file.go`
    and the older `receiver/compose_file.go` hold the same code for them). A
    Go type assertion that fails panics; here that is `Panicked`. */
module ComposeYaml {
  import opened GoStrconv
  import opened StringOrder
  import opened PortBinding

  /** A YAML node. `Scalar` stands for booleans, floats and every other
      scalar the receiver never inspects; mapping keys are strings. */
  datatype Value =
    | Null
    | Str(s: string)
    | Int(n: int)
    | Scalar
    | List(items: seq<Value>)
    | Map(fields: map<string, Value>)

  type Fields = map<string, Value>

  /** What Go code that may fail a type assertion ends with. */
  datatype Run<T> = Returned(value: T) | Panicked

  /** Indexing a Go map: a missing key reads as nil. */
  function Field(m: Fields, key: string): Value
  {
    if key in m then m[key] else Null
  }

  /** `isVersion2`: the top-level `version` holds the string `"2"`; the
      number 2, or no `version` at all, does not count. */
  function IsVersion2(doc: Fields): (r: bool)
    ensures r <==> "version" in doc && doc["version"].Str? && doc["version"].s == "2"
  {
    Field(doc, "version") == Str("2")
  }

  /** The service map `serviceList` and `service` read: the `services`
      mapping of a version 2 file (asserted to be a mapping), otherwise the
      whole file. */
  function Services(doc: Fields): (r: Run<Fields>)
    ensures !IsVersion2(doc) ==> r == Returned(doc)
    ensures IsVersion2(doc) ==> (r.Returned? <==> "services" in doc && doc["services"].Map?)
    ensures IsVersion2(doc) && r.Returned? ==> r.value == doc["services"].fields
  {
    if !IsVersion2(doc) then Returned(doc)
    else
      match Field(doc, "services")
      case Map(services) => Returned(services)
      case _ => Panicked
  }

  /** `service(name)`: the named entry of the service map, asserted to be a
      mapping; a missing service fails the assertion too. */
  function Service(doc: Fields, name: string): (r: Run<Fields>)
    ensures r.Returned? <==> Services(doc).Returned? && name in Services(doc).value && Services(doc).value[name].Map?
    ensures r.Returned? ==> r.value == Services(doc).value[name].fields
  {
    match Services(doc)
    case Panicked => Panicked
    case Returned(services) =>
      match Field(services, name)
      case Map(service) => Returned(service)
      case _ => Panicked
  }

  /** The file with its service map replaced, where `Services` found it. */
  function WithServices(doc: Fields, services: Fields): Fields
  {
    if IsVersion2(doc) then doc["services" := Map(services)] else services
  }

  /** The file after the service `name`, which `Service` found, is edited in
      place to `service`. */
  function WithService(doc: Fields, name: string, service: Fields): (r: Fields)
    requires Service(doc, name).Returned?
    ensures Service(r, name) == Returned(service)
    ensures ServicesOnlyAt(doc, r, name)
  {
    var services := Services(doc).value;
    var r := WithServices(doc, services[name := Map(service)]);
    assert IsVersion2(r) == IsVersion2(doc) by {
      if !IsVersion2(doc) && name == "version" {
        assert r["version"].Map?;
      }
    }
    r
  }

  /** `after` is `before` with, at most, the service `name` replaced by a
      mapping: the version is kept, every other service and (in a version 2
      file) every other top-level entry is untouched. */
  predicate ServicesOnlyAt(before: Fields, after: Fields, name: string)
  {
    IsVersion2(after) == IsVersion2(before)
    && Services(before).Returned? && Services(after).Returned?
    && name in Services(before).value && name in Services(after).value
    && Services(after).value.Keys == Services(before).value.Keys
    && (forall n | n in Services(before).value && n != name :: Services(after).value[n] == Services(before).value[n])
    && (IsVersion2(before) ==>
          after.Keys == before.Keys && forall k | k in before && k != "services" :: after[k] == before[k])
  }

  // ------------------------------------------------------------ lists

  /** The items of a list asserted, one by one, to be strings. */
  function Strings(items: seq<Value>): (r: Run<seq<string>>)
    ensures r.Returned? <==> forall i | 0 <= i < |items| :: items[i].Str?
    ensures r.Returned? ==> |r.value| == |items| && forall i | 0 <= i < |items| :: r.value[i] == items[i].s
    decreases |items|
  {
    if items == [] then Returned([])
    else if !items[0].Str? then Panicked
    else
      match Strings(items[1..])
      case Panicked => Panicked
      case Returned(rest) => Returned([items[0].s] + rest)
  }

  /** A list of strings as the receiver writes it back. */
  function StrList(ss: seq<string>): (v: Value)
    ensures v.List? && Strings(v.items) == Returned(ss)
  {
    var items := seq(|ss|, i requires 0 <= i < |ss| => Str(ss[i]));
    var back := Strings(items);
    assert back.value == ss;
    List(items)
  }

  /** A list field read with a nil check first: nil reads as the empty list,
      anything but a list fails the `.([]interface{})` assertion. */
  function OptionalList(v: Value): Run<seq<Value>>
  {
    match v
    case Null => Returned([])
    case List(items) => Returned(items)
    case _ => Panicked
  }

  /** A list field of strings read with a nil check first. */
  function OptionalStrings(v: Value): (r: Run<seq<string>>)
    ensures v.Null? ==> r == Returned([])
    ensures v.List? ==> r == Strings(v.items)
    ensures !v.Null? && !v.List? ==> r.Panicked?
  {
    match OptionalList(v)
    case Panicked => Panicked
    case Returned(items) => Strings(items)
  }

  // ------------------------------------------------------------ ports

  /** The text a port entry is matched as: an integer in decimal, a string
      as it is. For any other entry the loop's `portString` keeps the text
      of the entry before it (across services, too), `""` at the start. */
  function PortText(port: Value, last: string): string
  {
    match port
    case Int(n) => Itoa(n)
    case Str(s) => s
    case _ => last
  }

  /** Decimal text never holds a binding. */
  lemma ItoaNoBinding(n: int)
    ensures !HasBinding(Itoa(n))
    ensures PortRewrite(Itoa(n)) == Itoa(n)
  {
    var s := Itoa(n);
    forall j: nat | j < |s|
      ensures s[j] != ':'
    {
      if n < 0 {
        if j > 0 {
          assert s[j] == NatToDecimal(-n)[j - 1];
        }
      }
    }
  }

  /** `after` is the port entry `before` rewritten: a string with no binding
      left; a string entry becomes its rewrite and an integer its decimal
      text. */
  predicate PortRewritten(before: Value, after: Value)
  {
    after.Str? && !HasBinding(after.s)
    && (before.Str? ==> after.s == PortRewrite(before.s))
    && (before.Int? ==> after.s == Itoa(before.n))
  }

  /** `after` is the list `before` rewritten entry by entry. */
  predicate PortsRewritten(before: seq<Value>, after: seq<Value>)
  {
    |after| == |before| && forall i | 0 <= i < |before| :: PortRewritten(before[i], after[i])
  }

  /** The rewrite of one entry, given the text of the entry before it. */
  lemma RewriteOne(port: Value, last: string)
    ensures PortRewritten(port, Str(PortRewrite(PortText(port, last))))
  {
    var text := PortText(port, last);
    RewriteLeavesNoBinding(text);
    if port.Int? {
      ItoaNoBinding(port.n);
    }
  }

  /** The inner loop of `RewritePortBindings` over one service's ports,
      carrying `portString` along. */
  function RewritePorts(ports: seq<Value>, last: string): (r: (seq<Value>, string))
    ensures PortsRewritten(ports, r.0)
    decreases |ports|
  {
    if ports == [] then ([], last)
    else
      var text := PortText(ports[0], last);
      var rest := RewritePorts(ports[1..], text);
      var r := [Str(PortRewrite(text))] + rest.0;
      RewriteOne(ports[0], last);
      assert forall i | 0 < i < |ports| :: ports[i] == ports[1..][i - 1] && r[i] == rest.0[i - 1];
      (r, rest.1)
  }

  /** A service the rewrite gets through: a mapping whose `ports` is absent,
      nil or a list. */
  predicate Rewritable(service: Value)
  {
    service.Map? && (Field(service.fields, "ports").Null? || Field(service.fields, "ports").List?)
  }

  /** `after` is the service `before` with its port list, if it has one,
      rewritten and every other entry kept. */
  predicate ServiceRewritten(before: Fields, after: Fields)
  {
    if Field(before, "ports").Null? then after == before
    else
      before["ports"].List? && "ports" in after && after == before["ports" := after["ports"]]
      && after["ports"].List? && PortsRewritten(before["ports"].items, after["ports"].items)
  }

  /** `after` is the service map `before` with the services `names`
      rewritten and every other service kept. */
  predicate ServicesRewritten(before: Fields, after: Fields, names: seq<string>)
  {
    after.Keys == before.Keys
    && forall n | n in before ::
         if n in names then before[n].Map? && after[n].Map? && ServiceRewritten(before[n].fields, after[n].fields)
         else after[n] == before[n]
  }

  /** The outer loop of `RewritePortBindings`, over the services `names` in
      turn; each service is looked up and asserted to be a mapping, and a
      present `ports` is asserted to be a list. */
  function RewriteServices(services: Fields, names: seq<string>, last: string): (r: Run<(Fields, string)>)
    requires forall i, j | 0 <= i < j < |names| :: names[i] != names[j]
    ensures r.Returned? <==> forall i | 0 <= i < |names| :: names[i] in services && Rewritable(services[names[i]])
    ensures r.Returned? ==> ServicesRewritten(services, r.value.0, names)
    decreases |names|
  {
    if names == [] then Returned((services, last))
    else
      var name := names[0];
      assert forall i | 0 < i < |names| :: names[i] == names[1..][i - 1];
      assert forall n :: n in names <==> n == name || n in names[1..];
      assert name !in names[1..];
      match Field(services, name)
      case Map(service) =>
        var ports := Field(service, "ports");
        if ports.Null? then
          var r := RewriteServices(services, names[1..], last);
          r
        else if !ports.List? then Panicked
        else
          var (newPorts, last') := RewritePorts(ports.items, last);
          var services' := services[name := Map(service["ports" := List(newPorts)])];
          var r := RewriteServices(services', names[1..], last');
          RewriteServiceStep(services, name, newPorts, names[1..]);
          RewrittenStep(services, name, newPorts, names[1..], r);
          r
      case _ => Panicked
  }

  /** After the service `name` is rewritten, the services still to come are
      rewritable in the new map exactly when they were in the old one. */
  lemma RewriteServiceStep(services: Fields, name: string, newPorts: seq<Value>, rest: seq<string>)
    requires name in services && services[name].Map? && name !in rest
    ensures var services' := services[name := Map(services[name].fields["ports" := List(newPorts)])];
      (forall i | 0 <= i < |rest| :: rest[i] in services' && Rewritable(services'[rest[i]]))
      <==> (forall i | 0 <= i < |rest| :: rest[i] in services && Rewritable(services[rest[i]]))
  {
  }

  /** Rewriting the rest of the services after `name` rewrites `name` and
      the rest in the original map. */
  lemma RewrittenStep(services: Fields, name: string, newPorts: seq<Value>, rest: seq<string>, r: Run<(Fields, string)>)
    requires name in services && services[name].Map? && name !in rest
    requires Field(services[name].fields, "ports").List?
    requires PortsRewritten(services[name].fields["ports"].items, newPorts)
    ensures r.Returned? && ServicesRewritten(services[name := Map(services[name].fields["ports" := List(newPorts)])], r.value.0, rest)
      ==> ServicesRewritten(services, r.value.0, [name] + rest)
  {
    assert forall n :: n in [name] + rest <==> n == name || n in rest;
  }

  /** `after` is the service map `before` with every service rewritten. */
  predicate AllRewritten(before: Fields, after: Fields)
  {
    after.Keys == before.Keys
    && forall n | n in before :: before[n].Map? && after[n].Map? && ServiceRewritten(before[n].fields, after[n].fields)
  }

  /** The outer loop over all services in ascending name order gets
      through exactly when every service is rewritable. */
  lemma RewriteAllReturns(services: Fields)
    ensures RewriteServices(services, SortedSeq(services.Keys), "").Returned?
      <==> forall n | n in services :: Rewritable(services[n])
  {
    var names := SortedSeq(services.Keys);
    assert forall i, j | 0 <= i < j < |names| :: names[i] != names[j];
    RewritableByName(services, names);
  }

  /** Every service is rewritable exactly when every name of the sorted
      key list names a rewritable service. */
  lemma RewritableByName(services: Fields, names: seq<string>)
    requires forall x :: x in names <==> x in services
    ensures (forall i | 0 <= i < |names| :: names[i] in services && Rewritable(services[names[i]]))
      <==> forall n | n in services :: Rewritable(services[n])
  {
    if !forall n | n in services :: Rewritable(services[n]) {
      var n :| n in services && !Rewritable(services[n]);
      var i :| 0 <= i < |names| && names[i] == n;
    }
  }

  /** Rewriting the services of all names rewrites every service. */
  lemma RewriteAllRewritten(services: Fields, after: Fields)
    requires ServicesRewritten(services, after, SortedSeq(services.Keys))
    ensures AllRewritten(services, after)
  {
    var names := SortedSeq(services.Keys);
    assert forall n | n in services :: n in names;
  }

  /** The file after its service map is replaced by the rewritten one. */
  lemma WithServicesRewritten(doc: Fields, services: Fields)
    requires Services(doc).Returned? && AllRewritten(Services(doc).value, services)
    ensures PortsRewrittenIn(doc, WithServices(doc, services))
  {
    var r := WithServices(doc, services);
    if !IsVersion2(doc) && "version" in doc {
      assert r["version"].Map?;
    }
  }

  /** `RewritePortBindings`: every service with ports gets each port
      rewritten. Go ranges over the service map in no fixed order; here the
      services come in ascending name order. */
  function RewritePortBindings(doc: Fields): (r: Run<Fields>)
    ensures r.Returned? <==>
      Services(doc).Returned? && forall n | n in Services(doc).value :: Rewritable(Services(doc).value[n])
    ensures r.Returned? ==> PortsRewrittenIn(doc, r.value)
  {
    match Services(doc)
    case Panicked => Panicked
    case Returned(services) =>
      RewriteAllReturns(services);
      match RewriteServices(services, SortedSeq(services.Keys), "")
      case Panicked => Panicked
      case Returned((services', _)) =>
        RewriteAllRewritten(services, services');
        WithServicesRewritten(doc, services');
        Returned(WithServices(doc, services'))
  }

  /** `after` is the file `before` with the ports of every service rewritten
      and nothing else changed. */
  predicate PortsRewrittenIn(before: Fields, after: Fields)
  {
    IsVersion2(after) == IsVersion2(before)
    && Services(before).Returned? && Services(after).Returned?
    && AllRewritten(Services(before).value, Services(after).value)
    && (IsVersion2(before) ==>
          after.Keys == before.Keys && forall k | k in before && k != "services" :: after[k] == before[k])
  }

  // ------------------------------------------------------------ idempotence

  /** A port list the rewrite leaves as it is: strings without a binding. */
  predicate PortsSettled(ports: seq<Value>)
  {
    forall i | 0 <= i < |ports| :: ports[i].Str? && !HasBinding(ports[i].s)
  }

  /** A service the rewrite leaves as it is. */
  predicate Settled(service: Value)
  {
    service.Map?
    && (Field(service.fields, "ports").Null?
        || (Field(service.fields, "ports").List? && PortsSettled(Field(service.fields, "ports").items)))
  }

  lemma {:induction false} RewritePortsSettled(ports: seq<Value>, last: string)
    requires PortsSettled(ports)
    ensures RewritePorts(ports, last).0 == ports
    decreases |ports|
  {
    if ports != [] {
      RewritePortsSettled(ports[1..], ports[0].s);
      assert ports == [ports[0]] + ports[1..];
    }
  }

  lemma {:induction false} RewriteServicesSettled(services: Fields, names: seq<string>, last: string)
    requires forall i, j | 0 <= i < j < |names| :: names[i] != names[j]
    requires forall i | 0 <= i < |names| :: names[i] in services && Settled(services[names[i]])
    ensures RewriteServices(services, names, last).Returned?
    ensures RewriteServices(services, names, last).value.0 == services
    decreases |names|
  {
    if names != [] {
      var name := names[0];
      var service := services[name].fields;
      assert forall i | 0 < i < |names| :: names[i] == names[1..][i - 1];
      var ports := Field(service, "ports");
      if ports.Null? {
        RewriteServicesSettled(services, names[1..], last);
      } else {
        var (newPorts, last') := RewritePorts(ports.items, last);
        RewritePortsSettled(ports.items, last);
        assert service["ports" := List(newPorts)] == service;
        assert services[name := Map(service)] == services;
        RewriteServicesSettled(services, names[1..], last');
      }
    }
  }

  /** A rewritten service is settled. */
  lemma RewrittenSettled(before: Fields, after: Fields)
    requires ServiceRewritten(before, after)
    ensures Settled(Map(after))
  {
    if !Field(before, "ports").Null? {
      var ports := after["ports"].items;
      assert forall i | 0 <= i < |ports| :: PortRewritten(before["ports"].items[i], ports[i]);
    }
  }

  /** A second `RewritePortBindings` changes nothing: the first leaves no
      `host:container` binding behind. */
  lemma RewriteIdempotent(doc: Fields)
    requires RewritePortBindings(doc).Returned?
    ensures RewritePortBindings(RewritePortBindings(doc).value) == RewritePortBindings(doc)
  {
    var after := RewritePortBindings(doc).value;
    var before := Services(doc).value;
    var services := Services(after).value;
    forall n | n in services
      ensures Settled(services[n])
    {
      RewrittenSettled(before[n].fields, services[n].fields);
    }
    SettledUnchanged(after);
  }

  /** A file whose services are all settled is left as it is. */
  lemma SettledUnchanged(doc: Fields)
    requires Services(doc).Returned? && forall n | n in Services(doc).value :: Settled(Services(doc).value[n])
    ensures RewritePortBindings(doc) == Returned(doc)
  {
    var services := Services(doc).value;
    var names := SortedSeq(services.Keys);
    assert forall i | 0 <= i < |names| :: names[i] in services && Settled(services[names[i]]) by {
      assert forall x :: x in names <==> x in services;
    }
    assert forall i, j | 0 <= i < j < |names| :: names[i] != names[j];
    RewriteServicesSettled(services, names, "");
    var last := RewriteServices(services, names, "").value.1;
    assert RewriteServices(services, names, "") == Returned((services, last));
    WithOwnServices(doc);
  }

  /** Putting back the service map a file already has gives the file. */
  lemma WithOwnServices(doc: Fields)
    requires Services(doc).Returned?
    ensures WithServices(doc, Services(doc).value) == doc
  {
    if IsVersion2(doc) {
      var m := doc["services"];
      assert m == Map(m.fields);
      assert doc["services" := m] == doc;
    }
  }
}
