/** What the client of bluez/gdbus/client.c does with each message: its list of
    proxies with cached properties, and the calls it makes to the handlers that
    the application installed.
 */
module ClientModel {
  import opened Bus
  import opened Views

  /** `pending` until the application has been told of the proxy. */
  datatype Proxy = Proxy(path: Path, iface: Name, props: Props, pending: bool)

  /** A call of one of the application's handlers; `props` is what the proxy holds then, and a property that disappeared
      is reported without a value. */
  datatype Event =
    | Added(key: Key, props: Props)
    | Removed(key: Key)
    | Changed(key: Key, name: Name, value: Option<Variant>)

  datatype Client = Client(proxies: seq<Proxy>, trace: seq<Event>)

  function KeyOf(p: Proxy): Key {
    Key(p.path, p.iface)
  }

  /** `g_dbus_proxy_lookup`: the position of the first proxy with the key, or the length of the list. */
  function Lookup(ps: seq<Proxy>, k: Key): (i: nat)
    ensures i <= |ps|
    ensures i < |ps| ==> KeyOf(ps[i]) == k
    ensures forall j :: 0 <= j < i ==> KeyOf(ps[j]) != k
  {
    if ps == [] || KeyOf(ps[0]) == k then 0 else 1 + Lookup(ps[1..], k)
  }

  /** `add_property`. */
  function AddProperty(c: Client, i: nat, e: Entry, send: bool): (r: Client)
    requires i < |c.proxies|
    ensures |r.proxies| == |c.proxies|
  {
    var p := c.proxies[i];
    Client(c.proxies[i := p.(props := p.props[e.name := e.value])],
           c.trace + if send then [Changed(KeyOf(p), e.name, Some(e.value))] else [])
  }

  /** `update_properties`. */
  function UpdateProperties(c: Client, i: nat, entries: seq<Entry>, send: bool): (r: Client)
    requires i < |c.proxies|
    ensures |r.proxies| == |c.proxies|
  {
    if entries == [] then c
    else AddProperty(UpdateProperties(c, i, entries[..|entries| - 1], send), i, entries[|entries| - 1], send)
  }

  /** `proxy_added`. */
  function Announce(c: Client, i: nat): (r: Client)
    requires i < |c.proxies|
    ensures |r.proxies| == |c.proxies|
  {
    var p := c.proxies[i];
    if !p.pending then c
    else Client(c.proxies[i := p.(pending := false)], c.trace + [Added(KeyOf(p), p.props)])
  }

  /** `parse_properties`. */
  function ParseProperties(c: Client, path: Path, i: IfaceProps): Client {
    var k := Key(path, i.iface);
    var at := Lookup(c.proxies, k);
    if Builtin(i.iface) then c
    else if at < |c.proxies| && !c.proxies[at].pending then UpdateProperties(c, at, i.props, false)
    else
      var c1 := if at < |c.proxies| then c else c.(proxies := c.proxies + [Proxy(path, i.iface, map[], true)]);
      Announce(UpdateProperties(c1, at, i.props, false), at)
  }

  /** `parse_interfaces`. */
  function ParseInterfaces(c: Client, path: Path, ifaces: seq<IfaceProps>): Client {
    if ifaces == [] then c
    else ParseProperties(ParseInterfaces(c, path, ifaces[..|ifaces| - 1]), path, ifaces[|ifaces| - 1])
  }

  /** `parse_managed_objects`. */
  function ParseManagedObjects(c: Client, objects: seq<ObjectEntry>): Client {
    if objects == [] then c
    else
      var last := objects[|objects| - 1];
      ParseInterfaces(ParseManagedObjects(c, objects[..|objects| - 1]), last.path, last.ifaces)
  }

  /** `proxy_remove`: the first proxy with the key goes. */
  function ProxyRemove(c: Client, k: Key): Client {
    var at := Lookup(c.proxies, k);
    if at == |c.proxies| then c
    else Client(c.proxies[..at] + c.proxies[at + 1..], c.trace + [Removed(k)])
  }

  /** `interfaces_removed`. */
  function InterfacesGone(c: Client, path: Path, names: seq<Name>): Client {
    if names == [] then c
    else ProxyRemove(InterfacesGone(c, path, names[..|names| - 1]), Key(path, names[|names| - 1]))
  }

  function Invalidated(c: Client, i: nat, names: seq<Name>): (r: Client)
    requires i < |c.proxies|
    ensures |r.proxies| == |c.proxies|
  {
    if names == [] then c
    else
      var c1 := Invalidated(c, i, names[..|names| - 1]);
      var p := c1.proxies[i];
      var name := names[|names| - 1];
      Client(c1.proxies[i := p.(props := p.props - {name})], c1.trace + [Changed(KeyOf(p), name, None)])
  }

  /** `properties_changed`, which the bus runs for the proxy of that path and interface. */
  function PropertiesUpdate(c: Client, k: Key, changed: seq<Entry>, invalidated: seq<Name>): Client {
    var at := Lookup(c.proxies, k);
    if at == |c.proxies| then c
    else Invalidated(UpdateProperties(c, at, changed, true), at, invalidated)
  }

  function Handle(c: Client, m: Message): Client {
    match m
    case InterfacesAdded(path, ifaces) => ParseInterfaces(c, path, ifaces)
    case InterfacesRemoved(path, names) => InterfacesGone(c, path, names)
    case PropertiesChanged(path, iface, changed, invalidated) => PropertiesUpdate(c, Key(path, iface), changed, invalidated)
    case ManagedObjects(objects) => ParseManagedObjects(c, objects)
  }

  function RemovedEvents(ps: seq<Proxy>): seq<Event> {
    if ps == [] then [] else RemovedEvents(ps[..|ps| - 1]) + [Removed(KeyOf(ps[|ps| - 1]))]
  }

  /** `service_disconnect`: every proxy goes, in list order. */
  function Disconnect(c: Client): Client {
    Client([], c.trace + RemovedEvents(c.proxies))
  }

  // ---------------------------------------------------------------------
  // The proxy list as a view

  ghost predicate UniqueKeys(ps: seq<Proxy>) {
    forall i, j :: 0 <= i < j < |ps| ==> KeyOf(ps[i]) != KeyOf(ps[j])
  }

  /** No two proxies have the same key, and the application knows all of them. */
  ghost predicate Tidy(ps: seq<Proxy>) {
    UniqueKeys(ps) && forall i :: 0 <= i < |ps| ==> !ps[i].pending && !Builtin(ps[i].iface)
  }

  function ViewOf(ps: seq<Proxy>): View {
    if ps == [] then map[] else ViewOf(ps[..|ps| - 1])[KeyOf(ps[|ps| - 1]) := ps[|ps| - 1].props]
  }

  lemma LookupAt(ps: seq<Proxy>, k: Key, i: nat)
    requires i <= |ps| && (i < |ps| ==> KeyOf(ps[i]) == k) && forall j :: 0 <= j < i ==> KeyOf(ps[j]) != k
    ensures Lookup(ps, k) == i
  {
  }

  lemma LookupAppend(ps: seq<Proxy>, p: Proxy, k: Key)
    ensures Lookup(ps + [p], k) == if Lookup(ps, k) < |ps| || KeyOf(p) == k then Lookup(ps, k) else |ps| + 1
  {
    var qs := ps + [p];
    var at := Lookup(ps, k);
    assert forall j :: 0 <= j < at ==> qs[j] == ps[j];
    if at < |ps| {
      assert qs[at] == ps[at];
      LookupAt(qs, k, at);
    } else if KeyOf(p) == k {
      assert qs[|ps|] == p;
      LookupAt(qs, k, |ps|);
    } else {
      assert qs[|ps|] == p;
      LookupAt(qs, k, |ps| + 1);
    }
  }

  lemma {:induction false} ViewLookup(ps: seq<Proxy>, k: Key)
    requires UniqueKeys(ps)
    ensures k in ViewOf(ps) <==> Lookup(ps, k) < |ps|
    ensures k in ViewOf(ps) ==> ViewOf(ps)[k] == ps[Lookup(ps, k)].props
  {
    if ps != [] {
      var n := |ps| - 1;
      assert ps == ps[..n] + [ps[n]];
      ViewLookup(ps[..n], k);
      LookupAppend(ps[..n], ps[n], k);
    }
  }

  lemma AppendView(ps: seq<Proxy>, p: Proxy)
    requires UniqueKeys(ps) && Lookup(ps, KeyOf(p)) == |ps|
    ensures UniqueKeys(ps + [p])
    ensures ViewOf(ps + [p]) == ViewOf(ps)[KeyOf(p) := p.props]
  {
    ViewAppend(ps, p);
  }

  lemma {:induction false} UpdateView(ps: seq<Proxy>, i: nat, p: Proxy)
    requires UniqueKeys(ps) && i < |ps| && KeyOf(p) == KeyOf(ps[i])
    ensures UniqueKeys(ps[i := p])
    ensures ViewOf(ps[i := p]) == ViewOf(ps)[KeyOf(p) := p.props]
  {
    var n := |ps| - 1;
    if i == n {
      assert ps[i := p][..n] == ps[..n];
    } else {
      UpdateView(ps[..n], i, p);
      assert ps[i := p][..n] == ps[..n][i := p];
    }
  }

  lemma UniqueWithout(ps: seq<Proxy>, i: nat)
    requires UniqueKeys(ps) && i < |ps|
    ensures UniqueKeys(ps[..i] + ps[i + 1..])
  {
    var qs := ps[..i] + ps[i + 1..];
    forall a, b | 0 <= a < b < |qs| ensures KeyOf(qs[a]) != KeyOf(qs[b]) {
      assert qs[a] == ps[if a < i then a else a + 1];
      assert qs[b] == ps[if b < i then b else b + 1];
    }
  }

  lemma ViewAppend(ps: seq<Proxy>, p: Proxy)
    ensures ViewOf(ps + [p]) == ViewOf(ps)[KeyOf(p) := p.props]
  {
    assert (ps + [p])[..|ps|] == ps;
  }

  lemma MinusThenPut(v: View, a: Key, b: Key, props: Props)
    requires a != b
    ensures (v - {a})[b := props] == v[b := props] - {a}
  {
  }

  lemma PutThenMinus(v: View, a: Key, props: Props)
    requires a !in v
    ensures v[a := props] - {a} == v
  {
  }

  lemma {:induction false} RemoveView(ps: seq<Proxy>, i: nat)
    requires UniqueKeys(ps) && i < |ps|
    ensures ViewOf(ps[..i] + ps[i + 1..]) == ViewOf(ps) - {KeyOf(ps[i])}
  {
    var n := |ps| - 1;
    if i == n {
      RemoveLast(ps);
    } else {
      RemoveView(ps[..n], i);
      RemoveEarlier(ps, i, ps[..n]);
    }
  }

  lemma {:induction false} RemoveLast(ps: seq<Proxy>)
    requires UniqueKeys(ps) && ps != []
    ensures var n := |ps| - 1; ViewOf(ps[..n] + ps[n + 1..]) == ViewOf(ps) - {KeyOf(ps[n])}
  {
    var n := |ps| - 1;
    assert ps[..n] + ps[n + 1..] == ps[..n];
    LookupAt(ps[..n], KeyOf(ps[n]), n);
    ViewLookup(ps[..n], KeyOf(ps[n]));
    PutThenMinus(ViewOf(ps[..n]), KeyOf(ps[n]), ps[n].props);
  }

  lemma {:induction false} RemoveEarlier(ps: seq<Proxy>, i: nat, front: seq<Proxy>)
    requires UniqueKeys(ps) && i < |ps| - 1 && front == ps[..|ps| - 1]
    requires ViewOf(front[..i] + front[i + 1..]) == ViewOf(front) - {KeyOf(front[i])}
    ensures ViewOf(ps[..i] + ps[i + 1..]) == ViewOf(ps) - {KeyOf(ps[i])}
  {
    var last := ps[|ps| - 1];
    var rest := front[..i] + front[i + 1..];
    assert ps[..i] + ps[i + 1..] == rest + [last];
    ViewAppend(rest, last);
    MinusThenPut(ViewOf(front), KeyOf(ps[i]), KeyOf(last), last.props);
  }

  // ---------------------------------------------------------------------
  // Property updates

  function ChangedEvents(k: Key, entries: seq<Entry>): seq<Event> {
    if entries == [] then []
    else ChangedEvents(k, entries[..|entries| - 1]) + [Changed(k, entries[|entries| - 1].name, Some(entries[|entries| - 1].value))]
  }

  function GoneEvents(k: Key, names: seq<Name>): seq<Event> {
    if names == [] then [] else GoneEvents(k, names[..|names| - 1]) + [Changed(k, names[|names| - 1], None)]
  }

  lemma {:induction false} ChangedEach(k: Key, entries: seq<Entry>)
    ensures |ChangedEvents(k, entries)| == |entries|
    ensures forall i :: 0 <= i < |entries| ==> ChangedEvents(k, entries)[i] == Changed(k, entries[i].name, Some(entries[i].value))
  {
    if entries != [] { ChangedEach(k, entries[..|entries| - 1]); }
  }

  lemma {:induction false} GoneEach(k: Key, names: seq<Name>)
    ensures |GoneEvents(k, names)| == |names|
    ensures forall i :: 0 <= i < |names| ==> GoneEvents(k, names)[i] == Changed(k, names[i], None)
  {
    if names != [] { GoneEach(k, names[..|names| - 1]); }
  }

  lemma {:induction false} RemovedEach(ps: seq<Proxy>)
    ensures |RemovedEvents(ps)| == |ps|
    ensures forall i :: 0 <= i < |ps| ==> RemovedEvents(ps)[i] == Removed(Key(ps[i].path, ps[i].iface))
  {
    if ps != [] { RemovedEach(ps[..|ps| - 1]); }
  }

  /** Updating merges the new values into those of the one proxy. */
  lemma {:induction false} UpdateEffect(c: Client, i: nat, entries: seq<Entry>, send: bool)
    requires i < |c.proxies|
    ensures var p := c.proxies[i];
            UpdateProperties(c, i, entries, send)
            == Client(c.proxies[i := p.(props := p.props + ToMap(entries))],
                      c.trace + if send then ChangedEvents(KeyOf(p), entries) else [])
  {
    var p := c.proxies[i];
    if entries == [] {
      assert p.props + map[] == p.props;
    } else {
      var front, e := entries[..|entries| - 1], entries[|entries| - 1];
      UpdateEffect(c, i, front, send);
      assert (p.props + ToMap(front))[e.name := e.value] == p.props + ToMap(entries);
      assert send ==> c.trace + ChangedEvents(KeyOf(p), front) + [Changed(KeyOf(p), e.name, Some(e.value))]
                      == c.trace + ChangedEvents(KeyOf(p), entries);
    }
  }

  lemma {:induction false} InvalidatedEffect(c: Client, i: nat, names: seq<Name>)
    requires i < |c.proxies|
    ensures var p := c.proxies[i];
            Invalidated(c, i, names)
            == Client(c.proxies[i := p.(props := p.props - (set n | n in names))], c.trace + GoneEvents(KeyOf(p), names))
  {
    var p := c.proxies[i];
    if names == [] {
      assert p.props - (set n | n in names) == p.props;
      assert c.trace + [] == c.trace;
    } else {
      var front, last := names[..|names| - 1], names[|names| - 1];
      InvalidatedEffect(c, i, front);
      InvalidatedLast(c, i, names, front, last, Invalidated(c, i, front));
    }
  }

  lemma {:induction false} InvalidatedLast(c: Client, i: nat, names: seq<Name>, front: seq<Name>, last: Name, c1: Client)
    requires i < |c.proxies| && names != [] && front == names[..|names| - 1] && last == names[|names| - 1]
    requires c1 == Invalidated(c, i, front)
    requires var p := c.proxies[i];
             c1 == Client(c.proxies[i := p.(props := p.props - (set n | n in front))], c.trace + GoneEvents(KeyOf(p), front))
    ensures var p := c.proxies[i];
            Invalidated(c, i, names)
            == Client(c.proxies[i := p.(props := p.props - (set n | n in names))], c.trace + GoneEvents(KeyOf(p), names))
  {
    var p := c.proxies[i];
    OneMoreGone(p.props, front, last, names);
    assert c.trace + GoneEvents(KeyOf(p), front) + [Changed(KeyOf(p), last, None)] == c.trace + GoneEvents(KeyOf(p), names);
  }

  lemma OneMoreGone(props: Props, front: seq<Name>, last: Name, names: seq<Name>)
    requires names != [] && front == names[..|names| - 1] && last == names[|names| - 1]
    ensures (props - (set n | n in front)) - {last} == props - (set n | n in names)
  {
    assert names == front + [last];
  }
}
