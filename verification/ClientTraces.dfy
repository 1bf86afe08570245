/** The client's handling of messages, seen from outside: its proxy list is what
    the messages say (`HandleRefines`), and the application's handlers are
    called in a sensible order for every key (`CallsAlternate`).
 */
module ClientTraces {
  import opened Bus
  import opened Views
  import opened ClientModel

  // ---------------------------------------------------------------------
  // Traces

  /** Whether the application was last told that `k` is there. */
  predicate Up(trace: seq<Event>, k: Key) {
    trace != [] &&
    var last := trace[|trace| - 1];
    if last.Added? && last.key == k then true
    else if last == Removed(k) then false
    else Up(trace[..|trace| - 1], k)
  }

  predicate Fits(trace: seq<Event>, e: Event) {
    match e
    case Added(k, _) => !Up(trace, k)
    case Removed(k) => Up(trace, k)
    case Changed(k, _, _) => Up(trace, k)
  }

  /** Each call fits what the application was told before it. */
  predicate WellFormed(trace: seq<Event>) {
    trace == [] || (WellFormed(trace[..|trace| - 1]) && Fits(trace[..|trace| - 1], trace[|trace| - 1]))
  }

  lemma AppendEvent(trace: seq<Event>, e: Event)
    ensures WellFormed(trace + [e]) <==> WellFormed(trace) && Fits(trace, e)
    ensures forall k :: Up(trace + [e], k) == if e.Added? && e.key == k then true else if e == Removed(k) then false else Up(trace, k)
  {
    assert (trace + [e])[..|trace|] == trace;
  }

  predicate ChangesOf(k: Key, events: seq<Event>) {
    forall i :: 0 <= i < |events| ==> events[i].Changed? && events[i].key == k
  }

  lemma {:induction false} AppendChanges(trace: seq<Event>, k: Key, events: seq<Event>)
    requires WellFormed(trace) && Up(trace, k) && ChangesOf(k, events)
    ensures WellFormed(trace + events)
    ensures forall x :: Up(trace + events, x) == Up(trace, x)
  {
    if events == [] {
      assert trace + events == trace;
    } else {
      var n := |events| - 1;
      AppendChanges(trace, k, events[..n]);
      AppendEvent(trace + events[..n], events[n]);
      assert trace + events == trace + events[..n] + [events[n]];
    }
  }

  // ---------------------------------------------------------------------
  // Handling messages

  /** The proxy list is tidy, and the application has been told exactly of what is on it. */
  ghost predicate Consistent(c: Client) {
    && Tidy(c.proxies)
    && WellFormed(c.trace)
    && forall k :: Up(c.trace, k) <==> k in ViewOf(c.proxies)
  }

  lemma StoreProxy(c: Client, i: nat, p: Proxy, events: seq<Event>)
    requires Consistent(c) && i < |c.proxies| && KeyOf(p) == KeyOf(c.proxies[i]) && !p.pending
    requires ChangesOf(KeyOf(p), events)
    ensures Consistent(Client(c.proxies[i := p], c.trace + events))
    ensures ViewOf(c.proxies[i := p]) == ViewOf(c.proxies)[KeyOf(p) := p.props]
  {
    UpdateView(c.proxies, i, p);
    ViewLookup(c.proxies, KeyOf(p));
    LookupAt(c.proxies, KeyOf(p), i);
    AppendChanges(c.trace, KeyOf(p), events);
  }

  lemma UpdateConsistent(c: Client, i: nat, entries: seq<Entry>, send: bool)
    requires Consistent(c) && i < |c.proxies|
    ensures var r := UpdateProperties(c, i, entries, send);
            && Consistent(r) && r.proxies[i].path == c.proxies[i].path && r.proxies[i].iface == c.proxies[i].iface
            && r.proxies[i].props == c.proxies[i].props + ToMap(entries)
            && ViewOf(r.proxies) == ViewOf(c.proxies)[KeyOf(c.proxies[i]) := c.proxies[i].props + ToMap(entries)]
  {
    var p := c.proxies[i];
    UpdateEffect(c, i, entries, send);
    var events := if send then ChangedEvents(KeyOf(p), entries) else [];
    ChangedEach(KeyOf(p), entries);
    StoreProxy(c, i, p.(props := p.props + ToMap(entries)), events);
  }

  lemma NewProxy(c: Client, path: Path, i: IfaceProps)
    requires !Builtin(i.iface) && Lookup(c.proxies, Key(path, i.iface)) == |c.proxies|
    ensures ParseProperties(c, path, i)
            == Client(c.proxies + [Proxy(path, i.iface, ToMap(i.props), false)], c.trace + [Added(Key(path, i.iface), ToMap(i.props))])
  {
    var n := |c.proxies|;
    var c1 := c.(proxies := c.proxies + [Proxy(path, i.iface, map[], true)]);
    UpdateEffect(c1, n, i.props, false);
    assert map[] + ToMap(i.props) == ToMap(i.props);
    var p := Proxy(path, i.iface, ToMap(i.props), false);
    assert c1.proxies[n := p.(pending := true)][n := p] == c.proxies + [p];
  }

  lemma AppendConsistent(c: Client, p: Proxy)
    requires Consistent(c) && Lookup(c.proxies, KeyOf(p)) == |c.proxies| && !p.pending && !Builtin(p.iface)
    ensures Consistent(Client(c.proxies + [p], c.trace + [Added(KeyOf(p), p.props)]))
    ensures ViewOf(c.proxies + [p]) == ViewOf(c.proxies)[KeyOf(p) := p.props]
  {
    AppendView(c.proxies, p);
    ViewLookup(c.proxies, KeyOf(p));
    AppendEvent(c.trace, Added(KeyOf(p), p.props));
  }

  lemma ParseConsistent(c: Client, path: Path, i: IfaceProps)
    requires Consistent(c)
    ensures Consistent(ParseProperties(c, path, i))
    ensures ViewOf(ParseProperties(c, path, i).proxies) == ApplyIface(ViewOf(c.proxies), path, i)
    ensures var k := Key(path, i.iface);
            ParseProperties(c, path, i).trace
            == c.trace + if Builtin(i.iface) || k in ViewOf(c.proxies) then [] else [Added(k, ToMap(i.props))]
  {
    if Builtin(i.iface) {
      assert c.trace + [] == c.trace;
    } else {
      var k := Key(path, i.iface);
      ViewLookup(c.proxies, k);
      if Lookup(c.proxies, k) < |c.proxies| { ParseKnown(c, path, i); } else { ParseNew(c, path, i); }
    }
  }

  lemma ParseKnown(c: Client, path: Path, i: IfaceProps)
    requires Consistent(c) && !Builtin(i.iface) && Lookup(c.proxies, Key(path, i.iface)) < |c.proxies|
    ensures var r := ParseProperties(c, path, i); var v := ViewOf(c.proxies); var k := Key(path, i.iface);
            Consistent(r) && r.trace == c.trace + [] && k in v && ViewOf(r.proxies) == v[k := v[k] + ToMap(i.props)]
  {
    var at := Lookup(c.proxies, Key(path, i.iface));
    ViewLookup(c.proxies, Key(path, i.iface));
    UpdateConsistent(c, at, i.props, false);
    UpdateEffect(c, at, i.props, false);
  }

  lemma ParseNew(c: Client, path: Path, i: IfaceProps)
    requires Consistent(c) && !Builtin(i.iface) && Lookup(c.proxies, Key(path, i.iface)) == |c.proxies|
    ensures var r := ParseProperties(c, path, i); var k := Key(path, i.iface);
            && Consistent(r) && r.trace == c.trace + [Added(k, ToMap(i.props))]
            && ViewOf(r.proxies) == ViewOf(c.proxies)[k := map[] + ToMap(i.props)]
  {
    NewProxy(c, path, i);
    AppendConsistent(c, Proxy(path, i.iface, ToMap(i.props), false));
    assert map[] + ToMap(i.props) == ToMap(i.props);
  }

  lemma {:induction false} InterfacesConsistent(c: Client, path: Path, ifaces: seq<IfaceProps>)
    requires Consistent(c)
    ensures Consistent(ParseInterfaces(c, path, ifaces))
    ensures ViewOf(ParseInterfaces(c, path, ifaces).proxies) == ApplyIfaces(ViewOf(c.proxies), path, ifaces)
  {
    if ifaces != [] {
      var n := |ifaces| - 1;
      InterfacesConsistent(c, path, ifaces[..n]);
      ParseConsistent(ParseInterfaces(c, path, ifaces[..n]), path, ifaces[n]);
    }
  }

  lemma {:induction false} ObjectsConsistent(c: Client, objects: seq<ObjectEntry>)
    requires Consistent(c)
    ensures Consistent(ParseManagedObjects(c, objects))
    ensures ViewOf(ParseManagedObjects(c, objects).proxies) == ApplyObjects(ViewOf(c.proxies), objects)
  {
    if objects != [] {
      var n := |objects| - 1;
      ObjectsConsistent(c, objects[..n]);
      InterfacesConsistent(ParseManagedObjects(c, objects[..n]), objects[n].path, objects[n].ifaces);
    }
  }

  lemma RemoveConsistent(c: Client, k: Key)
    requires Consistent(c)
    ensures Consistent(ProxyRemove(c, k))
    ensures ViewOf(ProxyRemove(c, k).proxies) == ViewOf(c.proxies) - {k}
    ensures ProxyRemove(c, k).trace == c.trace + if k in ViewOf(c.proxies) then [Removed(k)] else []
  {
    var at := Lookup(c.proxies, k);
    ViewLookup(c.proxies, k);
    if at < |c.proxies| {
      RemoveAt(c, k, at);
    } else {
      assert ViewOf(c.proxies) - {k} == ViewOf(c.proxies);
    }
  }

  lemma RemoveAt(c: Client, k: Key, at: nat)
    requires Consistent(c) && at == Lookup(c.proxies, k) && at < |c.proxies|
    ensures var r := Client(c.proxies[..at] + c.proxies[at + 1..], c.trace + [Removed(k)]);
            Consistent(r) && ViewOf(r.proxies) == ViewOf(c.proxies) - {k}
  {
    ViewLookup(c.proxies, k);
    TidyWithout(c.proxies, at);
    RemoveView(c.proxies, at);
    AppendEvent(c.trace, Removed(k));
  }

  lemma TidyWithout(ps: seq<Proxy>, at: nat)
    requires Tidy(ps) && at < |ps|
    ensures Tidy(ps[..at] + ps[at + 1..])
  {
    UniqueWithout(ps, at);
    var rest := ps[..at] + ps[at + 1..];
    forall i | 0 <= i < |rest| ensures !rest[i].pending && !Builtin(rest[i].iface) {
      assert rest[i] == ps[if i < at then i else i + 1];
    }
  }

  lemma {:induction false} GoneConsistent(c: Client, path: Path, names: seq<Name>)
    requires Consistent(c)
    ensures Consistent(InterfacesGone(c, path, names))
    ensures ViewOf(InterfacesGone(c, path, names).proxies) == ApplyRemoved(ViewOf(c.proxies), path, names)
  {
    if names != [] {
      var n := |names| - 1;
      GoneConsistent(c, path, names[..n]);
      RemoveConsistent(InterfacesGone(c, path, names[..n]), Key(path, names[n]));
    }
  }

  lemma ChangedConsistent(c: Client, k: Key, changed: seq<Entry>, invalidated: seq<Name>)
    requires Consistent(c)
    ensures Consistent(PropertiesUpdate(c, k, changed, invalidated))
    ensures ViewOf(PropertiesUpdate(c, k, changed, invalidated).proxies)
            == ApplyChanged(ViewOf(c.proxies), k, changed, invalidated)
  {
    var at := Lookup(c.proxies, k);
    ViewLookup(c.proxies, k);
    if at < |c.proxies| {
      UpdateConsistent(c, at, changed, true);
      InvalidatedConsistent(UpdateProperties(c, at, changed, true), at, invalidated);
      LastPut(ViewOf(c.proxies), k, c.proxies[at].props + ToMap(changed), set n | n in invalidated);
    }
  }

  /** The calls t about the proxy of a key: one for each new value with that value, then one for each name without. */
  ghost predicate Reports(t: seq<Event>, k: Key, changed: seq<Entry>, invalidated: seq<Name>) {
    && |t| == |changed| + |invalidated|
    && (forall i :: 0 <= i < |changed| ==> t[i] == Changed(k, changed[i].name, Some(changed[i].value)))
    && (forall i :: 0 <= i < |invalidated| ==> t[|changed| + i] == Changed(k, invalidated[i], None))
  }

  lemma {:induction false} EventsReport(k: Key, changed: seq<Entry>, invalidated: seq<Name>)
    ensures Reports(ChangedEvents(k, changed) + GoneEvents(k, invalidated), k, changed, invalidated)
  {
    ChangedEach(k, changed);
    GoneEach(k, invalidated);
  }

  /** A known proxy gets one call for each new value and then one for each name that lost its value. */
  lemma {:induction false} ChangedCalls(c: Client, k: Key, changed: seq<Entry>, invalidated: seq<Name>) returns (t: seq<Event>)
    requires Consistent(c)
    ensures PropertiesUpdate(c, k, changed, invalidated).trace == c.trace + t
    ensures if k in ViewOf(c.proxies) then Reports(t, k, changed, invalidated) else t == []
  {
    var at := Lookup(c.proxies, k);
    ViewLookup(c.proxies, k);
    if at < |c.proxies| {
      t := ChangedEvents(k, changed) + GoneEvents(k, invalidated);
      EventsReport(k, changed, invalidated);
      UpdateTrace(c, at, k, changed, invalidated);
    } else {
      t := [];
    }
  }

  lemma {:induction false} UpdateTrace(c: Client, at: nat, k: Key, changed: seq<Entry>, invalidated: seq<Name>)
    requires at < |c.proxies| && KeyOf(c.proxies[at]) == k
    ensures Invalidated(UpdateProperties(c, at, changed, true), at, invalidated).trace
            == c.trace + (ChangedEvents(k, changed) + GoneEvents(k, invalidated))
  {
    UpdateEffect(c, at, changed, true);
    InvalidatedEffect(UpdateProperties(c, at, changed, true), at, invalidated);
    EventsTwice(c.trace, ChangedEvents(k, changed), GoneEvents(k, invalidated));
  }

  lemma EventsTwice(trace: seq<Event>, a: seq<Event>, b: seq<Event>)
    ensures trace + a + b == trace + (a + b)
  {
  }

  lemma InvalidatedConsistent(c: Client, i: nat, names: seq<Name>)
    requires Consistent(c) && i < |c.proxies|
    ensures var r := Invalidated(c, i, names);
            && Consistent(r)
            && ViewOf(r.proxies) == ViewOf(c.proxies)[KeyOf(c.proxies[i]) := c.proxies[i].props - (set n | n in names)]
  {
    var p := c.proxies[i];
    InvalidatedEffect(c, i, names);
    GoneEach(KeyOf(p), names);
    StoreProxy(c, i, p.(props := p.props - (set n | n in names)), GoneEvents(KeyOf(p), names));
  }

  lemma LastPut(v: View, k: Key, props: Props, names: set<Name>)
    ensures v[k := props][k := props - names] == v[k := props - names]
  {
  }

  /** Handling a message keeps the client consistent, and changes its proxies exactly as the message says. */
  lemma HandleRefines(c: Client, m: Message)
    requires Consistent(c)
    ensures Consistent(Handle(c, m))
    ensures ViewOf(Handle(c, m).proxies) == Apply(ViewOf(c.proxies), m)
  {
    match m
    case InterfacesAdded(path, ifaces) => InterfacesConsistent(c, path, ifaces);
    case InterfacesRemoved(path, names) => GoneConsistent(c, path, names);
    case PropertiesChanged(path, iface, changed, invalidated) => ChangedConsistent(c, Key(path, iface), changed, invalidated);
    case ManagedObjects(objects) => ObjectsConsistent(c, objects);
  }

  lemma {:induction false} DisconnectTrace(ps: seq<Proxy>, trace: seq<Event>)
    requires UniqueKeys(ps) && WellFormed(trace) && forall i :: 0 <= i < |ps| ==> Up(trace, KeyOf(ps[i]))
    ensures WellFormed(trace + RemovedEvents(ps))
    ensures forall k :: Up(trace + RemovedEvents(ps), k) <==> Up(trace, k) && Lookup(ps, k) == |ps|
  {
    if ps == [] {
      assert trace + RemovedEvents(ps) == trace;
    } else {
      var n := |ps| - 1;
      DisconnectTrace(ps[..n], trace);
      RemovedLast(ps, trace, trace + RemovedEvents(ps[..n]));
    }
  }

  lemma {:induction false} RemovedLast(ps: seq<Proxy>, trace: seq<Event>, t: seq<Event>)
    requires UniqueKeys(ps) && ps != [] && t == trace + RemovedEvents(ps[..|ps| - 1]) && Up(trace, KeyOf(ps[|ps| - 1]))
    requires WellFormed(t) && forall k :: Up(t, k) <==> Up(trace, k) && Lookup(ps[..|ps| - 1], k) == |ps| - 1
    ensures WellFormed(trace + RemovedEvents(ps))
    ensures forall k :: Up(trace + RemovedEvents(ps), k) <==> Up(trace, k) && Lookup(ps, k) == |ps|
  {
    var n := |ps| - 1;
    var e := Removed(KeyOf(ps[n]));
    LookupAt(ps[..n], KeyOf(ps[n]), n);
    AppendEvent(t, e);
    RemovedMore(trace, ps);
    forall k ensures Up(t + [e], k) <==> Up(trace, k) && Lookup(ps, k) == |ps| { LookupLast(ps, k); }
  }

  lemma {:induction false} LookupLast(ps: seq<Proxy>, k: Key)
    requires ps != []
    ensures var n := |ps| - 1; Lookup(ps, k) == |ps| <==> Lookup(ps[..n], k) == n && k != KeyOf(ps[n])
  {
    var n := |ps| - 1;
    assert ps == ps[..n] + [ps[n]];
    LookupAppend(ps[..n], ps[n], k);
  }

  lemma {:induction false} RemovedMore(trace: seq<Event>, ps: seq<Proxy>)
    requires ps != []
    ensures var n := |ps| - 1; trace + RemovedEvents(ps) == trace + RemovedEvents(ps[..n]) + [Removed(KeyOf(ps[n]))]
  {
  }

  lemma {:induction false} EachRemoved(trace: seq<Event>, ps: seq<Proxy>, t: seq<Event>)
    requires t == trace + RemovedEvents(ps)
    ensures |t| == |trace| + |ps| && trace <= t
    ensures forall i :: 0 <= i < |ps| ==> t[|trace| + i] == Removed(Key(ps[i].path, ps[i].iface))
  {
    RemovedEach(ps);
  }

  /** A lost service takes every proxy down, each with one call. */
  lemma DisconnectConsistent(c: Client)
    requires Consistent(c)
    ensures Consistent(Disconnect(c)) && ViewOf(Disconnect(c).proxies) == map[]
  {
    forall i | 0 <= i < |c.proxies| ensures Up(c.trace, KeyOf(c.proxies[i])) {
      ViewLookup(c.proxies, KeyOf(c.proxies[i]));
      LookupAt(c.proxies, KeyOf(c.proxies[i]), i);
    }
    DisconnectTrace(c.proxies, c.trace);
    forall k ensures Up(Disconnect(c).trace, k) <==> k in ViewOf([]) {
      ViewLookup(c.proxies, k);
    }
  }

  // ---------------------------------------------------------------------
  // Runs

  datatype Input = Receive(message: Message) | Lost

  function Feed(inputs: seq<Input>): Client {
    if inputs == [] then Client([], [])
    else
      var c := Feed(inputs[..|inputs| - 1]);
      match inputs[|inputs| - 1]
      case Receive(m) => Handle(c, m)
      case Lost => Disconnect(c)
  }

  /** Whatever messages arrive, in whatever order, with services lost at any time. */
  lemma {:induction false} FeedConsistent(inputs: seq<Input>)
    ensures Consistent(Feed(inputs))
  {
    if inputs != [] {
      var n := |inputs| - 1;
      FeedConsistent(inputs[..n]);
      match inputs[n]
      case Receive(m) => HandleRefines(Feed(inputs[..n]), m);
      case Lost => DisconnectConsistent(Feed(inputs[..n]));
    }
  }

  function AddedCalls(trace: seq<Event>, k: Key): nat {
    if trace == [] then 0
    else
      var e := trace[|trace| - 1];
      AddedCalls(trace[..|trace| - 1], k) + if e.Added? && e.key == k then 1 else 0
  }

  function RemovedCalls(trace: seq<Event>, k: Key): nat {
    if trace == [] then 0 else RemovedCalls(trace[..|trace| - 1], k) + if trace[|trace| - 1] == Removed(k) then 1 else 0
  }

  lemma {:induction false} UpCounts(trace: seq<Event>, k: Key)
    requires WellFormed(trace)
    ensures AddedCalls(trace, k) == RemovedCalls(trace, k) + if Up(trace, k) then 1 else 0
  {
    if trace != [] {
      UpCounts(trace[..|trace| - 1], k);
    }
  }

  /** In every run and for every key, the added and removed calls alternate, starting with added; property
      changes are reported only while the key is up; and the proxy list has at most one proxy per key. */
  lemma CallsAlternate(inputs: seq<Input>, i: nat)
    requires i < |Feed(inputs).trace|
    ensures UniqueKeys(Feed(inputs).proxies)
    ensures var before := Feed(inputs).trace[..i]; var k := Feed(inputs).trace[i].key;
            AddedCalls(before, k) == RemovedCalls(before, k) + if Feed(inputs).trace[i].Added? then 0 else 1
  {
    var t := Feed(inputs).trace;
    FeedConsistent(inputs);
    PrefixWellFormed(t, i);
    PrefixWellFormed(t, i + 1);
    assert t[..i + 1][..i] == t[..i];
    UpCounts(t[..i], t[i].key);
  }

  lemma {:induction false} PrefixWellFormed(trace: seq<Event>, i: nat)
    requires WellFormed(trace) && i <= |trace|
    ensures WellFormed(trace[..i])
    decreases |trace|
  {
    if i < |trace| {
      PrefixWellFormed(trace[..|trace| - 1], i);
      assert trace[..|trace| - 1][..i] == trace[..i];
    } else {
      assert trace[..i] == trace;
    }
  }
}
