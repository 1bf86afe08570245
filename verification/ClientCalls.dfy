/** What an application knows that only listens to the calls of its handlers. It knows just what the proxies hold, unless a
    message gives a proxy that is there already another value without being a change: this is not reported.
 */
module ClientCalls {
  import opened Bus
  import opened Views
  import opened ClientModel
  import opened ClientTraces

  ghost function Taken(v: View, e: Event): View {
    match e
    case Added(k, props) => v[k := props]
    case Removed(k) => v - {k}
    case Changed(k, name, value) =>
      if k !in v then v else if value.Some? then v[k := v[k][name := value.value]] else v[k := v[k] - {name}]
  }

  /** What the calls so far have told. */
  ghost function Heard(trace: seq<Event>): View {
    if trace == [] then map[] else Taken(Heard(trace[..|trace| - 1]), trace[|trace| - 1])
  }

  ghost predicate Informed(c: Client) {
    Heard(c.trace) == ViewOf(c.proxies)
  }

  lemma HeardMore(trace: seq<Event>, e: Event)
    ensures Heard(trace + [e]) == Taken(Heard(trace), e)
  {
    assert (trace + [e])[..|trace|] == trace;
  }

  lemma {:induction false} HeardChanges(trace: seq<Event>, k: Key, entries: seq<Entry>)
    requires k in Heard(trace)
    ensures Heard(trace + ChangedEvents(k, entries)) == Heard(trace)[k := Heard(trace)[k] + ToMap(entries)]
  {
    if entries == [] {
      assert trace + [] == trace && Heard(trace)[k] + map[] == Heard(trace)[k];
    } else {
      var n := |entries| - 1;
      HeardChanges(trace, k, entries[..n]);
      var t, e := trace + ChangedEvents(k, entries[..n]), Changed(k, entries[n].name, Some(entries[n].value));
      HeardMore(t, e);
      assert trace + ChangedEvents(k, entries) == t + [e];
      OneMorePut(Heard(trace)[k], entries);
    }
  }

  lemma OneMorePut(props: Props, entries: seq<Entry>)
    requires entries != []
    ensures var front, e := entries[..|entries| - 1], entries[|entries| - 1];
            (props + ToMap(front))[e.name := e.value] == props + ToMap(entries)
  {
  }

  lemma {:induction false} HeardGone(trace: seq<Event>, k: Key, names: seq<Name>)
    requires k in Heard(trace)
    ensures Heard(trace + GoneEvents(k, names)) == Heard(trace)[k := Heard(trace)[k] - (set n | n in names)]
  {
    if names == [] {
      assert trace + [] == trace && Heard(trace)[k] - (set n | n in names) == Heard(trace)[k];
    } else {
      var n := |names| - 1;
      HeardGone(trace, k, names[..n]);
      var t, e := trace + GoneEvents(k, names[..n]), Changed(k, names[n], None);
      HeardMore(t, e);
      assert trace + GoneEvents(k, names) == t + [e];
      OneMoreGone(Heard(trace)[k], names[..n], names[n], names);
    }
  }

  lemma {:induction false} HeardRemovals(trace: seq<Event>, ps: seq<Proxy>)
    ensures Heard(trace + RemovedEvents(ps)) == Heard(trace) - (set i | 0 <= i < |ps| :: KeyOf(ps[i]))
  {
    if ps == [] {
      assert trace + [] == trace;
    } else {
      var n := |ps| - 1;
      HeardRemovals(trace, ps[..n]);
      var t, e := trace + RemovedEvents(ps[..n]), Removed(KeyOf(ps[n]));
      HeardMore(t, e);
      assert trace + RemovedEvents(ps) == t + [e];
      assert (set i | 0 <= i < |ps| :: KeyOf(ps[i])) == (set i | 0 <= i < n :: KeyOf(ps[..n][i])) + {KeyOf(ps[n])};
    }
  }

  // ---------------------------------------------------------------------
  // Messages

  /** The entry gives a proxy that is there another value. */
  ghost predicate Quietly(v: View, path: Path, i: IfaceProps) {
    !Builtin(i.iface) && Key(path, i.iface) in v && v[Key(path, i.iface)] + ToMap(i.props) != v[Key(path, i.iface)]
  }

  /** After one entry of a message the application still knows everything exactly when it was not such an entry. */
  lemma ParseInformedIff(c: Client, path: Path, i: IfaceProps)
    requires Consistent(c) && Informed(c)
    ensures Informed(ParseProperties(c, path, i)) <==> !Quietly(ViewOf(c.proxies), path, i)
  {
    ParseConsistent(c, path, i);
    InformedAfter(c.trace, ViewOf(c.proxies), path, i, ParseProperties(c, path, i));
  }

  lemma {:induction false} InformedAfter(trace: seq<Event>, v: View, path: Path, i: IfaceProps, r: Client)
    requires Heard(trace) == v && ViewOf(r.proxies) == ApplyIface(v, path, i)
    requires var k := Key(path, i.iface); r.trace == trace + if Builtin(i.iface) || k in v then [] else [Added(k, ToMap(i.props))]
    ensures Informed(r) <==> !Quietly(v, path, i)
  {
    var k := Key(path, i.iface);
    if Builtin(i.iface) {
      assert trace + [] == trace;
    } else if k in v {
      assert trace + [] == trace;
      SamePut(v, k, v[k] + ToMap(i.props));
    } else {
      HeardMore(trace, Added(k, ToMap(i.props)));
      assert map[] + ToMap(i.props) == ToMap(i.props);
    }
  }

  lemma SamePut(v: View, k: Key, props: Props)
    requires k in v
    ensures v == v[k := props] <==> props == v[k]
  {
    assert v[k := props][k] == props;
  }

  lemma RemoveInforms(c: Client, k: Key)
    requires Consistent(c) && Informed(c)
    ensures Informed(ProxyRemove(c, k))
  {
    RemoveConsistent(c, k);
    if k in ViewOf(c.proxies) {
      HeardMore(c.trace, Removed(k));
    } else {
      assert c.trace + [] == c.trace && ViewOf(c.proxies) - {k} == ViewOf(c.proxies);
    }
  }

  lemma ChangeInforms(c: Client, k: Key, changed: seq<Entry>, invalidated: seq<Name>)
    requires Consistent(c) && Informed(c)
    ensures Informed(PropertiesUpdate(c, k, changed, invalidated))
  {
    var at := Lookup(c.proxies, k);
    ViewLookup(c.proxies, k);
    ChangedConsistent(c, k, changed, invalidated);
    if at < |c.proxies| {
      UpdateEffect(c, at, changed, true);
      InvalidatedEffect(UpdateProperties(c, at, changed, true), at, invalidated);
      ReportsTaken(c.trace, k, changed, invalidated);
      assert c.trace + ChangedEvents(k, changed) + GoneEvents(k, invalidated) == PropertiesUpdate(c, k, changed, invalidated).trace;
    }
  }

  lemma {:induction false} ReportsTaken(trace: seq<Event>, k: Key, changed: seq<Entry>, invalidated: seq<Name>)
    requires k in Heard(trace)
    ensures Heard(trace + ChangedEvents(k, changed) + GoneEvents(k, invalidated))
            == ApplyChanged(Heard(trace), k, changed, invalidated)
  {
    HeardChanges(trace, k, changed);
    HeardGone(trace + ChangedEvents(k, changed), k, invalidated);
    LastPut(Heard(trace), k, Heard(trace)[k] + ToMap(changed), set n | n in invalidated);
  }

  lemma DisconnectInforms(c: Client)
    requires Consistent(c) && Informed(c)
    ensures Informed(Disconnect(c))
  {
    HeardRemovals(c.trace, c.proxies);
    forall k | k in ViewOf(c.proxies) ensures k in (set i | 0 <= i < |c.proxies| :: KeyOf(c.proxies[i])) {
      ViewLookup(c.proxies, k);
      assert KeyOf(c.proxies[Lookup(c.proxies, k)]) == k;
    }
  }

  ghost predicate QuietIfaces(v: View, path: Path, ifaces: seq<IfaceProps>) {
    exists j :: 0 <= j < |ifaces| && Quietly(ApplyIfaces(v, path, ifaces[..j]), path, ifaces[j])
  }

  ghost predicate QuietObjects(v: View, objects: seq<ObjectEntry>) {
    exists j :: 0 <= j < |objects| && QuietIfaces(ApplyObjects(v, objects[..j]), objects[j].path, objects[j].ifaces)
  }

  ghost predicate QuietMessage(v: View, m: Message) {
    (m.InterfacesAdded? && QuietIfaces(v, m.path, m.ifaces)) || (m.ManagedObjects? && QuietObjects(v, m.objects))
  }

  lemma {:induction false} IfacesInform(c: Client, path: Path, ifaces: seq<IfaceProps>)
    requires Consistent(c) && Informed(c) && !QuietIfaces(ViewOf(c.proxies), path, ifaces)
    ensures Informed(ParseInterfaces(c, path, ifaces))
  {
    if ifaces != [] {
      var n, v := |ifaces| - 1, ViewOf(c.proxies);
      forall j | 0 <= j < n ensures !Quietly(ApplyIfaces(v, path, ifaces[..n][..j]), path, ifaces[..n][j]) {
        assert ifaces[..n][..j] == ifaces[..j];
      }
      IfacesInform(c, path, ifaces[..n]);
      InterfacesConsistent(c, path, ifaces[..n]);
      ParseInformedIff(ParseInterfaces(c, path, ifaces[..n]), path, ifaces[n]);
    }
  }

  lemma {:induction false} ObjectsInform(c: Client, objects: seq<ObjectEntry>)
    requires Consistent(c) && Informed(c) && !QuietObjects(ViewOf(c.proxies), objects)
    ensures Informed(ParseManagedObjects(c, objects))
  {
    if objects != [] {
      var n, v := |objects| - 1, ViewOf(c.proxies);
      forall j | 0 <= j < n ensures !QuietIfaces(ApplyObjects(v, objects[..n][..j]), objects[..n][j].path, objects[..n][j].ifaces) {
        assert objects[..n][..j] == objects[..j];
      }
      ObjectsInform(c, objects[..n]);
      ObjectsConsistent(c, objects[..n]);
      IfacesInform(ParseManagedObjects(c, objects[..n]), objects[n].path, objects[n].ifaces);
    }
  }

  lemma {:induction false} GoneInforms(c: Client, path: Path, names: seq<Name>)
    requires Consistent(c) && Informed(c)
    ensures Informed(InterfacesGone(c, path, names))
  {
    if names != [] {
      var n := |names| - 1;
      GoneInforms(c, path, names[..n]);
      GoneConsistent(c, path, names[..n]);
      RemoveInforms(InterfacesGone(c, path, names[..n]), Key(path, names[n]));
    }
  }

  lemma HandleInforms(c: Client, m: Message)
    requires Consistent(c) && Informed(c) && !QuietMessage(ViewOf(c.proxies), m)
    ensures Informed(Handle(c, m))
  {
    match m
    case InterfacesAdded(path, ifaces) => IfacesInform(c, path, ifaces);
    case InterfacesRemoved(path, names) => GoneInforms(c, path, names);
    case PropertiesChanged(path, iface, changed, invalidated) => ChangeInforms(c, Key(path, iface), changed, invalidated);
    case ManagedObjects(objects) => ObjectsInform(c, objects);
  }

  /** In every run without a message of that kind, with services lost at any time, the application knows from the calls
      alone what the proxies hold. */
  lemma {:induction false} CallsTellAll(inputs: seq<Input>)
    requires forall i :: 0 <= i < |inputs| && inputs[i].Receive? ==>
               !QuietMessage(ViewOf(Feed(inputs[..i]).proxies), inputs[i].message)
    ensures Heard(Feed(inputs).trace) == ViewOf(Feed(inputs).proxies)
  {
    if inputs != [] {
      var n := |inputs| - 1;
      forall i | 0 <= i < n && inputs[..n][i].Receive?
        ensures !QuietMessage(ViewOf(Feed(inputs[..n][..i]).proxies), inputs[..n][i].message)
      {
        assert inputs[..n][..i] == inputs[..i];
      }
      CallsTellAll(inputs[..n]);
      FeedConsistent(inputs[..n]);
      match inputs[n]
      case Receive(m) => HandleInforms(Feed(inputs[..n]), m);
      case Lost => DisconnectInforms(Feed(inputs[..n]));
    }
  }
}
