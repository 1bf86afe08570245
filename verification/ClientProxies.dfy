/** The client as the C file runs it: a proxy list updated in place by loops over
    the entries of each message.  Each method does to the fields what the
    function of `ClientModel` named in its contract does to their values, and
    says what this means for the view and for the calls of the application.
 */
module ClientProxies {
  import opened Bus
  import opened Views
  import opened ClientModel
  import Traces = ClientTraces

  class ProxyClient {
    var proxies: seq<Proxy>
    var trace: seq<Event>

    function State(): Client
      reads this
    {
      Client(proxies, trace)
    }

    /** No pair of path and interface twice, and the application has been told exactly of what is on the list. */
    ghost predicate Valid()
      reads this
    {
      Traces.Consistent(State())
    }

    constructor ()
      ensures State() == Client([], []) && Valid()
    {
      proxies := [];
      trace := [];
    }

    /** `g_dbus_proxy_lookup`. */
    method FindProxy(k: Key) returns (at: nat)
      ensures at == Lookup(proxies, k)
    {
      at := 0;
      while at < |proxies| && KeyOf(proxies[at]) != k
        invariant at <= |proxies|
        invariant forall j :: 0 <= j < at ==> KeyOf(proxies[j]) != k
      {
        at := at + 1;
      }
      LookupAt(proxies, k, at);
    }

    /** `update_properties`, with `add_property` for each entry. */
    method UpdateAll(i: nat, entries: seq<Entry>, send: bool)
      requires i < |proxies|
      modifies this
      ensures State() == UpdateProperties(old(State()), i, entries, send)
      ensures proxies == old(proxies)[i := old(proxies)[i].(props := old(proxies)[i].props + ToMap(entries))]
      ensures |trace| == |old(trace)| + (if send then |entries| else 0) && old(trace) <= trace
      ensures send ==> forall j :: 0 <= j < |entries| ==>
                trace[|old(trace)| + j] == Changed(KeyOf(old(proxies)[i]), entries[j].name, Some(entries[j].value))
    {
      UpdateEffect(State(), i, entries, send);
      ChangedEach(KeyOf(proxies[i]), entries);
      var j := 0;
      assert entries[..0] == [];
      while j < |entries|
        invariant j <= |entries|
        invariant State() == UpdateProperties(old(State()), i, entries[..j], send)
      {
        var e := entries[j];
        assert entries[..j + 1][..j] == entries[..j];
        proxies := proxies[i := proxies[i].(props := proxies[i].props[e.name := e.value])];
        trace := trace + if send then [Changed(KeyOf(proxies[i]), e.name, Some(e.value))] else [];
        j := j + 1;
      }
      assert entries[..j] == entries;
    }

    /** `parse_properties`, with `proxy_new` and `proxy_added`. */
    method ParseIface(path: Path, i: IfaceProps)
      modifies this
      ensures State() == ParseProperties(old(State()), path, i)
      ensures old(Valid()) ==>
                && Valid() && ViewOf(proxies) == ApplyIface(old(ViewOf(proxies)), path, i)
                && trace == old(trace) + if Builtin(i.iface) || Key(path, i.iface) in old(ViewOf(proxies)) then []
                                         else [Added(Key(path, i.iface), ToMap(i.props))]
    {
      if Valid() { Traces.ParseConsistent(State(), path, i); }
      if Builtin(i.iface) {
        return;
      }
      var at := FindProxy(Key(path, i.iface));
      if at < |proxies| && !proxies[at].pending {
        UpdateAll(at, i.props, false);
        return;
      }
      if at == |proxies| {
        proxies := proxies + [Proxy(path, i.iface, map[], true)];
      }
      UpdateAll(at, i.props, false);
      if proxies[at].pending {
        trace := trace + [Added(KeyOf(proxies[at]), proxies[at].props)];
        proxies := proxies[at := proxies[at].(pending := false)];
      }
    }

    /** `parse_interfaces`. */
    method ParseAllInterfaces(path: Path, ifaces: seq<IfaceProps>)
      modifies this
      ensures State() == ParseInterfaces(old(State()), path, ifaces)
    {
      var j := 0;
      assert ifaces[..0] == [];
      while j < |ifaces|
        invariant j <= |ifaces|
        invariant State() == ParseInterfaces(old(State()), path, ifaces[..j])
      {
        assert ifaces[..j + 1][..j] == ifaces[..j];
        ParseIface(path, ifaces[j]);
        j := j + 1;
      }
      assert ifaces[..j] == ifaces;
    }

    /** `parse_managed_objects`. */
    method ParseObjects(objects: seq<ObjectEntry>)
      modifies this
      ensures State() == ParseManagedObjects(old(State()), objects)
    {
      var j := 0;
      assert objects[..0] == [];
      while j < |objects|
        invariant j <= |objects|
        invariant State() == ParseManagedObjects(old(State()), objects[..j])
      {
        assert objects[..j + 1][..j] == objects[..j];
        ParseAllInterfaces(objects[j].path, objects[j].ifaces);
        j := j + 1;
      }
      assert objects[..j] == objects;
    }

    /** `proxy_remove` and `proxy_free`. */
    method RemoveProxy(k: Key)
      modifies this
      ensures State() == ProxyRemove(old(State()), k)
      ensures old(Valid()) ==>
                && Valid() && ViewOf(proxies) == old(ViewOf(proxies)) - {k}
                && trace == old(trace) + if k in old(ViewOf(proxies)) then [Removed(k)] else []
    {
      if Valid() { Traces.RemoveConsistent(State(), k); }
      var at := FindProxy(k);
      if at < |proxies| {
        proxies := proxies[..at] + proxies[at + 1..];
        trace := trace + [Removed(k)];
      }
    }

    /** `interfaces_removed`. */
    method RemoveInterfaces(path: Path, names: seq<Name>)
      modifies this
      ensures State() == InterfacesGone(old(State()), path, names)
    {
      var j := 0;
      assert names[..0] == [];
      while j < |names|
        invariant j <= |names|
        invariant State() == InterfacesGone(old(State()), path, names[..j])
      {
        assert names[..j + 1][..j] == names[..j];
        RemoveProxy(Key(path, names[j]));
        j := j + 1;
      }
      assert names[..j] == names;
    }

    /** `properties_changed`. */
    method ChangeProperties(k: Key, changed: seq<Entry>, invalidated: seq<Name>) returns (ghost calls: seq<Event>)
      modifies this
      ensures State() == PropertiesUpdate(old(State()), k, changed, invalidated)
      ensures old(Valid()) ==>
                && Valid() && ViewOf(proxies) == ApplyChanged(old(ViewOf(proxies)), k, changed, invalidated)
                && trace == old(trace) + calls
                && if k in old(ViewOf(proxies)) then Traces.Reports(calls, k, changed, invalidated) else calls == []
    {
      calls := [];
      if Valid() {
        Traces.ChangedConsistent(State(), k, changed, invalidated);
        calls := Traces.ChangedCalls(State(), k, changed, invalidated);
      }
      var at := FindProxy(k);
      if at == |proxies| {
        return;
      }
      UpdateAll(at, changed, true);
      ghost var mid := State();
      var j := 0;
      assert invalidated[..0] == [];
      while j < |invalidated|
        invariant j <= |invalidated|
        invariant State() == Invalidated(mid, at, invalidated[..j])
      {
        var name := invalidated[j];
        assert invalidated[..j + 1][..j] == invalidated[..j];
        proxies := proxies[at := proxies[at].(props := proxies[at].props - {name})];
        trace := trace + [Changed(KeyOf(proxies[at]), name, None)];
        j := j + 1;
      }
      assert invalidated[..j] == invalidated;
    }

    /** The handlers that the bus runs for a signal or a reply: the proxies change exactly as the message says. */
    method Receive(m: Message)
      requires Valid()
      modifies this
      ensures Valid() && State() == Handle(old(State()), m)
      ensures ViewOf(proxies) == Apply(old(ViewOf(proxies)), m)
    {
      Traces.HandleRefines(State(), m);
      match m
      case InterfacesAdded(path, ifaces) => ParseAllInterfaces(path, ifaces);
      case InterfacesRemoved(path, names) => RemoveInterfaces(path, names);
      case PropertiesChanged(path, iface, changed, invalidated) => var calls := ChangeProperties(Key(path, iface), changed, invalidated);
      case ManagedObjects(objects) => ParseObjects(objects);
    }

    /** `service_disconnect`. */
    method ServiceDisconnect()
      requires Valid()
      modifies this
      ensures Valid() && State() == Disconnect(old(State()))
      ensures ViewOf(proxies) == map[] && |trace| == |old(trace)| + |old(proxies)| && old(trace) <= trace
      ensures forall i :: 0 <= i < |old(proxies)| ==>
                trace[|old(trace)| + i] == Removed(Key(old(proxies)[i].path, old(proxies)[i].iface))
    {
      Traces.DisconnectConsistent(State());
      ghost var before := trace;
      var list := proxies;
      var j := 0;
      assert list[..0] == [];
      while j < |list|
        invariant j <= |list| && proxies == list
        invariant trace == before + RemovedEvents(list[..j])
      {
        assert list[..j + 1][..j] == list[..j];
        Traces.RemovedMore(before, list[..j + 1]);
        trace := trace + [Removed(KeyOf(list[j]))];
        j := j + 1;
      }
      assert list[..j] == list;
      Traces.EachRemoved(before, list, trace);
      proxies := [];
    }
  }
}
