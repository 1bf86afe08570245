/** The object server as the C file runs it: fields updated in place, loops over
    tables and lists.  Each method does to the fields what the function of
    `ObjectModel` with the same name does to their values; the public ones keep
    the object valid and say what their caller gets.
 */
module ObjectServer {
  import opened Bus
  import opened ObjectModel
  import opened ObjectCore
  import opened ObjectLifetime
  import opened UpwardLinks
  import opened ObjectTree
  import opened Introspection
  import opened Description
  import opened Exports
  import opened Sending

  class ObjectServer {
    var objects: Table
    var attached: bool
    var out: seq<Message>
    const showExperimental: bool

    function State(): Server
      reads this
    {
      Server(objects, attached, showExperimental, out)
    }

    /** Reference counts are right, links lead up and down, and cached texts are what regeneration would give. */
    ghost predicate Valid()
      reads this
    {
      Good(State())
    }

    constructor (showExperimental: bool)
      ensures State() == Server(map[], false, showExperimental, []) && Valid()
    {
      objects := map[];
      attached := false;
      out := [];
      this.showExperimental := showExperimental;
    }

    /** `find_interface`: the first interface with the name. */
    method FindInterface(ifaces: seq<Iface>, name: Name) returns (k: nat)
      ensures k == Find(ifaces, name)
    {
      k := 0;
      while k < |ifaces| && ifaces[k].decl.name != name
        invariant k <= |ifaces|
        invariant forall i :: 0 <= i < k ==> ifaces[i].decl.name != name
      {
        k := k + 1;
      }
      FindAt(ifaces, name, k);
    }

    /** `append_properties`. */
    method AppendProperties(i: Iface) returns (entries: seq<Entry>)
      ensures entries == IfaceEntry(showExperimental, i).props
    {
      var props := Properties(i.decl);
      entries := [];
      var k := 0;
      while k < |props|
        invariant k <= |props|
        invariant entries + Entries(showExperimental, props[k..], i.state) == Entries(showExperimental, props, i.state)
      {
        var p := props[k];
        EntriesStep(showExperimental, props, i.state, k, entries);
        if !Hidden(showExperimental, p.experimental) && p.readable && p.name in i.state {
          entries := entries + [Entry(p.name, i.state[p.name])];
        }
        k := k + 1;
      }
      assert props[k..] == [];
      assert entries + [] == entries;
    }

    /** `append_interface` over a list of interfaces. */
    method AppendInterfaces(ifaces: seq<Iface>) returns (entries: seq<IfaceProps>)
      ensures entries == IfaceEntries(showExperimental, ifaces)
    {
      entries := [];
      var k := 0;
      while k < |ifaces|
        invariant k <= |ifaces| && |entries| == k
        invariant forall i :: 0 <= i < k ==> entries[i] == IfaceEntry(showExperimental, ifaces[i])
      {
        var props := AppendProperties(ifaces[k]);
        entries := entries + [IfaceProps(ifaces[k].decl.name, props)];
        k := k + 1;
      }
    }

    /** The interfaces that the `added` list names. */
    method AddedInterfaces(n: Node) returns (ifaces: seq<Iface>)
      ensures ifaces == Unpublished(n.ifaces, n.added)
    {
      ifaces := [];
      var k := 0;
      while k < |n.added|
        invariant k <= |n.added|
        invariant ifaces + Unpublished(n.ifaces, n.added[k..]) == Unpublished(n.ifaces, n.added)
      {
        var f := FindInterface(n.ifaces, n.added[k]);
        UnpublishedStep(n.ifaces, n.added, k, ifaces);
        if f < |n.ifaces| {
          ifaces := ifaces + [n.ifaces[f]];
        }
        k := k + 1;
      }
      assert n.added[k..] == [];
      assert ifaces + [] == ifaces;
    }

    /** `emit_interfaces_added`. */
    method EmitInterfacesAdded(p: Path)
      requires p in objects
      modifies this
      ensures State() == EmitAdded(old(State()), p)
      decreases |p|
    {
      if !attached || p == [] {
        return;
      }
      var up := objects[p].links.parent;
      if up.Some? && |up.value| < |p| && up.value in objects && objects[up.value].added != [] {
        EmitInterfacesAdded(up.value);
      }
      var ifaces := AddedInterfaces(objects[p]);
      var entries := AppendInterfaces(ifaces);
      objects := objects[p := objects[p].(added := [])];
      out := out + [InterfacesAdded(p, entries)];
    }

    /** `emit_interfaces_removed`. */
    method EmitInterfacesRemoved(p: Path)
      requires p in objects
      modifies this
      ensures State() == EmitRemoved(old(State()), p)
    {
      if !attached || p == [] {
        return;
      }
      var names := objects[p].removed;
      objects := objects[p := objects[p].(removed := [])];
      out := out + [InterfacesRemoved(p, names)];
    }

    /** The two lists of a PropertiesChanged message, from the queue of an interface. */
    method SplitChanges(i: Iface) returns (changed: seq<Entry>, gone: seq<Name>)
      ensures changed == ChangedEntries(Reverse(i.pending), i.state)
      ensures gone == GoneNames(i.pending, i.state)
    {
      var order := Reverse(i.pending);
      changed, gone := [], [];
      var j := 0;
      ReverseReverse(i.pending);
      while j < |order|
        invariant j <= |order|
        invariant changed + ChangedEntries(order[j..], i.state) == ChangedEntries(order, i.state)
        invariant GoneNames(Reverse(order[j..]), i.state) + gone == GoneNames(i.pending, i.state)
      {
        var q := order[j];
        ChangedStep(order, i.state, j, changed);
        GoneStep(order, i.state, j, gone);
        if q.readable {
          if q.name !in i.state {
            gone := [q.name] + gone;
          } else {
            changed := changed + [Entry(q.name, i.state[q.name])];
          }
        }
        j := j + 1;
      }
      assert order[j..] == [];
      assert changed + [] == changed && [] + gone == gone;
    }

    /** `process_properties_from_interface`, for the interface at position `k` of an object. */
    method ProcessPropertiesFromInterface(p: Path, k: nat)
      requires p in objects && k < |objects[p].ifaces|
      modifies this
      ensures out == old(out) + ChangeMessage(p, old(objects[p].ifaces[k])) && attached == old(attached)
      ensures var n := old(objects[p]);
              objects == old(objects)[p := n.(ifaces := n.ifaces[k := n.ifaces[k].(pending := [])])]
    {
      var n := objects[p];
      var i := n.ifaces[k];
      if i.pending != [] {
        var changed, gone := SplitChanges(i);
        out := out + [PropertiesChanged(p, i.decl.name, changed, gone)];
        objects := objects[p := n.(ifaces := n.ifaces[k := i.(pending := [])])];
      } else {
        assert n.ifaces[k := i.(pending := [])] == n.ifaces;
        assert objects[p := n] == objects;
      }
    }

    /** `process_property_changes`. */
    method ProcessPropertyChanges(p: Path)
      requires p in objects
      modifies this
      ensures State() == FlushProperties(old(State()), p)
    {
      ghost var n0 := objects[p];
      objects := objects[p := objects[p].(pendingProp := false)];
      assert PartlyQuieted(n0.ifaces, 0) == n0.ifaces && n0.ifaces[0..] == n0.ifaces;
      var k := 0;
      while k < |objects[p].ifaces|
        invariant k <= |n0.ifaces| && attached == old(attached)
        invariant objects == old(objects)[p := PartlyFlushed(n0, k)]
        invariant out + ChangeMessages(p, n0.ifaces[k..]) == old(out) + ChangeMessages(p, n0.ifaces)
      {
        QuietOneMore(p, n0.ifaces, k);
        ghost var sent := out;
        ProcessPropertiesFromInterface(p, k);
        UpdateTwice(old(objects), p, PartlyFlushed(n0, k), PartlyFlushed(n0, k + 1));
        Reassociate(sent, ChangeMessage(p, n0.ifaces[k]), ChangeMessages(p, n0.ifaces[k + 1..]));
        k := k + 1;
      }
      assert n0.ifaces[k..] == [] && PartlyQuieted(n0.ifaces, k) == Quieted(n0.ifaces);
      assert out + [] == out;
    }

    /** `process_changes`, which `add_pending` calls at once. */
    method ProcessChanges(p: Path)
      requires p in objects
      modifies this
      ensures State() == ObjectModel.ProcessChanges(old(State()), p)
    {
      if objects[p].added != [] {
        EmitInterfacesAdded(p);
      }
      if objects[p].pendingProp {
        ProcessPropertyChanges(p);
      }
      if objects[p].removed != [] {
        EmitInterfacesRemoved(p);
      }
    }
  
    /** Whether the loops of `add_interface` find an entry that is not hidden. */
    method AnythingVisible(d: Decl) returns (visible: bool)
      ensures visible == SomethingVisible(showExperimental, d)
    {
      var k := 0;
      while k < |d.methods|
        invariant k <= |d.methods| && forall i :: 0 <= i < k ==> Hidden(showExperimental, d.methods[i].experimental)
      {
        if !Hidden(showExperimental, d.methods[k].experimental) {
          return true;
        }
        k := k + 1;
      }
      k := 0;
      while k < |d.signals|
        invariant k <= |d.signals| && forall i :: 0 <= i < k ==> Hidden(showExperimental, d.signals[i].experimental)
      {
        if !Hidden(showExperimental, d.signals[k].experimental) {
          return true;
        }
        k := k + 1;
      }
      var props := Properties(d);
      k := 0;
      while k < |props|
        invariant k <= |props| && forall i :: 0 <= i < k ==> Hidden(showExperimental, props[i].experimental)
      {
        if !Hidden(showExperimental, props[k].experimental) {
          return true;
        }
        k := k + 1;
      }
      return false;
    }

    /** `add_interface`. */
    method AddInterface(p: Path, d: Decl, state: map<Name, Variant>) returns (ok: bool)
      requires p in objects
      modifies this
      ensures Outcome(State(), ok) == ObjectModel.AddInterface(old(State()), p, d, state)
    {
      var visible := AnythingVisible(d);
      if !visible {
        return false;
      }
      objects := objects[p := objects[p].(ifaces := objects[p].ifaces + [Iface(d, [], state)])];
      if objects[p].links.parent.None? {
        return true;
      }
      ghost var n1 := objects[p];
      UpdateTwice(old(objects), p, n1, n1.(added := n1.added + [d.name]));
      objects := objects[p := objects[p].(added := objects[p].added + [d.name])];
      ProcessChanges(p);
      return true;
    }

    /** `remove_interface`. */
    method RemoveInterface(p: Path, name: Name) returns (ok: bool)
      requires p in objects
      modifies this
      ensures Outcome(State(), ok) == ObjectModel.RemoveInterface(old(State()), p, name)
    {
      var k := FindInterface(objects[p].ifaces, name);
      if k == |objects[p].ifaces| {
        return false;
      }
      ghost var n := objects[p];
      ProcessPropertiesFromInterface(p, k);
      assert Without(objects[p].ifaces, k) == Without(n.ifaces, k);
      ghost var n1 := n.(ifaces := Without(n.ifaces, k));
      UpdateTwice(old(objects), p, objects[p], n1);
      objects := objects[p := objects[p].(ifaces := Without(objects[p].ifaces, k))];
      if name in objects[p].added {
        UpdateTwice(old(objects), p, n1, n1.(added := RemoveFirst(n1.added, name)));
        objects := objects[p := objects[p].(added := RemoveFirst(objects[p].added, name))];
        return true;
      }
      if objects[p].links.parent.None? {
        return true;
      }
      UpdateTwice(old(objects), p, n1, n1.(removed := [name] + n1.removed));
      objects := objects[p := objects[p].(removed := [name] + objects[p].removed)];
      ProcessChanges(p);
      return true;
    }

    /** `invalidate_parent_data`: the nearest registered ancestor, which has the path among its children then; the cached
        texts of all registered ancestors are gone, and no other. */
    method InvalidateParentData(c: Path) returns (data: Option<Path>)
      modifies this
      ensures Found(objects, data) == Invalidate(old(objects), c)
      ensures data == Above(old(objects.Keys), c) && Cleared(old(objects), objects, c)
      ensures data.Some? && c in objects ==> c in objects[data.value].links.children
      ensures out == old(out) && attached == old(attached)
      decreases |c|
    {
      WalkResult(objects, c);
      if c == [] {
        return None;
      }
      data := if Parent(c) in objects then Some(Parent(c)) else None;
      var parent := InvalidateParentData(Parent(c));
      if data.None? {
        data := parent;
        if data.None? {
          return;
        }
      }
      var d := data.value;
      objects := objects[d := objects[d].(cache := Empty)];
      if c !in objects || c in objects[d].links.children {
        return;
      }
      objects := objects[d := WithChildren(objects[d], [c] + objects[d].links.children)];
      objects := objects[c := WithParent(objects[c], Some(d))];
    }

    /** `object_path_ref`. */
    method ObjectPathRef(p: Path)
      modifies this
      ensures State() == PathRef(old(State()), p)
    {
      if p in objects {
        objects := objects[p := objects[p].(refcount := objects[p].refcount + 1)];
        return;
      }
      objects := objects[p := FRESH_NODE];
      var _ := InvalidateParentData(p);
      var _ := AddInterface(p, INTROSPECTABLE_DECL, map[]);
    }

    /** `generic_unregister`, run by the bus library when a path is unregistered. */
    method GenericUnregister(p: Path)
      requires p in objects
      modifies this
      ensures objects == Drop(old(objects), p) && out == old(out) && attached == old(attached)
    {
      var n := objects[p];
      var up := n.links.parent;
      if up.Some? && up.value in objects {
        objects := Unlink(objects, up.value, p);
      }
      ghost var base := objects;
      var children := n.links.children;
      var k := 0;
      assert base == Reparented(base, [], up);
      while k < |children|
        invariant k <= |children| && out == old(out) && attached == old(attached)
        invariant objects == Reparented(base, children[..k], up)
      {
        var c := children[k];
        ghost var before := objects;
        if c in objects {
          objects := objects[c := WithParent(objects[c], up)];
        }
        ReparentOne(base, children, k, up, before);
        k := k + 1;
      }
      assert children[..k] == children;
      objects := objects - {p};
    }

    /** `object_path_unref`. */
    method ObjectPathUnref(p: Path)
      modifies this
      ensures State() == PathUnref(old(State()), p)
    {
      if p !in objects {
        return;
      }
      objects := objects[p := objects[p].(refcount := objects[p].refcount - 1)];
      if objects[p].refcount > 0 {
        return;
      }
      var _ := RemoveInterface(p, INTROSPECTABLE);
      var _ := RemoveInterface(p, PROPERTIES);
      var _ := InvalidateParentData(p);
      GenericUnregister(p);
    }

    /** `g_dbus_register_interface`: accepted exactly for a new name with something visible; then the object is there,
        carries the interface and has one more reference, and otherwise the same objects are registered as before. */
    method RegisterInterface(p: Path, d: Decl, state: map<Name, Variant>) returns (ok: bool)
      requires Valid() && !Reserved(p, d.name)
      modifies this
      ensures Valid() && Outcome(State(), ok) == Register(old(State()), p, d, state)
      ensures ok <==> && ValidPath(p) && ValidInterface(d.name) && SomethingVisible(showExperimental, d)
                      && !(p in old(objects) && Has(old(objects)[p].ifaces, d.name))
      ensures ok ==> && objects.Keys == old(objects.Keys) + {p} && Has(objects[p].ifaces, d.name)
                     && objects[p].refcount == (if p in old(objects) then old(objects)[p].refcount else 0) + 1
      ensures ok ==> objects[p].ifaces == StartsFrom(old(objects), p) + [Iface(d, [], state)] + WithTable(StartsFrom(old(objects), p), d)
      ensures !ok ==> objects.Keys == old(objects.Keys)
      ensures ok && Exporting(old(State())) && Orderly(old(State()), RegisterCall(p, d, state)) ==>
                out == old(out) + RegisterMessages(old(State()), p, d, state)
    {
      if Exporting(State()) && Orderly(State(), RegisterCall(p, d, state)) { RegisterTells(State(), p, d, state); }
      RegisterResult(State(), p, d, state);
      RegisterIfaces(State(), p, d, state);
      GoodAfter(State(), RegisterCall(p, d, state));
      ok := RegisterParts(p, d, state);
    }

    method RegisterParts(p: Path, d: Decl, state: map<Name, Variant>) returns (ok: bool)
      modifies this
      ensures Outcome(State(), ok) == Register(old(State()), p, d, state)
    {
      if !ValidPath(p) || !ValidInterface(d.name) {
        return false;
      }
      ObjectPathRef(p);
      ok := RegisterOnObject(p, d, state);
    }

    /** The rest of `g_dbus_register_interface`, once the object is referenced. */
    method RegisterOnObject(p: Path, d: Decl, state: map<Name, Variant>) returns (ok: bool)
      requires p in objects
      modifies this
      ensures Outcome(State(), ok) == RegisterOn(old(State()), p, d, state)
    {
      var k := FindInterface(objects[p].ifaces, d.name);
      if k < |objects[p].ifaces| {
        ObjectPathUnref(p);
        return false;
      }
      ok := AddInterface(p, d, state);
      if !ok {
        ObjectPathUnref(p);
        return false;
      }
      if d.properties.Some? {
        k := FindInterface(objects[p].ifaces, PROPERTIES);
        if k == |objects[p].ifaces| {
          var _ := AddInterface(p, PROPERTIES_DECL, map[]);
        }
      }
      objects := objects[p := objects[p].(cache := Empty)];
    }

    /** `g_dbus_unregister_interface`: accepted exactly when the name is there; the object goes with the last reference. */
    method UnregisterInterface(p: Path, name: Name) returns (ok: bool)
      requires Valid() && !Reserved(p, name)
      modifies this
      ensures Valid() && Outcome(State(), ok) == Unregister(old(State()), p, name)
      ensures ok <==> p in old(objects) && Has(old(objects)[p].ifaces, name)
      ensures ok ==> if old(objects)[p].refcount == 1 then objects.Keys == old(objects.Keys) - {p}
                     else objects.Keys == old(objects.Keys) && !Has(objects[p].ifaces, name)
                          && objects[p].refcount == old(objects)[p].refcount - 1
      ensures !ok ==> State() == old(State())
      ensures ok && Exporting(old(State())) ==> out == old(out) + UnregisterMessages(old(State()), p, name)
    {
      if Exporting(State()) && p in objects && Has(objects[p].ifaces, name) { UnregisterTells(State(), p, name); }
      UnregisterResult(State(), p, name);
      GoodAfter(State(), UnregisterCall(p, name));
      ok := UnregisterParts(p, name);
    }

    method UnregisterParts(p: Path, name: Name) returns (ok: bool)
      modifies this
      ensures Outcome(State(), ok) == Unregister(old(State()), p, name)
    {
      if p !in objects {
        return false;
      }
      ok := RemoveInterface(p, name);
      if !ok {
        return false;
      }
      objects := objects[p := objects[p].(cache := Empty)];
      ObjectPathUnref(p);
    }

    /** `g_dbus_attach_object_manager`: "/" is there and carries the manager. */
    method AttachObjectManager()
      requires Valid() && !attached
      modifies this
      ensures Valid() && State() == Attach(old(State()))
      ensures attached && ROOT in objects && Has(objects[ROOT].ifaces, OBJECT_MANAGER)
    {
      AttachResult(State());
      GoodAfter(State(), AttachCall);
      AttachParts();
    }

    method AttachParts()
      modifies this
      ensures State() == Attach(old(State()))
    {
      ObjectPathRef(ROOT);
      var _ := AddInterface(ROOT, MANAGER_DECL, map[]);
      attached := true;
    }

    /** `find_property`. */
    method FindVisibleProperty(props: seq<Property>, name: Name) returns (found: Option<Property>)
      ensures found == FindProperty(showExperimental, props, name)
    {
      var k := 0;
      while k < |props|
        invariant k <= |props|
        invariant FindProperty(showExperimental, props, name) == FindProperty(showExperimental, props[k..], name)
      {
        assert props[k..][1..] == props[k + 1..];
        if props[k].name == name {
          if Hidden(showExperimental, props[k].experimental) {
            return None;
          }
          return Some(props[k]);
        }
        k := k + 1;
      }
      return None;
    }

    /** `g_dbus_emit_property_changed_full`. */
    method EmitPropertyChanged(p: Path, iface: Name, name: Name, flush: bool)
      modifies this
      ensures State() == EmitChanged(old(State()), p, iface, name, flush)
    {
      if p !in objects {
        return;
      }
      var k := FindInterface(objects[p].ifaces, iface);
      if k == |objects[p].ifaces| || (attached && iface in objects[p].added) {
        return;
      }
      var found := FindVisibleProperty(Properties(objects[p].ifaces[k].decl), name);
      if found.None? || found.value in objects[p].ifaces[k].pending {
        return;
      }
      objects := objects[p := Queued(objects[p], k, found.value)];
      if flush {
        ProcessPropertyChanges(p);
      } else {
        ProcessChanges(p);
      }
    }

    /** The application changes the value of a property and says so. Once everything is announced, one message tells the
        new value or that there is none, if the property can be found. */
    method ChangeProperty(p: Path, iface: Name, name: Name, value: Option<Variant>, flush: bool)
      requires Valid()
      modifies this
      ensures Valid() && State() == ObjectModel.ChangeProperty(old(State()), p, iface, name, value, flush)
      ensures Announced(old(State())) && p in old(objects) && Has(old(objects)[p].ifaces, iface) ==>
                old(out) <= out && TellsChange(old(State()), p, iface, name, value, out[|old(out)|..])
    {
      GoodAfter(State(), ChangeCall(p, iface, name, value, flush));
      ChangeResult(State(), p, iface, name, value, flush);
      ChangeParts(p, iface, name, value, flush);
    }

    method ChangeParts(p: Path, iface: Name, name: Name, value: Option<Variant>, flush: bool)
      modifies this
      ensures State() == ObjectModel.ChangeProperty(old(State()), p, iface, name, value, flush)
    {
      if p in objects {
        var k := FindInterface(objects[p].ifaces, iface);
        if k < |objects[p].ifaces| {
          objects := objects[p := WithState(objects[p], k, name, value)];
          EmitPropertyChanged(p, iface, name, flush);
        }
      }
    }

    /** `append_object`: the object and, after it, what its child list leads to. */
    method AppendObject(p: Path, listed: seq<ObjectEntry>) returns (r: seq<ObjectEntry>)
      requires p in objects
      ensures r == listed + Listed(State(), ListNode(objects, p))
      decreases |Deeper(objects, |p|)|, 1, 0
    {
      var entries := AppendInterfaces(objects[p].ifaces);
      ghost var rest := ListNodes(objects, |p|, objects[p].links.children);
      r := AppendObjects(|p|, objects[p].links.children, listed + [ObjectEntry(p, entries)]);
      ListedFirst(State(), p, rest);
      Reassociate(listed, [ObjectEntry(p, entries)], Listed(State(), rest));
    }

    /** `append_object` over a child list. */
    method AppendObjects(depth: nat, children: seq<Path>, listed: seq<ObjectEntry>) returns (r: seq<ObjectEntry>)
      ensures r == listed + Listed(State(), ListNodes(objects, depth, children))
      decreases |Deeper(objects, depth)|, 0, |children|
    {
      r := listed;
      var k := 0;
      while k < |children|
        invariant k <= |children|
        invariant r + Listed(State(), ListNodes(objects, depth, children[k..]))
               == listed + Listed(State(), ListNodes(objects, depth, children))
      {
        var c := children[k];
        ListedStep(State(), depth, children, k, r);
        if c in objects && depth < |c| {
          DeeperShrinks(objects, depth, c);
          r := AppendObject(c, r);
        }
        k := k + 1;
      }
      assert children[k..] == [];
      assert r + [] == r;
    }

    /** `get_objects`: in an orderly tree every registered path below "/", once, with all its interfaces. */
    method GetObjects() returns (reply: Message)
      requires ROOT in objects
      ensures reply == GetManagedObjects(State())
      ensures Tree(objects) ==> ExactListing(State(), reply.objects)
    {
      ListingResult(State());
      var l := AppendObjects(0, objects[ROOT].links.children, []);
      reply := ManagedObjects(l);
    }

    /** `introspect`, with `generate_introspection_xml` when nothing is cached: the answer describes the object as it is now
        and is what generating the text now gives, for "/" if its cached text was right. */
    method AnswerIntrospect(p: Path) returns (text: Cache)
      requires Valid() && p in objects
      modifies this
      ensures Valid() && State() == Introspect(old(State()), p)
      ensures p != [] || old(Coherent(objects, showExperimental, [])) ==>
                text == Text(Generate(old(objects), showExperimental, p)) && Describes(old(objects), showExperimental, p, text.doc)
      ensures objects == old(objects)[p := old(objects)[p].(cache := text)] && out == old(out)
    {
      IntrospectResult(State(), p);
      GenerateDescribes(objects, showExperimental, p);
      text := IntrospectParts(p);
    }

    method IntrospectParts(p: Path) returns (text: Cache)
      requires p in objects
      modifies this
      ensures State() == Introspect(old(State()), p) && text == objects[p].cache
      ensures objects == old(objects)[p := old(objects)[p].(cache := text)]
    {
      if objects[p].cache.Empty? {
        objects := objects[p := objects[p].(cache := Text(Generate(objects, showExperimental, p)))];
      }
      text := objects[p].cache;
    }
  }

  ghost predicate Good(s: Server) {
    Sound(s) && Upward(s.objects) && CoherentOff(s.objects, s.showExperimental, {[]})
  }

  lemma GoodAfter(s: Server, call: Call)
    requires Good(s) && Legal(s, call)
    ensures Good(Perform(s, call))
  {
    PerformSound(s, call);
    PerformUpward(s, call);
    PerformCoherent(s, call, {[]});
  }

  ghost predicate Cleared(objs: Table, r: Table, c: Path) {
    r.Keys == objs.Keys && forall q :: q in objs ==> r[q].cache == if q < c then Empty else objs[q].cache
  }

  lemma WalkResult(objs: Table, c: Path)
    ensures var r := Invalidate(objs, c);
            && r.data == Above(objs.Keys, c) && Cleared(objs, r.objects, c)
            && (r.data.Some? && c in objs ==> c in r.objects[r.data.value].links.children)
  {
    WalkFinds(objs, c);
    WalkClears(objs, c, Invalidate(objs, c).objects);
    WalkLinks(objs, c);
  }

  lemma WalkClears(objs: Table, c: Path, r: Table)
    requires r == Invalidate(objs, c).objects
    ensures Cleared(objs, r, c)
  {
    forall q | q in objs ensures r[q].cache == if q < c then Empty else objs[q].cache {
      InvalidateClears(objs, c, q);
    }
  }

  lemma WalkLinks(objs: Table, c: Path)
    ensures var r := Invalidate(objs, c); r.data.Some? && c in objs ==> c in r.objects[r.data.value].links.children
  {
    if c != [] {
      var r := Invalidate(objs, c);
      if r.data.Some? && c in objs { LinkHas(Invalidate(objs, Parent(c)).objects, r.data.value, c); }
    }
  }

  lemma LinkHas(objs: Table, d: Path, c: Path)
    requires d in objs && c in objs && |d| < |c|
    ensures c in Link(objs, d, c)[d].links.children
  {
  }

  lemma RegisterResult(s: Server, p: Path, d: Decl, state: map<Name, Variant>)
    requires Sound(s) && !Reserved(p, d.name)
    ensures var r := Register(s, p, d, state);
            && (r.ok <==> && ValidPath(p) && ValidInterface(d.name) && SomethingVisible(s.showExperimental, d)
                          && !(p in s.objects && Has(s.objects[p].ifaces, d.name)))
            && (r.ok ==> && r.server.objects.Keys == s.objects.Keys + {p} && Has(r.server.objects[p].ifaces, d.name)
                         && r.server.objects[p].refcount == (if p in s.objects then s.objects[p].refcount else 0) + 1)
            && (!r.ok ==> r.server.objects.Keys == s.objects.Keys)
  {
    assert p in s.objects ==> Counted(s.objects[p]);
    RegisterHasEffect(s, p, d, state);
    if p !in s.objects { FreshRefCore(s, p); }
    RegisteredAs(s, p, d, state, Register(s, p, d, state));
  }

  /** The interfaces an object starts from: those it has, or just Introspectable. */
  function StartsFrom(objs: Table, p: Path): seq<Iface> {
    if p in objs then objs[p].ifaces else [Iface(INTROSPECTABLE_DECL, [], map[])]
  }

  /** The first property table brings the Properties interface. */
  function WithTable(ifaces: seq<Iface>, d: Decl): seq<Iface> {
    if d.properties.Some? && !Has(ifaces, PROPERTIES) then [Iface(PROPERTIES_DECL, [], map[])] else []
  }

  lemma RegisterIfaces(s: Server, p: Path, d: Decl, state: map<Name, Variant>)
    requires Sound(s) && !Reserved(p, d.name)
    ensures var r := Register(s, p, d, state); var ifaces := StartsFrom(s.objects, p);
            r.ok ==> p in r.server.objects && r.server.objects[p].ifaces == ifaces + [Iface(d, [], state)] + WithTable(ifaces, d)
  {
    assert p in s.objects ==> Counted(s.objects[p]);
    RegisterHasEffect(s, p, d, state);
    if p !in s.objects { FreshRefCore(s, p); }
    if Register(s, p, d, state).ok { IfacesAfter(s, p, d, state, Register(s, p, d, state)); }
  }

  lemma IfacesAfter(s: Server, p: Path, d: Decl, state: map<Name, Variant>, r: Outcome)
    requires RegisterEffect(s, p, d, state, r) && !Builtin(d.name) && r.ok
    requires p !in s.objects ==> FreshNode(s.objects, p).ifaces == [Iface(INTROSPECTABLE_DECL, [], map[])]
    ensures p in r.server.objects
    ensures var ifaces := StartsFrom(s.objects, p); r.server.objects[p].ifaces == ifaces + [Iface(d, [], state)] + WithTable(ifaces, d)
  {
    var ifaces := StartsFrom(s.objects, p);
    HasAppended(ifaces, Iface(d, [], state), PROPERTIES);
    if p in s.objects {
      var n := s.objects[p];
      assert SameCore(s.objects[p := Accepted(n.(refcount := n.refcount + 1), d, state)][p], r.server.objects[p]);
    } else {
      assert SameCore(Inserted(s.objects, p)[p := Accepted(FreshNode(s.objects, p), d, state)][p], r.server.objects[p]);
    }
  }

  lemma RegisteredAs(s: Server, p: Path, d: Decl, state: map<Name, Variant>, r: Outcome)
    requires RegisterEffect(s, p, d, state, r) && !Reserved(p, d.name)
    requires p !in s.objects ==> && FreshNode(s.objects, p).refcount == 1
                                 && FreshNode(s.objects, p).ifaces == [Iface(INTROSPECTABLE_DECL, [], map[])]
    ensures r.ok <==> && ValidPath(p) && ValidInterface(d.name) && SomethingVisible(s.showExperimental, d)
                      && !(p in s.objects && Has(s.objects[p].ifaces, d.name))
    ensures r.ok ==> && r.server.objects.Keys == s.objects.Keys + {p} && Has(r.server.objects[p].ifaces, d.name)
                     && r.server.objects[p].refcount == (if p in s.objects then s.objects[p].refcount else 0) + 1
    ensures !r.ok ==> r.server.objects.Keys == s.objects.Keys
  {
    if ValidPath(p) && ValidInterface(d.name) {
      var n := if p in s.objects then s.objects[p].(refcount := s.objects[p].refcount + 1) else FreshNode(s.objects, p);
      var m := Accepted(n, d, state);
      assert m.ifaces[|n.ifaces|].decl.name == d.name;
      if p in s.objects {
        if r.ok { assert SameCore(s.objects[p := m][p], r.server.objects[p]); }
      } else {
        assert n.ifaces[0].decl.name == INTROSPECTABLE;
        if r.ok { assert SameCore(Inserted(s.objects, p)[p := m][p], r.server.objects[p]); }
      }
    }
  }

  lemma UnregisterResult(s: Server, p: Path, name: Name)
    requires Sound(s) && !Reserved(p, name)
    ensures var r := Unregister(s, p, name);
            && (r.ok <==> p in s.objects && Has(s.objects[p].ifaces, name))
            && (r.ok ==> if s.objects[p].refcount == 1 then r.server.objects.Keys == s.objects.Keys - {p}
                         else r.server.objects.Keys == s.objects.Keys && !Has(r.server.objects[p].ifaces, name)
                              && r.server.objects[p].refcount == s.objects[p].refcount - 1)
            && (!r.ok ==> r.server == s)
  {
    assert p in s.objects ==> Counted(s.objects[p]);
    UnregisterHasEffect(s, p, name);
    UnregisteredAs(s, p, name, Unregister(s, p, name));
  }

  lemma UnregisteredAs(s: Server, p: Path, name: Name, r: Outcome)
    requires UnregisterEffect(s, p, name, r) && (p in s.objects ==> UniqueNames(s.objects[p].ifaces) && s.objects[p].refcount >= 1)
    ensures r.ok <==> p in s.objects && Has(s.objects[p].ifaces, name)
    ensures r.ok ==> if s.objects[p].refcount == 1 then r.server.objects.Keys == s.objects.Keys - {p}
                     else r.server.objects.Keys == s.objects.Keys && !Has(r.server.objects[p].ifaces, name)
                          && r.server.objects[p].refcount == s.objects[p].refcount - 1
    ensures !r.ok ==> r.server == s
  {
    if r.ok && s.objects[p].refcount > 1 {
      var n := s.objects[p];
      assert SameCore(s.objects[p := Released(n, name)][p], r.server.objects[p]);
      HasWithout(n.ifaces, Find(n.ifaces, name), name);
    }
  }

  lemma AttachResult(s: Server)
    requires Sound(s) && !s.attached
    ensures Attach(s).attached && ROOT in Attach(s).objects && Has(Attach(s).objects[ROOT].ifaces, OBJECT_MANAGER)
  {
    AttachSound(s);
    AttachHasEffect(s);
  }

  lemma IntrospectResult(s: Server, p: Path)
    requires Good(s) && p in s.objects
    ensures Good(Introspect(s, p))
    ensures p != [] || Coherent(s.objects, s.showExperimental, []) ==>
              Introspect(s, p).objects[p].cache == Text(Generate(s.objects, s.showExperimental, p))
  {
    GoodAfter(s, IntrospectCall(p));
    TextAnswered(s.objects, s.showExperimental, p);
    if Coherent(s.objects, s.showExperimental, p) { IntrospectAnswers(s, p); }
  }

  lemma TextAnswered(objs: Table, show: bool, p: Path)
    requires CoherentOff(objs, show, {[]}) && p in objs
    ensures p != [] ==> Coherent(objs, show, p)
  {
  }

  /** The first entry of that name in the table of the interface, if it can be seen. */
  ghost predicate Finds(s: Server, p: Path, iface: Name, name: Name, prop: Property)
    requires p in s.objects && Has(s.objects[p].ifaces, iface)
  {
    var i := s.objects[p].ifaces[Find(s.objects[p].ifaces, iface)];
    FirstEntry(Properties(i.decl), name, prop) && (s.showExperimental || !prop.experimental)
  }

  /** What is sent about a change when nothing else is owed: one message with the new value, or with the name if there is none,
      and with neither if it cannot be read; and nothing for a property that is not found. */
  ghost predicate TellsChange(s: Server, p: Path, iface: Name, name: Name, value: Option<Variant>, sent: seq<Message>)
    requires p in s.objects && Has(s.objects[p].ifaces, iface)
  {
    && (forall prop :: Finds(s, p, iface, name, prop) ==>
          sent == [PropertiesChanged(p, iface, if prop.readable && value.Some? then [Entry(name, value.value)] else [],
                                     if prop.readable && value.None? then [name] else [])])
    && ((forall prop :: !Finds(s, p, iface, name, prop)) ==> sent == [])
  }

  lemma MessageOf(p: Path, i: Iface, prop: Property, name: Name, value: Option<Variant>)
    requires prop.name == name
    ensures PropertyMessage(p, i.(state := SetState(i.state, name, value)), prop)
            == PropertiesChanged(p, i.decl.name, if prop.readable && value.Some? then [Entry(name, value.value)] else [],
                                 if prop.readable && value.None? then [name] else [])
  {
    var ps, state := [prop], SetState(i.state, name, value);
    assert ps[1..] == [];
    assert ChangedEntries(ps[1..], state) == [] && GoneNames(ps[1..], state) == [];
    assert ChangedEntries(ps, state) == if prop.readable && value.Some? then [Entry(name, value.value)] else [];
    assert GoneNames(ps, state) == if prop.readable && value.None? then [name] else [];
  }

  lemma ChangeResult(s: Server, p: Path, iface: Name, name: Name, value: Option<Variant>, flush: bool)
    requires Sound(s)
    ensures Announced(s) && p in s.objects && Has(s.objects[p].ifaces, iface) ==>
              var out := ObjectModel.ChangeProperty(s, p, iface, name, value, flush).out;
              s.out <= out && TellsChange(s, p, iface, name, value, out[|s.out|..])
  {
    if Announced(s) && p in s.objects && Has(s.objects[p].ifaces, iface) {
      var n := s.objects[p];
      assert Counted(n) && Quiet(n) && Paid(n);
      var f := Find(n.ifaces, iface);
      var m := WithState(n, f, name, value);
      assert Quiet(m) && Paid(m);
      SameNamesSameFinds(n.ifaces, m.ifaces, iface);
      ChangeExact(s.(objects := s.objects[p := m]), p, iface, name, flush);
      ChangeTold(s, p, iface, name, value, ObjectModel.ChangeProperty(s, p, iface, name, value, flush).out);
    }
  }

  lemma ChangeTold(s: Server, p: Path, iface: Name, name: Name, value: Option<Variant>, out: seq<Message>)
    requires p in s.objects && Has(s.objects[p].ifaces, iface)
    requires var i := s.objects[p].ifaces[Find(s.objects[p].ifaces, iface)];
             var found := FindProperty(s.showExperimental, Properties(i.decl), name);
             out == if found.None? then s.out
                    else s.out + [PropertyMessage(p, i.(state := SetState(i.state, name, value)), found.value)]
    ensures s.out <= out && TellsChange(s, p, iface, name, value, out[|s.out|..])
  {
    var i := s.objects[p].ifaces[Find(s.objects[p].ifaces, iface)];
    var found := FindProperty(s.showExperimental, Properties(i.decl), name);
    forall prop ensures Finds(s, p, iface, name, prop) <==> found == Some(prop) {
      FindsFirst(s.showExperimental, Properties(i.decl), name, prop);
    }
    if found.Some? {
      assert Finds(s, p, iface, name, found.value);
      MessageOf(p, i, found.value, name, value);
    }
  }

  /** What the listing says of each path in turn. */
  ghost function Listed(s: Server, paths: seq<Path>): (r: seq<ObjectEntry>)
    ensures |r| == |paths|
  {
    seq(|paths|, i requires 0 <= i < |paths| =>
      ObjectEntry(paths[i], if paths[i] in s.objects then IfaceEntries(s.showExperimental, s.objects[paths[i]].ifaces) else []))
  }

  lemma ListedConcat(s: Server, a: seq<Path>, b: seq<Path>)
    ensures Listed(s, a + b) == Listed(s, a) + Listed(s, b)
  {
  }

  lemma ListingResult(s: Server)
    requires ROOT in s.objects
    ensures GetManagedObjects(s) == ManagedObjects([] + Listed(s, ListNodes(s.objects, 0, s.objects[ROOT].links.children)))
    ensures Tree(s.objects) ==> ExactListing(s, GetManagedObjects(s).objects)
  {
    if Tree(s.objects) { ListingIsExact(s); }
    ListedAreRegistered(s.objects, 0, s.objects[ROOT].links.children);
    ListedIsEntries(s, ListNodes(s.objects, 0, s.objects[ROOT].links.children));
    Reassociate([], Listed(s, ListNodes(s.objects, 0, s.objects[ROOT].links.children)), []);
    NothingBefore(Listed(s, ListNodes(s.objects, 0, s.objects[ROOT].links.children)));
  }

  lemma NothingBefore<T>(a: seq<T>)
    ensures [] + a == a
  {
  }

  lemma ListedFirst(s: Server, p: Path, rest: seq<Path>)
    requires p in s.objects
    ensures Listed(s, [p] + rest)
            == [ObjectEntry(p, IfaceEntries(s.showExperimental, s.objects[p].ifaces))] + Listed(s, rest)
  {
    ListedConcat(s, [p], rest);
    assert Listed(s, [p]) == [ObjectEntry(p, IfaceEntries(s.showExperimental, s.objects[p].ifaces))];
  }

  lemma ListedIsEntries(s: Server, paths: seq<Path>)
    requires forall i :: 0 <= i < |paths| ==> paths[i] in s.objects
    ensures Listed(s, paths) == ObjectEntries(s, paths)
  {
  }

  lemma ReparentOne(base: Table, children: seq<Path>, k: nat, up: Option<Path>, before: Table)
    requires k < |children| && before == Reparented(base, children[..k], up)
    ensures (if children[k] in before then before[children[k] := WithParent(before[children[k]], up)] else before)
            == Reparented(base, children[..k + 1], up)
  {
    assert children[..k + 1] == children[..k] + [children[k]];
  }

  /** The queues of the first `k` interfaces have been sent. */
  ghost function PartlyQuieted(ifaces: seq<Iface>, k: nat): (r: seq<Iface>)
    requires k <= |ifaces|
    ensures |r| == |ifaces|
  {
    Quieted(ifaces)[..k] + ifaces[k..]
  }

  ghost function PartlyFlushed(n: Node, k: nat): Node
    requires k <= |n.ifaces|
  {
    n.(pendingProp := false, ifaces := PartlyQuieted(n.ifaces, k))
  }

  lemma Reassociate<T>(a: seq<T>, b: seq<T>, c: seq<T>)
    ensures (a + b) + c == a + (b + c) && a + [] == a
  {
  }

  // One pass of each loop: what is still to come is the next part and the rest.

  lemma UnpublishedStep(ifaces: seq<Iface>, added: seq<Name>, k: nat, done: seq<Iface>)
    requires k < |added|
    ensures var f := Find(ifaces, added[k]); var next := if f < |ifaces| then done + [ifaces[f]] else done;
            done + Unpublished(ifaces, added[k..]) == next + Unpublished(ifaces, added[k + 1..])
  {
    var f := Find(ifaces, added[k]);
    assert added[k..][1..] == added[k + 1..];
    Reassociate(done, if f < |ifaces| then [ifaces[f]] else [], Unpublished(ifaces, added[k + 1..]));
  }

  lemma EntriesStep(show: bool, props: seq<Property>, state: map<Name, Variant>, k: nat, done: seq<Entry>)
    requires k < |props|
    ensures var p := props[k];
            done + Entries(show, props[k..], state)
            == (if !Hidden(show, p.experimental) && p.readable && p.name in state then done + [Entry(p.name, state[p.name])] else done)
               + Entries(show, props[k + 1..], state)
  {
    var p := props[k];
    assert props[k..][1..] == props[k + 1..];
    Reassociate(done, if !Hidden(show, p.experimental) && p.readable && p.name in state then [Entry(p.name, state[p.name])] else [],
                Entries(show, props[k + 1..], state));
  }

  lemma ListedStep(s: Server, depth: nat, children: seq<Path>, k: nat, done: seq<ObjectEntry>)
    requires k < |children|
    ensures var c := children[k];
            done + Listed(s, ListNodes(s.objects, depth, children[k..]))
            == (if c in s.objects && depth < |c| then done + Listed(s, ListNode(s.objects, c)) else done)
               + Listed(s, ListNodes(s.objects, depth, children[k + 1..]))
  {
    var c := children[k];
    var head := if c in s.objects && depth < |c| then ListNode(s.objects, c) else [];
    assert children[k..][1..] == children[k + 1..];
    assert Listed(s, []) == [];
    ListedConcat(s, head, ListNodes(s.objects, depth, children[k + 1..]));
    Reassociate(done, Listed(s, head), Listed(s, ListNodes(s.objects, depth, children[k + 1..])));
  }

  lemma ChangedStep(order: seq<Property>, state: map<Name, Variant>, j: nat, done: seq<Entry>)
    requires j < |order|
    ensures var q := order[j];
            done + ChangedEntries(order[j..], state)
            == (if q.readable && q.name in state then done + [Entry(q.name, state[q.name])] else done) + ChangedEntries(order[j + 1..], state)
  {
    var q := order[j];
    assert order[j..][1..] == order[j + 1..];
    Reassociate(done, if q.readable && q.name in state then [Entry(q.name, state[q.name])] else [], ChangedEntries(order[j + 1..], state));
  }

  lemma GoneStep(order: seq<Property>, state: map<Name, Variant>, j: nat, lost: seq<Name>)
    requires j < |order|
    ensures var q := order[j];
            GoneNames(Reverse(order[j..]), state) + lost
            == GoneNames(Reverse(order[j + 1..]), state) + if q.readable && q.name !in state then [q.name] + lost else lost
  {
    var q := order[j];
    assert order[j..][1..] == order[j + 1..];
    GoneAppend(Reverse(order[j + 1..]), q, state);
    Reassociate(GoneNames(Reverse(order[j + 1..]), state), if q.readable && q.name !in state then [q.name] else [], lost);
    Reassociate(GoneNames(Reverse(order[j + 1..]), state), [], lost);
  }

  lemma QuietOneMore(p: Path, ifaces: seq<Iface>, k: nat)
    requires k < |ifaces|
    ensures PartlyQuieted(ifaces, k)[k] == ifaces[k]
    ensures PartlyQuieted(ifaces, k)[k := ifaces[k].(pending := [])] == PartlyQuieted(ifaces, k + 1)
    ensures ChangeMessages(p, ifaces[k..]) == ChangeMessage(p, ifaces[k]) + ChangeMessages(p, ifaces[k + 1..])
  {
    assert ifaces[k..][1..] == ifaces[k + 1..];
  }

  lemma {:induction false} ReverseAppend<T>(xs: seq<T>, x: T)
    ensures Reverse(xs + [x]) == [x] + Reverse(xs)
  {
    if xs == [] {
      assert xs + [x] == [x];
      var one := [x];
      assert one[1..] == [];
    } else {
      assert (xs + [x])[1..] == xs[1..] + [x];
      ReverseAppend(xs[1..], x);
    }
  }

  lemma {:induction false} ReverseReverse<T>(xs: seq<T>)
    ensures Reverse(Reverse(xs)) == xs
  {
    if xs != [] {
      ReverseReverse(xs[1..]);
      ReverseAppend(Reverse(xs[1..]), xs[0]);
    }
  }

  lemma {:induction false} GoneAppend(props: seq<Property>, q: Property, state: map<Name, Variant>)
    ensures GoneNames(props + [q], state)
            == GoneNames(props, state) + if q.readable && q.name !in state then [q.name] else []
  {
    if props == [] {
      assert props + [q] == [q];
      var one := [q];
      assert one[1..] == [];
    } else {
      assert (props + [q])[1..] == props[1..] + [q];
      GoneAppend(props[1..], q, state);
    }
  }
}
