/** What is sent, in which order and in any state of the server: by one round of sending what an object owes, by adding and
    removing an interface, by announcing a change, and in a server that has announced everything by each public call.
 */
module Sending {
  import opened Bus
  import opened ObjectModel
  import opened ObjectCore
  import opened ObjectLifetime
  import opened ObjectTree
  import opened Exports
  import opened Publication
  import opened Refusal
  import opened Description
  import opened Picking

  // ---------------------------------------------------------------------
  // The lists in a message

  /** The names with values are those of the entries that can be seen and read and exist, in table order. */
  ghost predicate TellsValues(show: bool, props: seq<Property>, state: map<Name, Variant>, entries: seq<Entry>) {
    && ListsExactly(EntryNames(entries), PropertyNames(props), Told(show, props, state))
    && forall j :: 0 <= j < |entries| ==> entries[j].name in state && entries[j].value == state[entries[j].name]
  }

  ghost function EntryNames(entries: seq<Entry>): seq<Name> {
    seq(|entries|, j requires 0 <= j < |entries| => entries[j].name)
  }

  ghost function Told(show: bool, props: seq<Property>, state: map<Name, Variant>): seq<bool> {
    seq(|props|, i requires 0 <= i < |props| => (show || !props[i].experimental) && props[i].readable && props[i].name in state)
  }

  lemma {:induction false} EntriesTell(show: bool, props: seq<Property>, state: map<Name, Variant>)
    ensures TellsValues(show, props, state, Entries(show, props, state))
  {
    if props == [] {
      NothingListed<Name>();
      assert EntryNames([]) == [] && PropertyNames([]) == [] && Told(show, [], state) == [];
    } else {
      EntriesTell(show, props[1..], state);
      FirstTold(show, props, state, Told(show, props, state));
      TellsMore(props, Told(show, props, state), Entries(show, props[1..], state), Entries(show, props, state));
    }
  }

  lemma {:induction false} FirstTold(show: bool, props: seq<Property>, state: map<Name, Variant>, told: seq<bool>)
    requires props != [] && told == Told(show, props, state)
    ensures told[1..] == Told(show, props[1..], state) && (told[0] ==> props[0].name in state)
    ensures Entries(show, props, state)
            == (if told[0] then [Entry(props[0].name, state[props[0].name])] else []) + Entries(show, props[1..], state)
  {
  }

  /** One more entry in front of a table. */
  lemma TellsMore(props: seq<Property>, told: seq<bool>, rest: seq<Entry>, entries: seq<Entry>)
    requires props != [] && |told| == |props| && ListsExactly(EntryNames(rest), PropertyNames(props[1..]), told[1..])
    requires told[0] ==> entries != [] && entries[0].name == props[0].name && entries[1..] == rest
    requires !told[0] ==> entries == rest
    ensures ListsExactly(EntryNames(entries), PropertyNames(props), told)
  {
    ListsMore(EntryNames(rest), PropertyNames(props[1..]), told[1..], props[0].name, told[0]);
    assert EntryNames(entries) == (if told[0] then [props[0].name] else []) + EntryNames(rest);
    assert [props[0].name] + PropertyNames(props[1..]) == PropertyNames(props) && [told[0]] + told[1..] == told;
  }

  ghost function Existing(props: seq<Property>, state: map<Name, Variant>): seq<bool> {
    seq(|props|, i requires 0 <= i < |props| => props[i].readable && props[i].name in state)
  }

  ghost function Missing(props: seq<Property>, state: map<Name, Variant>): seq<bool> {
    seq(|props|, i requires 0 <= i < |props| => props[i].readable && props[i].name !in state)
  }

  ghost function Backwards(props: seq<Property>): seq<Property> {
    seq(|props|, i requires 0 <= i < |props| => props[|props| - 1 - i])
  }

  /** A queue of changes, the newest first, becomes a message: the values of the properties that can be read and exist, the
      oldest change first, and the names of those that can be read and do not exist, the newest first. */
  ghost predicate TellsQueue(queue: seq<Property>, state: map<Name, Variant>, changed: seq<Entry>, gone: seq<Name>) {
    && ListsExactly(EntryNames(changed), PropertyNames(Backwards(queue)), Existing(Backwards(queue), state))
    && (forall j :: 0 <= j < |changed| ==> changed[j].name in state && changed[j].value == state[changed[j].name])
    && ListsExactly(gone, PropertyNames(queue), Missing(queue, state))
  }

  lemma {:induction false} ChangedTell(props: seq<Property>, state: map<Name, Variant>)
    ensures var changed := ChangedEntries(props, state);
            && ListsExactly(EntryNames(changed), PropertyNames(props), Existing(props, state))
            && forall j :: 0 <= j < |changed| ==> changed[j].name in state && changed[j].value == state[changed[j].name]
  {
    if props == [] {
      NothingListed<Name>();
      assert EntryNames([]) == [] && PropertyNames(props) == [] && Existing(props, state) == [];
    } else {
      ChangedTell(props[1..], state);
      assert Existing(props, state)[1..] == Existing(props[1..], state);
      TellsMore(props, Existing(props, state), ChangedEntries(props[1..], state), ChangedEntries(props, state));
    }
  }

  lemma {:induction false} GoneTell(props: seq<Property>, state: map<Name, Variant>)
    ensures ListsExactly(GoneNames(props, state), PropertyNames(props), Missing(props, state))
  {
    if props == [] {
      NothingListed<Name>();
      assert PropertyNames(props) == [] && Missing(props, state) == [];
    } else {
      var dead := props[0].readable && props[0].name !in state;
      GoneTell(props[1..], state);
      ListsMore(GoneNames(props[1..], state), PropertyNames(props[1..]), Missing(props[1..], state), props[0].name, dead);
      assert [props[0].name] + PropertyNames(props[1..]) == PropertyNames(props);
      assert [dead] + Missing(props[1..], state) == Missing(props, state);
    }
  }

  lemma {:induction false} ReverseIsBackwards(props: seq<Property>)
    ensures Reverse(props) == Backwards(props)
  {
    if props != [] {
      ReverseIsBackwards(props[1..]);
      assert Backwards(props) == Backwards(props[1..]) + [props[0]];
    }
  }

  /** What is sent about an interface with a queue. */
  lemma QueueTells(p: Path, i: Iface)
    ensures i.pending == [] ==> ChangeMessage(p, i) == []
    ensures i.pending != [] ==>
              && |ChangeMessage(p, i)| == 1 && ChangeMessage(p, i)[0].PropertiesChanged?
              && ChangeMessage(p, i)[0].path == p && ChangeMessage(p, i)[0].iface == i.decl.name
              && TellsQueue(i.pending, i.state, ChangeMessage(p, i)[0].changed, ChangeMessage(p, i)[0].invalidated)
  {
    ReverseIsBackwards(i.pending);
    ChangedTell(Backwards(i.pending), i.state);
    GoneTell(i.pending, i.state);
  }

  /** The interfaces named by a list are told in its order, each once. */
  lemma {:induction false} UnpublishedInOrder(ifaces: seq<Iface>, added: seq<Name>)
    requires forall i :: 0 <= i < |added| ==> Has(ifaces, added[i])
    ensures |Unpublished(ifaces, added)| == |added|
    ensures forall i :: 0 <= i < |added| ==> Unpublished(ifaces, added)[i] in ifaces && Unpublished(ifaces, added)[i].decl.name == added[i]
  {
    if added != [] {
      var f := Find(ifaces, added[0]);
      assert ifaces[f] in ifaces;
      forall i | 0 <= i < |added[1..]| ensures Has(ifaces, added[1..][i]) { assert added[1..][i] == added[i + 1]; }
      UnpublishedInOrder(ifaces, added[1..]);
    }
  }

  // ---------------------------------------------------------------------
  // One round of sending

  /** The object is told of: the manager is attached, and it is not "/". */
  predicate Speaks(s: Server, p: Path) {
    s.attached && p != []
  }

  ghost function OwedOf(s: Server, p: Path): seq<Message>
    requires p in s.objects
  {
    if Speaks(s, p) && s.objects[p].added != [] then OwedUp(s.objects, s.showExperimental, p) else []
  }

  ghost function ChangesOf(s: Server, p: Path): seq<Message>
    requires p in s.objects
  {
    if s.objects[p].pendingProp then ChangeMessages(p, s.objects[p].ifaces) else []
  }

  ghost function WithdrawnOf(s: Server, p: Path): seq<Message>
    requires p in s.objects
  {
    if Speaks(s, p) && s.objects[p].removed != [] then [InterfacesRemoved(p, s.objects[p].removed)] else []
  }

  /** The object when what it owes has been sent. */
  ghost function AfterSending(s: Server, p: Path): Node
    requires p in s.objects
  {
    var n := s.objects[p];
    n.(added := if Speaks(s, p) then [] else n.added, removed := if Speaks(s, p) then [] else n.removed,
       pendingProp := false, ifaces := if n.pendingProp then Quieted(n.ifaces) else n.ifaces)
  }

  /** First the announcements, those above the object before its own, then the changes, then what was withdrawn. */
  ghost predicate Sends(s: Server, p: Path, r: Server)
    requires p in s.objects
  {
    && r.out == s.out + OwedOf(s, p) + ChangesOf(s, p) + WithdrawnOf(s, p)
    && r.objects.Keys == s.objects.Keys && SameFlags(s, r) && r.objects[p] == AfterSending(s, p)
    && forall q :: q in s.objects && q != p ==>
         var up := Speaks(s, p) && s.objects[p].added != [] && q in Chain(s.objects, p);
         r.objects[q] == s.objects[q].(added := if up then [] else s.objects[q].added)
  }

  lemma AddedSends(s: Server, p: Path)
    requires p in s.objects
    ensures var r := SendAdded(s, p); var up := Speaks(s, p) && s.objects[p].added != [];
            && r.out == s.out + OwedOf(s, p) && SameFlags(s, r)
            && r.objects == if up then Unowed(s.objects, Chain(s.objects, p)) else s.objects
  {
    if Speaks(s, p) && s.objects[p].added != [] { EmitUp(s, p); } else { assert s.out + [] == s.out; }
  }

  lemma RestSends(s: Server, m: Server, p: Path, r: Server)
    requires p in s.objects && p in m.objects && SameFlags(s, m) && m.out == s.out + OwedOf(s, p)
    requires m.objects[p] == s.objects[p].(added := m.objects[p].added) && r == SendRemoved(SendChanges(m, p), p)
    ensures r.out == s.out + OwedOf(s, p) + ChangesOf(s, p) + WithdrawnOf(s, p) && SameFlags(s, r)
    ensures r.objects == m.objects[p := AfterSending(s, p).(added := m.objects[p].added)]
  {
    var c := SendChanges(m, p);
    assert c.out == m.out + ChangesOf(s, p);
    assert c.objects == m.objects[p := c.objects[p]];
    assert r.out == c.out + WithdrawnOf(s, p);
  }

  /** One round of sending, in any state. */
  lemma ProcessSends(s: Server, p: Path)
    requires p in s.objects
    ensures Sends(s, p, ProcessChanges(s, p))
  {
    AddedSends(s, p);
    RestSends(s, SendAdded(s, p), p, ProcessChanges(s, p));
  }

  // ---------------------------------------------------------------------
  // Interfaces and changes

  /** Adding an interface: refused if nothing of it can be seen; on an object without a parent nothing is sent; otherwise it
      is owed and a round follows. */
  lemma AddSends(s: Server, p: Path, d: Decl, state: map<Name, Variant>)
    requires p in s.objects
    ensures var r := AddInterface(s, p, d, state); var n := s.objects[p]; var m := n.(ifaces := n.ifaces + [Iface(d, [], state)]);
            && (r.ok <==> SomethingVisible(s.showExperimental, d)) && (!r.ok ==> r.server == s)
            && (r.ok && n.links.parent.None? ==> r.server == s.(objects := s.objects[p := m]))
            && (r.ok && n.links.parent.Some? ==> Sends(s.(objects := s.objects[p := m.(added := m.added + [d.name])]), p, r.server))
  {
    var n := s.objects[p];
    var m := n.(ifaces := n.ifaces + [Iface(d, [], state)]);
    ProcessSends(s.(objects := s.objects[p := m.(added := m.added + [d.name])]), p);
  }

  /** Removing an interface: its queue goes first; one that was not announced yet is just no longer owed, and of an object
      without a parent nothing is sent; otherwise it is to be withdrawn, in front of what is so already, and a round follows. */
  lemma RemoveSends(s: Server, p: Path, name: Name)
    requires p in s.objects && Has(s.objects[p].ifaces, name)
    ensures var n := s.objects[p]; var k := Find(n.ifaces, name); var m := n.(ifaces := Without(n.ifaces, k));
            var r := RemoveInterface(s, p, name); var out := s.out + ChangeMessage(p, n.ifaces[k]);
            && r.ok
            && (name in n.added ==> r.server == s.(objects := s.objects[p := m.(added := RemoveFirst(n.added, name))], out := out))
            && (name !in n.added && n.links.parent.None? ==> r.server == s.(objects := s.objects[p := m], out := out))
            && (name !in n.added && n.links.parent.Some? ==>
                  Sends(s.(objects := s.objects[p := m.(removed := [name] + n.removed)], out := out), p, r.server))
  {
    var n := s.objects[p];
    var m := n.(ifaces := Without(n.ifaces, Find(n.ifaces, name)));
    var s1 := s.(out := s.out + ChangeMessage(p, n.ifaces[Find(n.ifaces, name)]));
    ProcessSends(s1.(objects := s1.objects[p := m.(removed := [name] + n.removed)]), p);
  }

  /** The change is announced at all: the object has the interface, which is not still owed, and the first entry of that name
      can be seen and is not queued already. */
  ghost predicate Speakable(s: Server, p: Path, iface: Name, name: Name, k: nat, prop: Property) {
    && p in s.objects && k < |s.objects[p].ifaces| && s.objects[p].ifaces[k].decl.name == iface
    && (forall j :: 0 <= j < k ==> s.objects[p].ifaces[j].decl.name != iface)
    && !(s.attached && iface in s.objects[p].added) && prop !in s.objects[p].ifaces[k].pending
    && FirstEntry(Properties(s.objects[p].ifaces[k].decl), name, prop) && (s.showExperimental || !prop.experimental)
  }

  ghost predicate FirstEntry(props: seq<Property>, name: Name, prop: Property) {
    exists i :: 0 <= i < |props| && props[i] == prop && prop.name == name && forall j :: 0 <= j < i ==> props[j].name != name
  }

  lemma {:induction false} FindsFirst(show: bool, props: seq<Property>, name: Name, prop: Property)
    ensures FindProperty(show, props, name) == Some(prop) <==> FirstEntry(props, name, prop) && (show || !prop.experimental)
  {
    if props != [] {
      FindsFirst(show, props[1..], name, prop);
      FirstOfRest(props, name, prop);
    }
  }

  lemma FirstOfRest(props: seq<Property>, name: Name, prop: Property)
    requires props != []
    ensures FirstEntry(props, name, prop) <==> if props[0].name == name then prop == props[0] else FirstEntry(props[1..], name, prop)
  {
    if i :| 0 <= i < |props| && props[i] == prop && prop.name == name && forall j :: 0 <= j < i ==> props[j].name != name {
      if i > 0 {
        assert props[1..][i - 1] == prop;
        assert forall j :: 0 <= j < i - 1 ==> props[1..][j] == props[j + 1];
      }
    }
    if props[0].name != name {
      if i :| 0 <= i < |props[1..]| && props[1..][i] == prop && prop.name == name && forall j :: 0 <= j < i ==> props[1..][j].name != name {
        assert props[i + 1] == prop;
        forall j | 0 <= j < i + 1 ensures props[j].name != name {
          if j > 0 { assert props[j] == props[1..][j - 1]; }
        }
      }
    } else if prop == props[0] {
      assert props[0] == prop;
    }
  }

  /** Otherwise nothing happens. */
  lemma ChangeSilent(s: Server, p: Path, iface: Name, name: Name, flush: bool)
    requires forall k: nat, prop :: !Speakable(s, p, iface, name, k, prop)
    ensures EmitChanged(s, p, iface, name, flush) == s
  {
    if p in s.objects {
      var k := Find(s.objects[p].ifaces, iface);
      if k < |s.objects[p].ifaces| {
        var found := FindProperty(s.showExperimental, Properties(s.objects[p].ifaces[k].decl), name);
        if found.Some? {
          FindsFirst(s.showExperimental, Properties(s.objects[p].ifaces[k].decl), name, found.value);
          assert !Speakable(s, p, iface, name, k, found.value);
        }
      }
    }
  }

  /** The change is queued; then with the flag just the queues of the object are sent, and without it a round follows. */
  lemma ChangeSpeaks(s: Server, p: Path, iface: Name, name: Name, flush: bool, k: nat, prop: Property)
    requires Speakable(s, p, iface, name, k, prop)
    ensures var n := s.objects[p]; var i := n.ifaces[k]; var r := EmitChanged(s, p, iface, name, flush);
            var q := n.(pendingProp := true, ifaces := n.ifaces[k := i.(pending := [prop] + i.pending)]);
            if flush then r == s.(objects := s.objects[p := n.(pendingProp := false, ifaces := Quieted(q.ifaces))],
                                  out := s.out + ChangeMessages(p, q.ifaces))
            else Sends(s.(objects := s.objects[p := q]), p, r)
  {
    var n := s.objects[p];
    FindAt(n.ifaces, iface, k);
    FindsFirst(s.showExperimental, Properties(n.ifaces[k].decl), name, prop);
    var q := Queued(n, k, prop);
    if flush {
      UpdateTwice(s.objects, p, q, n.(pendingProp := false, ifaces := Quieted(q.ifaces)));
    } else {
      ProcessSends(s.(objects := s.objects[p := q]), p);
    }
  }

  // ---------------------------------------------------------------------
  // Public calls, when everything has been announced

  ghost function AddedMessage(show: bool, p: Path, i: Iface): Message {
    InterfacesAdded(p, [IfaceEntry(show, i)])
  }

  const PROPERTIES_IFACE := Iface(PROPERTIES_DECL, [], map[])

  /** The interface, and Properties if it brings the first property table. */
  ghost function InterfaceMessages(show: bool, p: Path, ifaces: seq<Iface>, d: Decl, state: map<Name, Variant>): seq<Message> {
    if p == [] then []
    else [AddedMessage(show, p, Iface(d, [], state))]
         + (if d.properties.Some? && !Has(ifaces, PROPERTIES) then [AddedMessage(show, p, PROPERTIES_IFACE)] else [])
  }

  ghost function ObjectMessages(show: bool, p: Path): seq<Message> {
    if p == [] then [] else [AddedMessage(show, p, INTROSPECTABLE_IFACE)]
  }

  /** Each new interface in a message of its own, for a new object Introspectable first. Nothing is said of "/". */
  ghost function RegisterMessages(s: Server, p: Path, d: Decl, state: map<Name, Variant>): seq<Message> {
    if p in s.objects then InterfaceMessages(s.showExperimental, p, s.objects[p].ifaces, d, state)
    else ObjectMessages(s.showExperimental, p) + InterfaceMessages(s.showExperimental, p, [INTROSPECTABLE_IFACE], d, state)
  }

  /** A server in which an object can be told of. */
  ghost predicate Ready(s: Server, p: Path) {
    Announced(s) && Tree(s.objects) && [] in s.objects && p in s.objects && !s.objects[p].pendingProp
  }

  lemma AddTells(s: Server, p: Path, d: Decl, state: map<Name, Variant>)
    requires Ready(s, p) && !Has(s.objects[p].ifaces, d.name) && SomethingVisible(s.showExperimental, d)
    ensures var r := AddInterface(s, p, d, state).server;
            && r.out == s.out + (if p == [] then [] else [AddedMessage(s.showExperimental, p, Iface(d, [], state))])
            && r.objects == s.objects[p := WithIface(s.objects[p], d, state)] && SameFlags(s, r) && Ready(r, p)
  {
    RootAndParents(s.objects, p);
    assert Paid(s.objects[p]);
    if p == [] { assert s.out + [] == s.out; } else { AddExact(s, p, d, state); }
    IfaceTree(s.objects, p, d, state, AddInterface(s, p, d, state).server.objects);
  }

  lemma RegisterOnTells(s: Server, p: Path, d: Decl, state: map<Name, Variant>)
    requires Ready(s, p) && !Builtin(d.name) && RegisterOn(s, p, d, state).ok
    ensures RegisterOn(s, p, d, state).server.out
            == s.out + InterfaceMessages(s.showExperimental, p, s.objects[p].ifaces, d, state)
  {
    var ifaces := s.objects[p].ifaces;
    AddTells(s, p, d, state);
    HasAppended(ifaces, Iface(d, [], state), PROPERTIES);
    TableTells(s, AddInterface(s, p, d, state).server, p, d, state, ifaces);
  }

  lemma TableTells(s: Server, a: Server, p: Path, d: Decl, state: map<Name, Variant>, ifaces: seq<Iface>)
    requires Ready(a, p) && SameFlags(s, a) && (Has(a.objects[p].ifaces, PROPERTIES) <==> Has(ifaces, PROPERTIES))
    requires a.out == s.out + if p == [] then [] else [AddedMessage(s.showExperimental, p, Iface(d, [], state))]
    ensures AddPropertiesInterface(a, p, d).out == s.out + InterfaceMessages(s.showExperimental, p, ifaces, d, state)
  {
    if d.properties.Some? && !Has(ifaces, PROPERTIES) {
      assert !Hidden(a.showExperimental, PROPERTIES_DECL.methods[0].experimental);
      AddTells(a, p, PROPERTIES_DECL, map[]);
    }
  }

  lemma ReferencedReady(s: Server, p: Path)
    requires Exporting(s) && p in s.objects
    ensures Ready(Referenced(s, p), p) && Referenced(s, p).objects[p].ifaces == s.objects[p].ifaces
  {
    assert Counted(s.objects[p]) && Quiet(s.objects[p]) && Paid(s.objects[p]);
    TreeOfLinks(s.objects, Referenced(s, p).objects);
  }

  lemma FreshTells(s: Server, p: Path)
    requires Exporting(s) && p !in s.objects && forall q :: q in s.objects ==> !(p < q)
    ensures var r := PathRef(s, p);
            && Ready(r, p) && r.objects[p].ifaces == [INTROSPECTABLE_IFACE] && SameFlags(s, r)
            && r.out == s.out + ObjectMessages(s.showExperimental, p)
  {
    var s0 := s.(objects := Inserted(s.objects, p));
    InsertedReady(s, p, s0);
    assert !Hidden(s0.showExperimental, INTROSPECTABLE_DECL.methods[0].experimental);
    AddTells(s0, p, INTROSPECTABLE_DECL, map[]);
  }

  lemma InsertedReady(s: Server, p: Path, s0: Server)
    requires Exporting(s) && p !in s.objects && s0 == s.(objects := Inserted(s.objects, p))
    requires forall q :: q in s.objects ==> !(p < q)
    ensures Ready(s0, p) && s0.objects[p].ifaces == []
  {
    InsertKeepsTree(s.objects, p);
    InsertedIsNew(s.objects, p);
    forall q | q in s0.objects ensures Paid(s0.objects[q]) {
      if q != p { assert Paid(s.objects[q]) && SameBody(s.objects[q], s0.objects[q]); }
    }
  }

  /** What a registration that is accepted sends. */
  lemma RegisterTells(s: Server, p: Path, d: Decl, state: map<Name, Variant>)
    requires Exporting(s) && !Reserved(p, d.name) && (p in s.objects || forall q :: q in s.objects ==> !(p < q))
    ensures Register(s, p, d, state).ok ==> Register(s, p, d, state).server.out == s.out + RegisterMessages(s, p, d, state)
  {
    if Register(s, p, d, state).ok {
      if p in s.objects { RegisterOldTells(s, p, d, state); } else { RegisterNewTells(s, p, d, state); }
    }
  }

  lemma RegisterOldTells(s: Server, p: Path, d: Decl, state: map<Name, Variant>)
    requires Exporting(s) && !Builtin(d.name) && p in s.objects && Register(s, p, d, state).ok
    ensures Register(s, p, d, state).server.out == s.out + RegisterMessages(s, p, d, state)
  {
    RegisterUnfolds(s, p, d, state);
    ReferencedReady(s, p);
    RegisterOnTells(Referenced(s, p), p, d, state);
  }

  lemma RegisterNewTells(s: Server, p: Path, d: Decl, state: map<Name, Variant>)
    requires Exporting(s) && !Builtin(d.name) && p !in s.objects && (forall q :: q in s.objects ==> !(p < q)) && Register(s, p, d, state).ok
    ensures Register(s, p, d, state).server.out == s.out + RegisterMessages(s, p, d, state)
  {
    FreshTells(s, p);
    RegisterOnTells(PathRef(s, p), p, d, state);
    MessagesTwice(s.out, ObjectMessages(s.showExperimental, p), InterfaceMessages(s.showExperimental, p, [INTROSPECTABLE_IFACE], d, state));
  }

  /** The name, and with the last interface of an object Introspectable and then Properties if it is there. */
  ghost function UnregisterMessages(s: Server, p: Path, name: Name): seq<Message>
    requires p in s.objects
  {
    if p == [] then [] else [InterfacesRemoved(p, [name])] + if s.objects[p].refcount > 1 then [] else LastMessages(p, s.objects[p].ifaces)
  }

  ghost function LastMessages(p: Path, ifaces: seq<Iface>): seq<Message> {
    [InterfacesRemoved(p, [INTROSPECTABLE])] + if Has(ifaces, PROPERTIES) then [InterfacesRemoved(p, [PROPERTIES])] else []
  }

  lemma RemoveTells(s: Server, p: Path, name: Name)
    requires Ready(s, p) && Quiet(s.objects[p]) && Has(s.objects[p].ifaces, name)
    ensures var r := RemoveInterface(s, p, name).server; var n := s.objects[p];
            && r.out == s.out + (if p == [] then [] else [InterfacesRemoved(p, [name])])
            && r.objects == s.objects[p := n.(ifaces := Without(n.ifaces, Find(n.ifaces, name)))] && SameFlags(s, r)
  {
    RootAndParents(s.objects, p);
    assert Paid(s.objects[p]);
    if p == [] { assert s.out + [] == s.out; } else { RemoveExact(s, p, name); }
  }

  /** An object that can be told of and has nothing queued. */
  ghost predicate Calmly(s: Server, p: Path) {
    Ready(s, p) && Quiet(s.objects[p]) && UniqueNames(s.objects[p].ifaces)
  }

  lemma StillCalm(s: Server, r: Server, p: Path, n: Node)
    requires Ready(s, p) && SameFlags(s, r) && r.objects == s.objects[p := n] && n.links == s.objects[p].links
    requires Paid(n) && Quiet(n) && UniqueNames(n.ifaces)
    ensures Calmly(r, p) && r.objects[p] == n
  {
    TreeOfLinks(s.objects, r.objects);
  }

  lemma GoneTells(s: Server, p: Path, name: Name, other: Name)
    requires Calmly(s, p) && p != []
    ensures var r := RemoveInterface(s, p, name).server;
            && Calmly(r, p) && r.out == s.out + (if Has(s.objects[p].ifaces, name) then [InterfacesRemoved(p, [name])] else [])
            && (Has(r.objects[p].ifaces, other) <==> Has(s.objects[p].ifaces, other) && other != name)
            && r.objects[p].refcount == s.objects[p].refcount
  {
    var n := s.objects[p];
    if Has(n.ifaces, name) {
      var k := Find(n.ifaces, name);
      assert Paid(n);
      RemoveTells(s, p, name);
      HasWithout(n.ifaces, k, other);
      WithoutUnique(n.ifaces, k);
      StillCalm(s, RemoveInterface(s, p, name).server, p, n.(ifaces := Without(n.ifaces, k)));
    } else {
      assert s.out + [] == s.out;
    }
  }

  lemma LastUnrefOut(s: Server, p: Path, s1: Server)
    requires p in s.objects && s.objects[p].refcount == 1 && s1 == s.(objects := s.objects[p := s.objects[p].(refcount := 0)])
    ensures PathUnref(s, p).out == RemoveInterface(RemoveInterface(s1, p, INTROSPECTABLE).server, p, PROPERTIES).server.out
  {
  }

  lemma BuiltinsTell(s: Server, p: Path)
    requires Calmly(s, p) && p != [] && Has(s.objects[p].ifaces, INTROSPECTABLE)
    ensures RemoveInterface(RemoveInterface(s, p, INTROSPECTABLE).server, p, PROPERTIES).server.out
            == s.out + LastMessages(p, s.objects[p].ifaces)
  {
    GoneTells(s, p, INTROSPECTABLE, PROPERTIES);
    var s2 := RemoveInterface(s, p, INTROSPECTABLE).server;
    GoneTells(s2, p, PROPERTIES, PROPERTIES);
    MessagesTwice(s.out, [InterfacesRemoved(p, [INTROSPECTABLE])],
                  if Has(s2.objects[p].ifaces, PROPERTIES) then [InterfacesRemoved(p, [PROPERTIES])] else []);
  }

  /** The built-in interfaces of an object that goes. */
  lemma LastTells(s: Server, p: Path)
    requires Calmly(s, p) && p != [] && s.objects[p].refcount == 1 && Has(s.objects[p].ifaces, INTROSPECTABLE)
    ensures PathUnref(s, p).out == s.out + LastMessages(p, s.objects[p].ifaces)
  {
    var m := s.objects[p].(refcount := 0);
    var s1 := s.(objects := s.objects[p := m]);
    assert Paid(s.objects[p]);
    StillCalm(s, s1, p, m);
    BuiltinsTell(s1, p);
    LastUnrefOut(s, p, s1);
  }

  /** What an unregistration that is accepted sends. */
  lemma UnregisterTells(s: Server, p: Path, name: Name)
    requires Exporting(s) && !Reserved(p, name) && p in s.objects && Has(s.objects[p].ifaces, name)
    ensures Unregister(s, p, name).server.out == s.out + UnregisterMessages(s, p, name)
  {
    assert Counted(s.objects[p]) && Quiet(s.objects[p]) && Paid(s.objects[p]);
    UnregisterUnfolds(s, p, name);
    if p == [] { SilentRoot(s, name); } else { WithdrawnBelow(s, p, name); }
  }

  lemma SilentRoot(s: Server, name: Name)
    requires Exporting(s) && !Reserved([], name) && [] in s.objects && Has(s.objects[[]].ifaces, name) && Counted(s.objects[[]])
    requires Quiet(s.objects[[]])
    ensures PathUnref(ClearCache(RemoveInterface(s, [], name).server, []), []).out == s.out
  {
    RemoveTells(s, [], name);
    if s.objects[[]].refcount == 1 { OnlyUser(s.objects[[]].ifaces, name, OBJECT_MANAGER); }
    UnrefShared(ClearCache(RemoveInterface(s, [], name).server, []), []);
  }

  lemma WithdrawnBelow(s: Server, p: Path, name: Name)
    requires Calmly(s, p) && p != [] && !Builtin(name) && Has(s.objects[p].ifaces, name) && Counted(s.objects[p])
    ensures PathUnref(ClearCache(RemoveInterface(s, p, name).server, p), p).out == s.out + UnregisterMessages(s, p, name)
  {
    GoneTells(s, p, name, INTROSPECTABLE);
    GoneTells(s, p, name, PROPERTIES);
    ReleaseTells(s, RemoveInterface(s, p, name).server, p, name);
  }

  lemma ReleaseTells(s: Server, a: Server, p: Path, name: Name)
    requires p in s.objects && Counted(s.objects[p]) && p != []
    requires Calmly(a, p) && a.objects[p].refcount == s.objects[p].refcount && Has(a.objects[p].ifaces, INTROSPECTABLE)
    requires Has(a.objects[p].ifaces, PROPERTIES) <==> Has(s.objects[p].ifaces, PROPERTIES)
    requires a.out == s.out + [InterfacesRemoved(p, [name])]
    ensures PathUnref(ClearCache(a, p), p).out == s.out + UnregisterMessages(s, p, name)
  {
    var b := ClearCache(a, p);
    assert Paid(a.objects[p]);
    StillCalm(a, b, p, a.objects[p].(cache := Empty));
    if s.objects[p].refcount > 1 {
      UnrefShared(b, p);
    } else {
      LastTells(b, p);
      MessagesTwice(s.out, [InterfacesRemoved(p, [name])], LastMessages(p, s.objects[p].ifaces));
    }
  }

  /** Attaching the manager sends nothing. */
  lemma AttachTells(s: Server)
    requires ROOT in s.objects ==> s.objects[ROOT].links.parent.None?
    ensures Attach(s).out == s.out
  {
    assert Invalidate(s.objects[ROOT := FRESH_NODE], ROOT).objects == s.objects[ROOT := FRESH_NODE];
  }
}
