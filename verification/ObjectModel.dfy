/** What the exported-object server of bluez/gdbus/object.c does to its state.

    `Server` is everything the C file keeps for one connection: the table of
    exported objects, whether the object manager is attached, and the messages
    handed to the bus so far.  An object is named by its path, so the `parent`
    pointer and the `objects` list of the C structure hold paths here.

    The functions follow the C functions one by one and are defined in every
    state, whatever the order of registration was.
 */
module ObjectModel {
  import opened Bus

  datatype Member = Member(name: Name, experimental: bool)

  /** `readable` says that the table has a getter for the property. */
  datatype Property = Property(name: Name, experimental: bool, readable: bool)

  /** The tables an interface is registered with; `properties` is `None` for a null table. */
  datatype Decl = Decl(name: Name, methods: seq<Member>, signals: seq<Member>, properties: Option<seq<Property>>)

  /** `state` is what the getters read: a property exists while it has a value there. */
  datatype Iface = Iface(decl: Decl, pending: seq<Property>, state: map<Name, Variant>)

  datatype DocIface = DocIface(name: Name, methods: seq<Name>, signals: seq<Name>, properties: seq<Name>)

  /** The content of an introspection text. */
  datatype Doc = Doc(ifaces: seq<DocIface>, nodes: set<string>)

  /** The cached introspection text: none, the text an object is created with, or a generated one. */
  datatype Cache = Empty | Placeholder | Text(doc: Doc)

  /** The place of an object in the tree: its `parent` pointer and its `objects` list. */
  datatype Links = Links(parent: Option<Path>, children: seq<Path>)

  datatype Node = Node(
    refcount: int,
    ifaces: seq<Iface>,
    links: Links,
    added: seq<Name>,
    removed: seq<Name>,
    pendingProp: bool,
    cache: Cache)

  type Table = map<Path, Node>

  datatype Server = Server(objects: Table, attached: bool, showExperimental: bool, out: seq<Message>)

  datatype Outcome = Outcome(server: Server, ok: bool)

  const INTROSPECTABLE_DECL := Decl(INTROSPECTABLE, [Member("Introspect", false)], [], None)
  const PROPERTIES_DECL :=
    Decl(PROPERTIES, [Member("Get", false), Member("Set", false), Member("GetAll", false)],
         [Member("PropertiesChanged", false)], None)
  const MANAGER_DECL :=
    Decl(OBJECT_MANAGER, [Member("GetManagedObjects", false)],
         [Member("InterfacesAdded", false), Member("InterfacesRemoved", false)], None)

  // ---------------------------------------------------------------------
  // Lists

  function RemoveFirst<T(==)>(xs: seq<T>, x: T): seq<T> {
    if xs == [] then []
    else if xs[0] == x then xs[1..]
    else [xs[0]] + RemoveFirst(xs[1..], x)
  }

  lemma {:induction false} RemoveFirstSubset<T>(xs: seq<T>, x: T)
    ensures forall y :: y in RemoveFirst(xs, x) ==> y in xs
  {
    if xs != [] {
      RemoveFirstSubset(xs[1..], x);
    }
  }

  /** The position of the first interface with the given name, or the length of the list. */
  function Find(ifaces: seq<Iface>, name: Name): (k: nat)
    ensures k <= |ifaces|
    ensures k < |ifaces| ==> ifaces[k].decl.name == name
    ensures forall i :: 0 <= i < k ==> ifaces[i].decl.name != name
  {
    if ifaces == [] || ifaces[0].decl.name == name then 0 else 1 + Find(ifaces[1..], name)
  }

  lemma FindAt(ifaces: seq<Iface>, name: Name, k: nat)
    requires k <= |ifaces| && (k < |ifaces| ==> ifaces[k].decl.name == name)
    requires forall i :: 0 <= i < k ==> ifaces[i].decl.name != name
    ensures Find(ifaces, name) == k
  {
  }

  predicate Has(ifaces: seq<Iface>, name: Name) {
    Find(ifaces, name) < |ifaces|
  }

  function Without(ifaces: seq<Iface>, k: nat): seq<Iface>
    requires k < |ifaces|
  {
    ifaces[..k] + ifaces[k + 1..]
  }

  // ---------------------------------------------------------------------
  // Tables of an interface

  /** `check_experimental`: whether an entry with this flag is hidden. */
  predicate Hidden(showExperimental: bool, experimental: bool) {
    experimental && !showExperimental
  }

  function Properties(d: Decl): seq<Property> {
    if d.properties.None? then [] else d.properties.value
  }

  predicate SomethingVisible(show: bool, d: Decl) {
    || (exists i :: 0 <= i < |d.methods| && !Hidden(show, d.methods[i].experimental))
    || (exists i :: 0 <= i < |d.signals| && !Hidden(show, d.signals[i].experimental))
    || (exists i :: 0 <= i < |Properties(d)| && !Hidden(show, Properties(d)[i].experimental))
  }

  /** `find_property`: the first entry with the name, unless that entry is hidden. */
  function FindProperty(show: bool, props: seq<Property>, name: Name): Option<Property> {
    if props == [] then None
    else if props[0].name != name then FindProperty(show, props[1..], name)
    else if Hidden(show, props[0].experimental) then None
    else Some(props[0])
  }

  /** `append_properties`: the readable, visible properties that exist, with their values. */
  function Entries(show: bool, props: seq<Property>, state: map<Name, Variant>): seq<Entry> {
    if props == [] then []
    else
      var p := props[0];
      (if Hidden(show, p.experimental) || !p.readable || p.name !in state then []
       else [Entry(p.name, state[p.name])])
      + Entries(show, props[1..], state)
  }

  function IfaceEntry(show: bool, i: Iface): IfaceProps {
    IfaceProps(i.decl.name, Entries(show, Properties(i.decl), i.state))
  }

  /** What one message says of a list of interfaces, in list order. */
  function IfaceEntries(show: bool, ifaces: seq<Iface>): (r: seq<IfaceProps>)
    ensures |r| == |ifaces|
    ensures forall i :: 0 <= i < |r| ==> r[i] == IfaceEntry(show, ifaces[i])
  {
    if ifaces == [] then [] else [IfaceEntry(show, ifaces[0])] + IfaceEntries(show, ifaces[1..])
  }

  /** The interfaces of `node` whose publication is outstanding, in the order they were added. */
  function Unpublished(ifaces: seq<Iface>, added: seq<Name>): seq<Iface> {
    if added == [] then []
    else
      var k := Find(ifaces, added[0]);
      (if k < |ifaces| then [ifaces[k]] else []) + Unpublished(ifaces, added[1..])
  }

  // ---------------------------------------------------------------------
  // Signals

  predicate SameFlags(s: Server, r: Server) {
    s.attached == r.attached && s.showExperimental == r.showExperimental
  }

  /** `emit_interfaces_added`.  A parent is always a shorter path; the test says so and makes the recursion
      end in any table. */
  function EmitAdded(s: Server, p: Path): (r: Server)
    requires p in s.objects
    ensures r.objects.Keys == s.objects.Keys && SameFlags(s, r)
    decreases |p|
  {
    if !s.attached || p == [] then s
    else
      var up := s.objects[p].links.parent;
      var s1 := if up.Some? && |up.value| < |p| && up.value in s.objects && s.objects[up.value].added != []
                then EmitAdded(s, up.value) else s;
      var n := s1.objects[p];
      s1.(objects := s1.objects[p := n.(added := [])],
          out := s1.out + [InterfacesAdded(p, IfaceEntries(s.showExperimental, Unpublished(n.ifaces, n.added)))])
  }

  /** `emit_interfaces_removed`. */
  function EmitRemoved(s: Server, p: Path): (r: Server)
    requires p in s.objects
    ensures r.objects.Keys == s.objects.Keys && SameFlags(s, r)
  {
    if !s.attached || p == [] then s
    else
      var n := s.objects[p];
      s.(objects := s.objects[p := n.(removed := [])], out := s.out + [InterfacesRemoved(p, n.removed)])
  }

  function Reverse<T>(xs: seq<T>): (r: seq<T>)
    ensures |r| == |xs|
  {
    if xs == [] then [] else Reverse(xs[1..]) + [xs[0]]
  }

  /** The changed values of a list of properties: those that are readable and exist. */
  function ChangedEntries(props: seq<Property>, state: map<Name, Variant>): seq<Entry> {
    if props == [] then []
    else
      (if props[0].readable && props[0].name in state then [Entry(props[0].name, state[props[0].name])] else [])
      + ChangedEntries(props[1..], state)
  }

  /** The readable properties of a list that no longer exist. */
  function GoneNames(props: seq<Property>, state: map<Name, Variant>): seq<Name> {
    if props == [] then []
    else
      (if props[0].readable && props[0].name !in state then [props[0].name] else [])
      + GoneNames(props[1..], state)
  }

  /** `process_properties_from_interface`: nothing, or one PropertiesChanged. */
  function ChangeMessage(p: Path, i: Iface): seq<Message> {
    if i.pending == [] then []
    else [PropertiesChanged(p, i.decl.name, ChangedEntries(Reverse(i.pending), i.state), GoneNames(i.pending, i.state))]
  }

  function ChangeMessages(p: Path, ifaces: seq<Iface>): seq<Message> {
    if ifaces == [] then [] else ChangeMessage(p, ifaces[0]) + ChangeMessages(p, ifaces[1..])
  }

  function Quieted(ifaces: seq<Iface>): (r: seq<Iface>)
    ensures |r| == |ifaces|
    ensures forall i :: 0 <= i < |r| ==> r[i] == ifaces[i].(pending := [])
  {
    if ifaces == [] then [] else [ifaces[0].(pending := [])] + Quieted(ifaces[1..])
  }

  /** `process_property_changes`. */
  function FlushProperties(s: Server, p: Path): (r: Server)
    requires p in s.objects
    ensures r.objects.Keys == s.objects.Keys && SameFlags(s, r)
  {
    var n := s.objects[p];
    s.(objects := s.objects[p := n.(pendingProp := false, ifaces := Quieted(n.ifaces))],
       out := s.out + ChangeMessages(p, n.ifaces))
  }

  function SendAdded(s: Server, p: Path): (r: Server)
    requires p in s.objects
    ensures r.objects.Keys == s.objects.Keys && SameFlags(s, r)
  {
    if s.objects[p].added != [] then EmitAdded(s, p) else s
  }

  function SendChanges(s: Server, p: Path): (r: Server)
    requires p in s.objects
    ensures r.objects.Keys == s.objects.Keys && SameFlags(s, r)
  {
    if s.objects[p].pendingProp then FlushProperties(s, p) else s
  }

  function SendRemoved(s: Server, p: Path): (r: Server)
    requires p in s.objects
    ensures r.objects.Keys == s.objects.Keys && SameFlags(s, r)
  {
    if s.objects[p].removed != [] then EmitRemoved(s, p) else s
  }

  /** `process_changes`, which `add_pending` calls at once. */
  function ProcessChanges(s: Server, p: Path): (r: Server)
    requires p in s.objects
    ensures r.objects.Keys == s.objects.Keys && SameFlags(s, r)
  {
    SendRemoved(SendChanges(SendAdded(s, p), p), p)
  }

  /** Stores the new contents of an object and calls `add_pending` on it. */
  function AddPending(s: Server, p: Path, n: Node): (r: Server)
    requires p in s.objects
    ensures r.objects.Keys == s.objects.Keys && SameFlags(s, r)
  {
    ProcessChanges(s.(objects := s.objects[p := n]), p)
  }

  // ---------------------------------------------------------------------
  // Interfaces and objects

  /** `add_interface`. */
  function AddInterface(s: Server, p: Path, d: Decl, state: map<Name, Variant>): (r: Outcome)
    requires p in s.objects
    ensures r.server.objects.Keys == s.objects.Keys && SameFlags(s, r.server)
  {
    if !SomethingVisible(s.showExperimental, d) then Outcome(s, false)
    else
      var n := s.objects[p];
      var n1 := n.(ifaces := n.ifaces + [Iface(d, [], state)]);
      if n.links.parent.None? then Outcome(s.(objects := s.objects[p := n1]), true)
      else
        Outcome(AddPending(s, p, n1.(added := n1.added + [d.name])), true)
  }

  /** `remove_interface`. */
  function RemoveInterface(s: Server, p: Path, name: Name): (r: Outcome)
    requires p in s.objects
    ensures r.server.objects.Keys == s.objects.Keys && SameFlags(s, r.server)
  {
    var n := s.objects[p];
    var k := Find(n.ifaces, name);
    if k == |n.ifaces| then Outcome(s, false)
    else
      var n1 := n.(ifaces := Without(n.ifaces, k));
      var s1 := s.(out := s.out + ChangeMessage(p, n.ifaces[k]));
      if name in n.added then
        Outcome(s1.(objects := s1.objects[p := n1.(added := RemoveFirst(n1.added, name))]), true)
      else if n.links.parent.None? then
        Outcome(s1.(objects := s1.objects[p := n1]), true)
      else
        Outcome(AddPending(s1, p, n1.(removed := [name] + n1.removed)), true)
  }

  function WithChildren(n: Node, children: seq<Path>): Node {
    n.(links := n.links.(children := children))
  }

  function WithParent(n: Node, parent: Option<Path>): Node {
    n.(links := n.links.(parent := parent))
  }

  datatype Found = Found(objects: Table, data: Option<Path>)

  /** Clears the cached text of `d` and makes `c`, if it is registered, a child of `d`. */
  function Link(objs: Table, d: Path, c: Path): (r: Table)
    requires d in objs && |d| < |c|
    ensures r.Keys == objs.Keys
  {
    var cleared := objs[d := objs[d].(cache := Empty)];
    if c !in cleared || c in cleared[d].links.children then cleared
    else
      cleared[d := WithChildren(cleared[d], [c] + cleared[d].links.children)]
             [c := WithParent(cleared[c], Some(d))]
  }

  /** `invalidate_parent_data`: clears the cached text of every registered ancestor of `c`,
      links each registered path on the way to the object found above it, and returns that object. */
  function Invalidate(objs: Table, c: Path): (r: Found)
    ensures r.objects.Keys == objs.Keys
    ensures r.data.Some? ==> r.data.value in objs && |r.data.value| < |c|
    decreases |c|
  {
    if c == [] then Found(objs, None)
    else
      var up := Invalidate(objs, Parent(c));
      var data := if Parent(c) in objs then Some(Parent(c)) else up.data;
      if data.None? then Found(up.objects, None)
      else Found(Link(up.objects, data.value, c), data)
  }

  const FRESH_NODE := Node(1, [], Links(None, []), [], [], false, Placeholder)

  /** `object_path_ref`. */
  function PathRef(s: Server, p: Path): (r: Server)
    ensures r.objects.Keys == s.objects.Keys + {p} && SameFlags(s, r)
  {
    if p in s.objects then s.(objects := s.objects[p := s.objects[p].(refcount := s.objects[p].refcount + 1)])
    else
      var s1 := s.(objects := Invalidate(s.objects[p := FRESH_NODE], p).objects);
      AddInterface(s1, p, INTROSPECTABLE_DECL, map[]).server
  }

  function Reparented(objs: Table, children: seq<Path>, parent: Option<Path>): (r: Table)
    ensures r.Keys == objs.Keys
    ensures forall q :: q in objs ==> r[q] == if q in children then WithParent(objs[q], parent) else objs[q]
  {
    map q | q in objs :: if q in children then WithParent(objs[q], parent) else objs[q]
  }

  function Unlink(objs: Table, d: Path, c: Path): Table
    requires d in objs
  {
    objs[d := WithChildren(objs[d], RemoveFirst(objs[d].links.children, c))]
  }

  /** Unregistering a path with the bus library, which calls `generic_unregister`. */
  function Drop(objs: Table, p: Path): (r: Table)
    requires p in objs
    ensures r.Keys == objs.Keys - {p}
  {
    var n := objs[p];
    var objs1 := if n.links.parent.Some? && n.links.parent.value in objs
                 then Unlink(objs, n.links.parent.value, p)
                 else objs;
    Reparented(objs1, n.links.children, n.links.parent) - {p}
  }

  /** `object_path_unref`. */
  function PathUnref(s: Server, p: Path): (r: Server)
    ensures r.objects.Keys <= s.objects.Keys && SameFlags(s, r)
  {
    if p !in s.objects then s
    else
      var n := s.objects[p].(refcount := s.objects[p].refcount - 1);
      var s1 := s.(objects := s.objects[p := n]);
      if n.refcount > 0 then s1
      else
        var s2 := RemoveInterface(s1, p, INTROSPECTABLE).server;
        var s3 := RemoveInterface(s2, p, PROPERTIES).server;
        var objs := Invalidate(s3.objects, p).objects;
        s3.(objects := Drop(objs, p))
  }

  // ---------------------------------------------------------------------
  // Public calls

  function ClearCache(s: Server, p: Path): (r: Server)
    requires p in s.objects
    ensures r.objects.Keys == s.objects.Keys && SameFlags(s, r)
  {
    s.(objects := s.objects[p := s.objects[p].(cache := Empty)])
  }

  /** An object gets the Properties interface with its first interface that has a property table. */
  function AddPropertiesInterface(s: Server, p: Path, d: Decl): (r: Server)
    requires p in s.objects
    ensures r.objects.Keys == s.objects.Keys && SameFlags(s, r)
  {
    if d.properties.Some? && !Has(s.objects[p].ifaces, PROPERTIES)
    then AddInterface(s, p, PROPERTIES_DECL, map[]).server else s
  }

  /** `g_dbus_register_interface`; `state` is what the getters of the interface will read. */
  function Register(s: Server, p: Path, d: Decl, state: map<Name, Variant>): (r: Outcome)
    ensures SameFlags(s, r.server)
  {
    if !ValidPath(p) || !ValidInterface(d.name) then Outcome(s, false)
    else RegisterOn(PathRef(s, p), p, d, state)
  }

  /** The part of registration that follows taking a reference on the object. */
  function RegisterOn(s: Server, p: Path, d: Decl, state: map<Name, Variant>): (r: Outcome)
    requires p in s.objects
    ensures SameFlags(s, r.server)
  {
    if Has(s.objects[p].ifaces, d.name) then Outcome(PathUnref(s, p), false)
    else
      var a := AddInterface(s, p, d, state);
      if !a.ok then Outcome(PathUnref(a.server, p), false)
      else Outcome(ClearCache(AddPropertiesInterface(a.server, p, d), p), true)
  }

  /** `g_dbus_unregister_interface`. */
  function Unregister(s: Server, p: Path, name: Name): (r: Outcome)
    ensures SameFlags(s, r.server)
  {
    if p !in s.objects then Outcome(s, false)
    else
      var a := RemoveInterface(s, p, name);
      if !a.ok then Outcome(a.server, false)
      else
        Outcome(PathUnref(ClearCache(a.server, p), p), true)
  }

  /** `g_dbus_attach_object_manager`. */
  function Attach(s: Server): (r: Server)
  {
    AddManager(PathRef(s, ROOT))
  }

  function AddManager(s: Server): (r: Server)
    requires ROOT in s.objects
  {
    AddInterface(s, ROOT, MANAGER_DECL, map[]).server.(attached := true)
  }

  function SetState(state: map<Name, Variant>, name: Name, value: Option<Variant>): map<Name, Variant> {
    if value.Some? then state[name := value.value] else state - {name}
  }

  /** The application gives a property behind interface `k` of `n` a new value, or makes it disappear. */
  function WithState(n: Node, k: nat, name: Name, value: Option<Variant>): Node
    requires k < |n.ifaces|
  {
    n.(ifaces := n.ifaces[k := n.ifaces[k].(state := SetState(n.ifaces[k].state, name, value))])
  }

  /** `n` with a change of interface `k` queued. */
  function Queued(n: Node, k: nat, prop: Property): Node
    requires k < |n.ifaces|
  {
    n.(pendingProp := true,
       ifaces := n.ifaces[k := n.ifaces[k].(pending := [prop] + n.ifaces[k].pending)])
  }

  /** `g_dbus_emit_property_changed_full`; `flush` is its flush flag. */
  function EmitChanged(s: Server, p: Path, iface: Name, name: Name, flush: bool): (r: Server)
    ensures SameFlags(s, r)
  {
    if p !in s.objects then s
    else
      var n := s.objects[p];
      var k := Find(n.ifaces, iface);
      if k == |n.ifaces| || (s.attached && iface in n.added) then s
      else
        var found := FindProperty(s.showExperimental, Properties(n.ifaces[k].decl), name);
        if found.None? || found.value in n.ifaces[k].pending then s
        else
          var n1 := Queued(n, k, found.value);
          if flush then FlushProperties(s.(objects := s.objects[p := n1]), p) else AddPending(s, p, n1)
  }

  /** A property changes and the application announces it. */
  function ChangeProperty(s: Server, p: Path, iface: Name, name: Name, value: Option<Variant>, flush: bool): (r: Server)
    ensures SameFlags(s, r)
  {
    if p !in s.objects || !Has(s.objects[p].ifaces, iface) then s
    else
      var n := WithState(s.objects[p], Find(s.objects[p].ifaces, iface), name, value);
      EmitChanged(s.(objects := s.objects[p := n]), p, iface, name, flush)
  }

  // ---------------------------------------------------------------------
  // GetManagedObjects and Introspect

  function Deeper(objs: Table, depth: nat): set<Path> {
    set q | q in objs && depth < |q|
  }

  lemma DeeperShrinks(objs: Table, depth: nat, c: Path)
    requires c in objs && depth < |c|
    ensures |Deeper(objs, |c|)| < |Deeper(objs, depth)|
  {
    var a, b := Deeper(objs, |c|), Deeper(objs, depth);
    assert a <= b - {c};
    SubsetSize(a, b - {c});
  }

  lemma {:induction false} SubsetSize<T>(a: set<T>, b: set<T>)
    requires a <= b
    ensures |a| <= |b|
    decreases a
  {
    if a != {} {
      var x :| x in a;
      SubsetSize(a - {x}, b - {x});
    }
  }

  /** `append_object`: an object, then everything below its child list.  Children are longer paths; the test
      in `ListNodes` says so and makes the recursion end in any table. */
  function ListNode(objs: Table, p: Path): seq<Path>
    requires p in objs
    decreases |Deeper(objs, |p|)|, |objs[p].links.children| + 1
  {
    [p] + ListNodes(objs, |p|, objs[p].links.children)
  }

  function ListNodes(objs: Table, depth: nat, children: seq<Path>): seq<Path>
    decreases |Deeper(objs, depth)|, |children|
  {
    if children == [] then []
    else
      var c := children[0];
      (if c in objs && depth < |c| then DeeperShrinks(objs, depth, c); ListNode(objs, c) else [])
      + ListNodes(objs, depth, children[1..])
  }

  function ObjectEntries(s: Server, paths: seq<Path>): (r: seq<ObjectEntry>)
    requires forall i :: 0 <= i < |paths| ==> paths[i] in s.objects
    ensures |r| == |paths|
    ensures forall i :: 0 <= i < |r| ==>
              r[i] == ObjectEntry(paths[i], IfaceEntries(s.showExperimental, s.objects[paths[i]].ifaces))
  {
    if paths == [] then []
    else
      [ObjectEntry(paths[0], IfaceEntries(s.showExperimental, s.objects[paths[0]].ifaces))]
      + ObjectEntries(s, paths[1..])
  }

  lemma {:induction false} ListedAreRegistered(objs: Table, depth: nat, children: seq<Path>)
    ensures forall q :: q in ListNodes(objs, depth, children) ==> q in objs
    decreases |Deeper(objs, depth)|, |children|
  {
    if children != [] {
      var c := children[0];
      if c in objs && depth < |c| {
        DeeperShrinks(objs, depth, c);
        ListedAreRegistered(objs, |c|, objs[c].links.children);
      }
      ListedAreRegistered(objs, depth, children[1..]);
    }
  }

  /** `get_objects`, which the object manager at "/" answers GetManagedObjects with. */
  function GetManagedObjects(s: Server): Message
    requires ROOT in s.objects
  {
    ListedAreRegistered(s.objects, 0, s.objects[ROOT].links.children);
    ManagedObjects(ObjectEntries(s, ListNodes(s.objects, 0, s.objects[ROOT].links.children)))
  }

  function ShownMembers(show: bool, ms: seq<Member>): seq<Name> {
    if ms == [] then []
    else (if Hidden(show, ms[0].experimental) then [] else [ms[0].name]) + ShownMembers(show, ms[1..])
  }

  function ShownProperties(show: bool, ps: seq<Property>): seq<Name> {
    if ps == [] then []
    else (if Hidden(show, ps[0].experimental) then [] else [ps[0].name]) + ShownProperties(show, ps[1..])
  }

  function DocIfaces(show: bool, ifaces: seq<Iface>): seq<DocIface> {
    if ifaces == [] then []
    else
      var d := ifaces[0].decl;
      [DocIface(d.name, ShownMembers(show, d.methods), ShownMembers(show, d.signals), ShownProperties(show, Properties(d)))]
      + DocIfaces(show, ifaces[1..])
  }

  /** The first elements below `p` of the registered paths, as the bus library lists them. */
  function NextElements(objs: Table, p: Path): set<string> {
    set q | q in objs && p < q :: q[|p|]
  }

  /** `generate_introspection_xml`. */
  function Generate(objs: Table, show: bool, p: Path): Doc
    requires p in objs
  {
    Doc(DocIfaces(show, objs[p].ifaces), NextElements(objs, p))
  }

  /** `introspect`: answers from the cached text, and fills the cache when it is empty. */
  function Introspect(s: Server, p: Path): Server
    requires p in s.objects
  {
    if s.objects[p].cache.Empty?
    then s.(objects := s.objects[p := s.objects[p].(cache := Text(Generate(s.objects, s.showExperimental, p)))])
    else s
  }
}
