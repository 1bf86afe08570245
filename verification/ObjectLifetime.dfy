/** Runs of public calls on the object server, in any order of registration,
    and what every run keeps of an object: its reference count is the number of
    its interfaces other than the two built-in ones, and it is registered for as
    long as there is one.
 */
module ObjectLifetime {
  import opened Bus
  import opened ObjectModel
  import opened ObjectCore

  datatype Call =
    | RegisterCall(path: Path, decl: Decl, state: map<Name, Variant>)
    | UnregisterCall(path: Path, name: Name)
    | ChangeCall(path: Path, iface: Name, prop: Name, value: Option<Variant>, flush: bool)
    | IntrospectCall(path: Path)
    | AttachCall

  function Perform(s: Server, call: Call): (r: Server)
  {
    match call
    case RegisterCall(p, d, state) => Register(s, p, d, state).server
    case UnregisterCall(p, name) => Unregister(s, p, name).server
    case ChangeCall(p, iface, prop, value, flush) => ChangeProperty(s, p, iface, prop, value, flush)
    case IntrospectCall(p) => if p in s.objects then Introspect(s, p) else s
    case AttachCall => Attach(s)
  }

  function Run(s: Server, calls: seq<Call>): (r: Server)
  {
    if calls == [] then s else Perform(Run(s, calls[..|calls| - 1]), calls[|calls| - 1])
  }

  function Started(showExperimental: bool): Server {
    Server(map[], false, showExperimental, [])
  }

  /** The names that only the server itself registers and unregisters. */
  predicate Reserved(p: Path, name: Name) {
    Builtin(name) || (p == [] && name == OBJECT_MANAGER)
  }

  /** What the server expects of its users: reserved names are left alone, and the manager is attached once. */
  predicate Legal(s: Server, call: Call) {
    match call
    case RegisterCall(p, d, _) => !Reserved(p, d.name)
    case UnregisterCall(p, name) => !Reserved(p, name)
    case AttachCall => !s.attached
    case _ => true
  }

  ghost predicate LegalRun(s: Server, calls: seq<Call>)
  {
    forall i :: 0 <= i < |calls| ==> Legal(Run(s, calls[..i]), calls[i])
  }

  // ---------------------------------------------------------------------
  // Counting interfaces

  function UserCount(ifaces: seq<Iface>): nat {
    if ifaces == [] then 0
    else (if Builtin(ifaces[0].decl.name) then 0 else 1) + UserCount(ifaces[1..])
  }

  lemma {:induction false} UserCountConcat(a: seq<Iface>, b: seq<Iface>)
    ensures UserCount(a + b) == UserCount(a) + UserCount(b)
  {
    if a == [] {
      assert a + b == b;
    } else {
      assert (a + b)[1..] == a[1..] + b;
      UserCountConcat(a[1..], b);
    }
  }

  lemma {:induction false} UserCountWithout(ifaces: seq<Iface>, k: nat)
    requires k < |ifaces|
    ensures UserCount(Without(ifaces, k)) == UserCount(ifaces) - if Builtin(ifaces[k].decl.name) then 0 else 1
  {
    var w := Without(ifaces, k);
    if k == 0 {
      assert w == ifaces[1..];
    } else {
      UserCountWithout(ifaces[1..], k - 1);
      assert w[1..] == Without(ifaces[1..], k - 1);
    }
  }

  lemma UserCountOfOne(i: Iface)
    ensures UserCount([i]) == if Builtin(i.decl.name) then 0 else 1
  {
    assert [i][1..] == [];
  }

  lemma {:induction false} UserCountOfNames(a: seq<Iface>, b: seq<Iface>)
    requires |a| == |b| && forall i :: 0 <= i < |a| ==> a[i].decl == b[i].decl
    ensures UserCount(a) == UserCount(b)
  {
    if a != [] {
      UserCountOfNames(a[1..], b[1..]);
    }
  }

  ghost predicate UniqueNames(ifaces: seq<Iface>) {
    forall i, j :: 0 <= i < j < |ifaces| ==> ifaces[i].decl.name != ifaces[j].decl.name
  }

  /** The count of an object is right, and no interface name occurs twice on it. */
  ghost predicate Counted(n: Node) {
    && n.refcount == UserCount(n.ifaces) >= 1
    && UniqueNames(n.ifaces)
    && Has(n.ifaces, INTROSPECTABLE)
  }

  ghost predicate AllCounted(objs: Table) {
    forall p :: p in objs ==> Counted(objs[p])
  }

  ghost predicate ManagerKept(s: Server) {
    s.attached <==> [] in s.objects && Has(s.objects[[]].ifaces, OBJECT_MANAGER)
  }

  ghost predicate Sound(s: Server) {
    Calm(s.objects) && AllCounted(s.objects) && ManagerKept(s)
  }

  // ---------------------------------------------------------------------
  // Steps

  lemma HasAppended(a: seq<Iface>, i: Iface, name: Name)
    ensures Has(a + [i], name) <==> Has(a, name) || i.decl.name == name
  {
    var k := Find(a, name);
    var j := Find(a + [i], name);
    if Has(a, name) {
      assert (a + [i])[k] == a[k];
    }
    if i.decl.name == name {
      assert (a + [i])[|a|] == i;
    }
    if j < |a| {
      assert (a + [i])[j] == a[j];
    }
  }

  lemma HasWithout(a: seq<Iface>, k: nat, name: Name)
    requires k < |a| && UniqueNames(a)
    ensures Has(Without(a, k), name) <==> Has(a, name) && name != a[k].decl.name
  {
    var j, i := Find(Without(a, k), name), Find(a, name);
    if j < |Without(a, k)| {
      assert Without(a, k)[j] == a[if j < k then j else j + 1];
    }
    if i < |a| && i != k {
      assert Without(a, k)[if i < k then i else i - 1] == a[i];
    }
  }

  lemma WithoutUnique(ifaces: seq<Iface>, k: nat)
    requires k < |ifaces| && UniqueNames(ifaces)
    ensures UniqueNames(Without(ifaces, k))
    ensures forall i :: 0 <= i < |Without(ifaces, k)| ==> Without(ifaces, k)[i] in ifaces
  {
    var w := Without(ifaces, k);
    forall i, j | 0 <= i < j < |w| ensures w[i].decl.name != w[j].decl.name {
      assert w[i] == ifaces[if i < k then i else i + 1];
      assert w[j] == ifaces[if j < k then j else j + 1];
    }
  }

  lemma AppendCounted(n: Node, d: Decl, state: map<Name, Variant>)
    requires Counted(n) && !Builtin(d.name) && !Has(n.ifaces, d.name)
    ensures Counted(Accepted(n.(refcount := n.refcount + 1), d, state))
  {
    var ifaces := n.ifaces + [Iface(d, [], state)];
    var props := PropertiesIface(ifaces, d);
    UserCountConcat(n.ifaces, [Iface(d, [], state)]);
    UserCountConcat(ifaces, props);
    HasAppended(n.ifaces, Iface(d, [], state), INTROSPECTABLE);
    if props == [] {
      assert ifaces + props == ifaces;
    } else {
      HasAppended(ifaces, props[0], INTROSPECTABLE);
    }
  }

  lemma FreshCounted(n: Node, d: Decl, state: map<Name, Variant>)
    requires n.refcount == 1 && n.ifaces == [Iface(INTROSPECTABLE_DECL, [], map[])] && !Builtin(d.name)
    ensures Counted(Accepted(n, d, state))
  {
    var ifaces := n.ifaces + [Iface(d, [], state)];
    var props := PropertiesIface(ifaces, d);
    assert ifaces[0].decl.name == INTROSPECTABLE && (ifaces + props)[0].decl.name == INTROSPECTABLE;
    UserCountConcat(n.ifaces, [Iface(d, [], state)]);
    UserCountConcat(ifaces, props);
    UserCountOfOne(n.ifaces[0]);
    UserCountOfOne(Iface(d, [], state));
    UserCountOfOne(Iface(PROPERTIES_DECL, [], map[]));
    assert UniqueNames(ifaces + props);
  }

  lemma ReleaseCounted(n: Node, name: Name)
    requires Counted(n) && !Builtin(name) && Has(n.ifaces, name) && n.refcount > 1
    ensures Counted(Released(n, name))
  {
    var k := Find(n.ifaces, name);
    UserCountWithout(n.ifaces, k);
    HasWithout(n.ifaces, k, INTROSPECTABLE);
    WithoutUnique(n.ifaces, k);
  }

  ghost predicate CountedExcept(objs: Table, p: Path) {
    forall q :: q in objs && q != p ==> Counted(objs[q]) && Quiet(objs[q])
  }

  /** Every object but `p` is as it was, and `p` is in order: so all are. */
  lemma StoreCounted(objs: Table, p: Path, n: Node, r: Table)
    requires CountedExcept(objs, p) && Counted(n) && Quiet(n) && SameCores(objs[p := n], r)
    ensures AllCounted(r) && Calm(r)
  {
    forall q | q in r ensures Counted(r[q]) && Quiet(r[q]) {
      assert SameCore(objs[p := n][q], r[q]);
    }
  }

  lemma RemoveCounted(objs: Table, p: Path, r: Table)
    requires p in objs && CountedExcept(objs, p) && SameCores(Removed(objs, p), r)
    ensures AllCounted(r) && Calm(r)
  {
    forall q | q in r ensures Counted(r[q]) && Quiet(r[q]) {
      RemovedBody(objs, p, q);
      assert SameCore(Removed(objs, p)[q], r[q]);
    }
  }

  lemma InsertCounted(objs: Table, p: Path)
    requires AllCounted(objs) && Calm(objs)
    ensures CountedExcept(Inserted(objs, p), p)
  {
    InsertedCalm(objs, p);
    var t := Inserted(objs, p);
    forall q | q in t && q != p ensures Counted(t[q]) && Quiet(t[q]) {
      assert SameBody(objs[p := FRESH_NODE][q], t[q]);
      assert Counted(objs[q]);
    }
  }

  lemma AcceptedQuiet(n: Node, d: Decl, state: map<Name, Variant>)
    requires Quiet(n)
    ensures Quiet(Accepted(n, d, state))
  {
  }

  lemma RegisterCounted(s: Server, p: Path, d: Decl, state: map<Name, Variant>, r: Outcome)
    requires Sound(s) && !Builtin(d.name) && RegisterEffect(s, p, d, state, r)
    ensures AllCounted(r.server.objects) && Calm(r.server.objects)
  {
    if !ValidPath(p) || !ValidInterface(d.name) {
    } else if p in s.objects {
      var n := s.objects[p];
      assert Counted(n) && Quiet(n);
      if Accepts(s.showExperimental, n, d) {
        AppendCounted(n, d, state);
        var n1 := n.(refcount := n.refcount + 1);
        assert Quiet(n1);
        AcceptedQuiet(n1, d, state);
        StoreCounted(s.objects, p, Accepted(n1, d, state), r.server.objects);
      }
    } else {
      RegisterNewCounted(s, p, d, state, r);
    }
  }

  lemma RegisterNewCounted(s: Server, p: Path, d: Decl, state: map<Name, Variant>, r: Outcome)
    requires Sound(s) && !Builtin(d.name) && p !in s.objects && ValidPath(p) && ValidInterface(d.name)
    requires RegisterEffect(s, p, d, state, r)
    ensures AllCounted(r.server.objects) && Calm(r.server.objects)
  {
    FreshRefCore(s, p);
    InsertCounted(s.objects, p);
    var t, n := Inserted(s.objects, p), FreshNode(s.objects, p);
    if Accepts(s.showExperimental, n, d) {
      FreshCounted(n, d, state);
      AcceptedQuiet(n, d, state);
      StoreCounted(t, p, Accepted(n, d, state), r.server.objects);
    } else {
      RemoveCounted(t, p, r.server.objects);
    }
  }

  lemma UnregisterCounted(s: Server, p: Path, name: Name, r: Outcome)
    requires Sound(s) && !Builtin(name) && UnregisterEffect(s, p, name, r)
    ensures AllCounted(r.server.objects) && Calm(r.server.objects)
  {
    if p in s.objects && Has(s.objects[p].ifaces, name) {
      var n := s.objects[p];
      assert Counted(n) && Quiet(n);
      if n.refcount > 1 {
        ReleaseCounted(n, name);
        assert Quiet(Released(n, name));
        StoreCounted(s.objects, p, Released(n, name), r.server.objects);
      } else {
        RemoveCounted(s.objects, p, r.server.objects);
      }
    }
  }

  lemma ChangeCounted(s: Server, p: Path, iface: Name, name: Name, value: Option<Variant>, r: Server)
    requires Sound(s) && ChangeEffect(s, p, iface, name, value, r)
    ensures AllCounted(r.objects) && Calm(r.objects)
  {
    if p in s.objects && Has(s.objects[p].ifaces, iface) {
      var n := s.objects[p];
      var m := WithState(n, Find(n.ifaces, iface), name, value);
      assert Counted(n) && Quiet(n);
      UserCountOfNames(n.ifaces, m.ifaces);
      SameNamesSameFinds(n.ifaces, m.ifaces, INTROSPECTABLE);
      StoreCounted(s.objects, p, m, r.objects);
    }
  }

  lemma ManagerCounted(n: Node)
    requires !Has(n.ifaces, OBJECT_MANAGER) && UniqueNames(n.ifaces) && Has(n.ifaces, INTROSPECTABLE)
    requires n.refcount == UserCount(n.ifaces) + 1
    ensures Counted(WithIface(n, MANAGER_DECL, map[]))
  {
    UserCountConcat(n.ifaces, [Iface(MANAGER_DECL, [], map[])]);
    UserCountOfOne(Iface(MANAGER_DECL, [], map[]));
    HasAppended(n.ifaces, Iface(MANAGER_DECL, [], map[]), INTROSPECTABLE);
  }

  lemma AttachCounted(s: Server, r: Server)
    requires Sound(s) && !s.attached && AttachEffect(s, r)
    ensures AllCounted(r.objects) && Calm(r.objects)
  {
    if [] in s.objects {
      var n := s.objects[[]];
      assert Counted(n) && Quiet(n);
      var n1 := n.(refcount := n.refcount + 1);
      ManagerCounted(n1);
      StoreCounted(s.objects, [], WithIface(n1, MANAGER_DECL, map[]), r.objects);
    } else {
      AttachFreshCounted(s, r);
    }
  }

  lemma AttachFreshCounted(s: Server, r: Server)
    requires Sound(s) && [] !in s.objects && AttachEffect(s, r)
    ensures AllCounted(r.objects) && Calm(r.objects)
  {
    FreshRefCore(s, []);
    InsertCounted(s.objects, []);
    var n := FreshNode(s.objects, []);
    UserCountOfOne(n.ifaces[0]);
    assert n.ifaces[0].decl.name == INTROSPECTABLE;
    ManagerCounted(n);
    StoreCounted(Inserted(s.objects, []), [], WithIface(n, MANAGER_DECL, map[]), r.objects);
  }

  // ---------------------------------------------------------------------
  // The manager stays attached

  /** Whether the object at "/" carries the object manager. */
  ghost predicate Manages(objs: Table) {
    [] in objs && Has(objs[[]].ifaces, OBJECT_MANAGER)
  }

  lemma StoreManages(objs: Table, p: Path, n: Node, r: Table)
    requires SameCores(objs[p := n], r)
    requires p == [] ==> (Has(n.ifaces, OBJECT_MANAGER) <==> Manages(objs))
    ensures Manages(r) <==> Manages(objs)
  {
    if [] in r {
      assert SameCore(objs[p := n][[]], r[[]]);
    }
  }

  lemma AcceptedManager(n: Node, d: Decl, state: map<Name, Variant>)
    requires d.name != OBJECT_MANAGER
    ensures Has(Accepted(n, d, state).ifaces, OBJECT_MANAGER) <==> Has(n.ifaces, OBJECT_MANAGER)
  {
    var ifaces := n.ifaces + [Iface(d, [], state)];
    HasAppended(n.ifaces, Iface(d, [], state), OBJECT_MANAGER);
    var props := PropertiesIface(ifaces, d);
    if props != [] {
      HasAppended(ifaces, props[0], OBJECT_MANAGER);
    } else {
      assert ifaces + props == ifaces;
    }
  }

  lemma InsertedManages(objs: Table, p: Path)
    requires Calm(objs) && p !in objs
    ensures Manages(Inserted(objs, p)) <==> Manages(objs)
  {
    InsertedCalm(objs, p);
    if [] in objs {
      assert SameBody(objs[p := FRESH_NODE][[]], Inserted(objs, p)[[]]);
    } else if p == [] {
      assert SameBody(objs[p := FRESH_NODE][[]], Inserted(objs, p)[[]]);
    }
  }

  lemma RemovedManages(objs: Table, p: Path, r: Table)
    requires p in objs && SameCores(Removed(objs, p), r) && (p == [] ==> !Manages(objs))
    ensures Manages(r) <==> Manages(objs)
  {
    if [] in objs && p != [] {
      RemovedBody(objs, p, []);
      assert SameCore(Removed(objs, p)[[]], r[[]]);
    }
  }

  lemma RegisterManages(s: Server, p: Path, d: Decl, state: map<Name, Variant>, r: Outcome)
    requires Sound(s) && !Reserved(p, d.name) && RegisterEffect(s, p, d, state, r)
    ensures Manages(r.server.objects) <==> Manages(s.objects)
  {
    if !ValidPath(p) || !ValidInterface(d.name) {
    } else if p in s.objects {
      var n := s.objects[p];
      if Accepts(s.showExperimental, n, d) {
        var n1 := n.(refcount := n.refcount + 1);
        if p == [] { AcceptedManager(n1, d, state); }
        StoreManages(s.objects, p, Accepted(n1, d, state), r.server.objects);
      }
    } else {
      RegisterNewManages(s, p, d, state, r);
    }
  }

  lemma RegisterNewManages(s: Server, p: Path, d: Decl, state: map<Name, Variant>, r: Outcome)
    requires Sound(s) && !Reserved(p, d.name) && p !in s.objects && ValidPath(p) && ValidInterface(d.name)
    requires RegisterEffect(s, p, d, state, r)
    ensures Manages(r.server.objects) <==> Manages(s.objects)
  {
    FreshRefCore(s, p);
    InsertedManages(s.objects, p);
    var t, n := Inserted(s.objects, p), FreshNode(s.objects, p);
    if Accepts(s.showExperimental, n, d) {
      if p == [] { AcceptedManager(n, d, state); }
      StoreManages(t, p, Accepted(n, d, state), r.server.objects);
    } else {
      RemovedManages(t, p, r.server.objects);
    }
  }

  lemma {:induction false} OnlyUser(ifaces: seq<Iface>, a: Name, b: Name)
    requires UniqueNames(ifaces) && UserCount(ifaces) == 1 && !Builtin(a) && !Builtin(b)
    requires Has(ifaces, a) && Has(ifaces, b)
    ensures a == b
  {
    var k := Find(ifaces, a);
    UserCountWithout(ifaces, k);
    HasWithout(ifaces, k, b);
    if a != b {
      UserCountWithout(Without(ifaces, k), Find(Without(ifaces, k), b));
      assert false;
    }
  }

  lemma UnregisterManages(s: Server, p: Path, name: Name, r: Outcome)
    requires Sound(s) && !Reserved(p, name) && UnregisterEffect(s, p, name, r)
    ensures Manages(r.server.objects) <==> Manages(s.objects)
  {
    if p in s.objects && Has(s.objects[p].ifaces, name) {
      var n := s.objects[p];
      assert Counted(n);
      if n.refcount > 1 {
        HasWithout(n.ifaces, Find(n.ifaces, name), OBJECT_MANAGER);
        StoreManages(s.objects, p, Released(n, name), r.server.objects);
      } else {
        if p == [] && Manages(s.objects) { OnlyUser(n.ifaces, name, OBJECT_MANAGER); }
        RemovedManages(s.objects, p, r.server.objects);
      }
    }
  }

  lemma SameNamesSameFinds(a: seq<Iface>, b: seq<Iface>, name: Name)
    requires |a| == |b| && forall i :: 0 <= i < |a| ==> a[i].decl == b[i].decl
    ensures Find(a, name) == Find(b, name)
  {
    FindAt(a, name, Find(b, name));
  }

  lemma ChangeManages(s: Server, p: Path, iface: Name, name: Name, value: Option<Variant>, r: Server)
    requires Sound(s) && ChangeEffect(s, p, iface, name, value, r)
    ensures Manages(r.objects) <==> Manages(s.objects)
  {
    if p in s.objects && Has(s.objects[p].ifaces, iface) {
      var n := s.objects[p];
      var m := WithState(n, Find(n.ifaces, iface), name, value);
      SameNamesSameFinds(n.ifaces, m.ifaces, OBJECT_MANAGER);
      StoreManages(s.objects, p, m, r.objects);
    }
  }

  lemma AttachManages(s: Server, r: Server)
    requires Sound(s) && AttachEffect(s, r)
    ensures Manages(r.objects)
  {
    var n := if [] in s.objects then s.objects[[]].(refcount := s.objects[[]].refcount + 1) else FreshNode(s.objects, []);
    var t := if [] in s.objects then s.objects else Inserted(s.objects, []);
    FreshRefCoreIfNew(s);
    var m := WithIface(n, MANAGER_DECL, map[]);
    HasAppended(n.ifaces, Iface(MANAGER_DECL, [], map[]), OBJECT_MANAGER);
    assert SameCores(t[[] := m], r.objects);
    assert SameCore(t[[] := m][[]], r.objects[[]]);
  }

  lemma FreshRefCoreIfNew(s: Server)
    requires Sound(s)
    ensures [] !in s.objects ==> FreshNode(s.objects, []).refcount == 1
  {
    if [] !in s.objects { FreshRefCore(s, []); }
  }

  // ---------------------------------------------------------------------
  // Every call, every run

  lemma RegisterSound(s: Server, p: Path, d: Decl, state: map<Name, Variant>)
    requires Sound(s) && !Reserved(p, d.name)
    ensures Sound(Register(s, p, d, state).server)
  {
    assert p in s.objects ==> Counted(s.objects[p]);
    RegisterHasEffect(s, p, d, state);
    var r := Register(s, p, d, state);
    RegisterCounted(s, p, d, state, r);
    RegisterManages(s, p, d, state, r);
  }

  lemma UnregisterSound(s: Server, p: Path, name: Name)
    requires Sound(s) && !Reserved(p, name)
    ensures Sound(Unregister(s, p, name).server)
  {
    assert p in s.objects ==> Counted(s.objects[p]);
    UnregisterHasEffect(s, p, name);
    var r := Unregister(s, p, name);
    UnregisterCounted(s, p, name, r);
    UnregisterManages(s, p, name, r);
  }

  lemma ChangeSound(s: Server, p: Path, iface: Name, name: Name, value: Option<Variant>, flush: bool)
    requires Sound(s)
    ensures Sound(ChangeProperty(s, p, iface, name, value, flush))
  {
    ChangeHasEffect(s, p, iface, name, value, flush);
    var r := ChangeProperty(s, p, iface, name, value, flush);
    ChangeCounted(s, p, iface, name, value, r);
    ChangeManages(s, p, iface, name, value, r);
  }

  lemma AttachSound(s: Server)
    requires Sound(s) && !s.attached
    ensures Sound(Attach(s))
  {
    AttachHasEffect(s);
    AttachCounted(s, Attach(s));
    AttachManages(s, Attach(s));
  }

  lemma IntrospectSound(s: Server, p: Path)
    requires Sound(s) && p in s.objects
    ensures Sound(Introspect(s, p))
  {
    if s.objects[p].cache.Empty? {
      CacheSound(s, p, Text(Generate(s.objects, s.showExperimental, p)));
    }
  }

  lemma CacheSound(s: Server, p: Path, cache: Cache)
    requires Sound(s) && p in s.objects
    ensures Sound(s.(objects := s.objects[p := s.objects[p].(cache := cache)]))
  {
    var n := s.objects[p].(cache := cache);
    assert Counted(s.objects[p]) && Quiet(s.objects[p]);
    StoreCounted(s.objects, p, n, s.objects[p := n]);
    StoreManages(s.objects, p, n, s.objects[p := n]);
  }

  /** Every legal call keeps the counts right and the manager attached. */
  lemma PerformSound(s: Server, call: Call)
    requires Sound(s) && Legal(s, call)
    ensures Sound(Perform(s, call))
  {
    match call
    case RegisterCall(p, d, state) => RegisterSound(s, p, d, state);
    case UnregisterCall(p, name) => UnregisterSound(s, p, name);
    case ChangeCall(p, iface, prop, value, flush) => ChangeSound(s, p, iface, prop, value, flush);
    case IntrospectCall(p) => if p in s.objects { IntrospectSound(s, p); }
    case AttachCall => AttachSound(s);
  }

  /** In every legal run, whatever the order of registration, each object's reference count is the number
      of its interfaces other than the built-in two and is positive, no interface name occurs twice on an
      object, and the manager is attached exactly when "/" carries it. */
  lemma {:induction false} RunsAreSound(show: bool, calls: seq<Call>)
    requires LegalRun(Started(show), calls)
    ensures Sound(Run(Started(show), calls))
  {
    if calls != [] {
      var k := |calls| - 1;
      var rest := calls[..k];
      forall i | 0 <= i < |rest| ensures Legal(Run(Started(show), rest[..i]), rest[i]) {
        assert rest[..i] == calls[..i];
      }
      RunsAreSound(show, rest);
      PerformSound(Run(Started(show), rest), calls[k]);
    }
  }
}
