/** What each server operation does to the table of objects apart from the
    lists of unpublished and removed interfaces.

    Between public calls no property change is waiting to be sent (`Calm`), and
    then publishing touches nothing but those two lists.  Everything else an
    operation does is a table operation, and the lemmas here say which one.
 */
module ObjectCore {
  import opened Bus
  import opened ObjectModel

  ghost predicate Quiet(n: Node) {
    !n.pendingProp && forall i :: 0 <= i < |n.ifaces| ==> n.ifaces[i].pending == []
  }

  /** No property change is waiting to be sent. */
  ghost predicate Calm(objs: Table) {
    forall p :: p in objs ==> Quiet(objs[p])
  }

  /** The nodes differ at most in what they owe the bus. */
  ghost predicate SameCore(a: Node, b: Node) {
    && a.refcount == b.refcount && a.ifaces == b.ifaces && a.links == b.links
    && a.pendingProp == b.pendingProp && a.cache == b.cache
  }

  ghost predicate SameCores(a: Table, b: Table) {
    a.Keys == b.Keys && forall p :: p in a ==> SameCore(a[p], b[p])
  }

  lemma SameCoresTransitive(a: Table, b: Table, c: Table)
    requires SameCores(a, b) && SameCores(b, c)
    ensures SameCores(a, c)
  {
    forall p | p in a ensures SameCore(a[p], c[p]) {
      assert SameCore(a[p], b[p]) && SameCore(b[p], c[p]);
    }
  }

  lemma {:induction false} EmitAddedCore(s: Server, p: Path)
    requires p in s.objects
    ensures SameCores(s.objects, EmitAdded(s, p).objects)
    decreases |p|
  {
    if s.attached && p != [] {
      var up := s.objects[p].links.parent;
      if up.Some? && |up.value| < |p| && up.value in s.objects && s.objects[up.value].added != [] {
        EmitAddedCore(s, up.value);
      }
    }
  }

  lemma SendAddedCore(s: Server, p: Path)
    requires p in s.objects
    ensures SameCores(s.objects, SendAdded(s, p).objects)
  {
    if s.objects[p].added != [] { EmitAddedCore(s, p); }
  }

  lemma SendRemovedCore(s: Server, p: Path)
    requires p in s.objects
    ensures SameCores(s.objects, SendRemoved(s, p).objects)
  {
  }

  lemma ProcessChangesCore(s: Server, p: Path)
    requires p in s.objects && !s.objects[p].pendingProp
    ensures SameCores(s.objects, ProcessChanges(s, p).objects)
  {
    var s1 := SendAdded(s, p);
    SendAddedCore(s, p);
    assert SameCore(s.objects[p], s1.objects[p]);
    SendRemovedCore(s1, p);
    SameCoresTransitive(s.objects, s1.objects, SendRemoved(s1, p).objects);
  }

  /** The node that registering an interface leaves, up to publication. */
  function WithIface(n: Node, d: Decl, state: map<Name, Variant>): Node {
    n.(ifaces := n.ifaces + [Iface(d, [], state)])
  }

  lemma UpdateSameCore(objs: Table, p: Path, a: Node, b: Node)
    requires SameCore(a, b)
    ensures SameCores(objs[p := a], objs[p := b])
  {
  }

  lemma PublishCore(s: Server, p: Path, n: Node, owing: Node)
    requires p in s.objects && n.links == s.objects[p].links
    requires SameCore(n, owing) && !n.pendingProp
    ensures SameCores(s.objects[p := n], AddPending(s, p, owing).objects)
  {
    var s2 := s.(objects := s.objects[p := owing]);
    ProcessChangesCore(s2, p);
    UpdateSameCore(s.objects, p, n, owing);
    SameCoresTransitive(s.objects[p := n], s2.objects, ProcessChanges(s2, p).objects);
  }

  lemma AddInterfaceCore(s: Server, p: Path, d: Decl, state: map<Name, Variant>)
    requires p in s.objects && !s.objects[p].pendingProp
    requires SomethingVisible(s.showExperimental, d)
    ensures SameCores(s.objects[p := WithIface(s.objects[p], d, state)], AddInterface(s, p, d, state).server.objects)
  {
    var n := WithIface(s.objects[p], d, state);
    if s.objects[p].links.parent.Some? {
      PublishCore(s, p, n, n.(added := n.added + [d.name]));
    }
  }

  lemma RemoveInterfaceCore(s: Server, p: Path, name: Name)
    requires p in s.objects && !s.objects[p].pendingProp
    requires Has(s.objects[p].ifaces, name)
    ensures var n := s.objects[p];
            SameCores(s.objects[p := n.(ifaces := Without(n.ifaces, Find(n.ifaces, name)))],
                      RemoveInterface(s, p, name).server.objects)
  {
    var n := s.objects[p];
    var k := Find(n.ifaces, name);
    var n1 := n.(ifaces := Without(n.ifaces, k));
    if name in n.added {
      UpdateSameCore(s.objects, p, n1, n1.(added := RemoveFirst(n1.added, name)));
    } else if n.links.parent.Some? {
      var s1 := s.(out := s.out + ChangeMessage(p, n.ifaces[k]));
      PublishCore(s1, p, n1, n1.(removed := [name] + n1.removed));
    }
  }

  // ---------------------------------------------------------------------
  // Property changes

  lemma FlushCore(s: Server, p: Path, n: Node, k: nat, prop: Property)
    requires p in s.objects && Quiet(n) && k < |n.ifaces|
    requires SameCore(Queued(n, k, prop), s.objects[p])
    ensures FlushProperties(s, p).objects.Keys == s.objects.Keys
    ensures SameCore(n, FlushProperties(s, p).objects[p])
    ensures forall q :: q in s.objects && q != p ==> FlushProperties(s, p).objects[q] == s.objects[q]
  {
    assert Quieted(Queued(n, k, prop).ifaces) == n.ifaces;
  }

  lemma FlushNowCore(s: Server, p: Path, n: Node, k: nat, prop: Property)
    requires p in s.objects && n == s.objects[p] && Quiet(n) && k < |n.ifaces|
    ensures SameCores(s.objects, FlushProperties(s.(objects := s.objects[p := Queued(n, k, prop)]), p).objects)
  {
    FlushCore(s.(objects := s.objects[p := Queued(n, k, prop)]), p, n, k, prop);
  }

  lemma PendingChangeCore(s: Server, p: Path, n: Node, k: nat, prop: Property)
    requires p in s.objects && n == s.objects[p] && Quiet(n) && k < |n.ifaces|
    ensures SameCores(s.objects, AddPending(s, p, Queued(n, k, prop)).objects)
  {
    var s1 := s.(objects := s.objects[p := Queued(n, k, prop)]);
    var s2 := SendAdded(s1, p);
    SendAddedCore(s1, p);
    assert SameCore(s1.objects[p], s2.objects[p]);
    FlushCore(s2, p, n, k, prop);
    var s3 := FlushProperties(s2, p);
    QueuedSameCores(s.objects, p, Queued(n, k, prop), s2.objects, s3.objects);
    SendRemovedCore(s3, p);
    SameCoresTransitive(s.objects, s3.objects, SendRemoved(s3, p).objects);
  }

  lemma QueuedSameCores(a: Table, p: Path, n: Node, b: Table, c: Table)
    requires p in a && SameCores(a[p := n], b) && c.Keys == b.Keys
    requires SameCore(a[p], c[p]) && forall q :: q in b && q != p ==> c[q] == b[q]
    ensures SameCores(a, c)
  {
    forall q | q in a ensures SameCore(a[q], c[q]) {
      assert SameCore(a[p := n][q], b[q]);
    }
  }

  /** Announcing a change sends it at once, so the object is as before up to publication. */
  lemma EmitChangedCore(s: Server, p: Path, iface: Name, name: Name, flush: bool)
    requires Calm(s.objects)
    ensures SameCores(s.objects, EmitChanged(s, p, iface, name, flush).objects)
  {
    if p in s.objects {
      var n := s.objects[p];
      var k := Find(n.ifaces, iface);
      if k < |n.ifaces| && !(s.attached && iface in n.added) {
        var found := FindProperty(s.showExperimental, Properties(n.ifaces[k].decl), name);
        if found.Some? {
          assert Quiet(n);
          if flush {
            FlushNowCore(s, p, n, k, found.value);
          } else {
            PendingChangeCore(s, p, n, k, found.value);
          }
        }
      }
    }
  }

  lemma ChangePropertyCore(s: Server, p: Path, iface: Name, name: Name, value: Option<Variant>, flush: bool)
    requires Calm(s.objects)
    ensures var r := ChangeProperty(s, p, iface, name, value, flush);
            if p in s.objects && Has(s.objects[p].ifaces, iface)
            then SameCores(s.objects[p := WithState(s.objects[p], Find(s.objects[p].ifaces, iface), name, value)], r.objects)
            else r == s
  {
    if p in s.objects && Has(s.objects[p].ifaces, iface) {
      var n := s.objects[p];
      var n1 := WithState(n, Find(n.ifaces, iface), name, value);
      var objs := s.objects[p := n1];
      assert Quiet(n);
      assert Quiet(n1);
      EmitChangedCore(s.(objects := objs), p, iface, name, flush);
    }
  }

  // ---------------------------------------------------------------------
  // Registering and removing paths

  /** The table after a new path is registered and linked. */
  function Inserted(objs: Table, p: Path): (r: Table)
    ensures r.Keys == objs.Keys + {p}
  {
    Invalidate(objs[p := FRESH_NODE], p).objects
  }

  /** The table after a path is removed. */
  function Removed(objs: Table, p: Path): (r: Table)
    requires p in objs
    ensures r.Keys == objs.Keys - {p}
  {
    Drop(Invalidate(objs, p).objects, p)
  }

  /** Agreement up to publication, and at `p` only of the links. */
  ghost predicate SameOff(a: Table, b: Table, p: Path) {
    a.Keys == b.Keys && forall q :: q in a ==> SameUnless(q == p, a[q], b[q])
  }

  ghost predicate SameUnless(onlyLinks: bool, m: Node, n: Node) {
    m.links == n.links && (onlyLinks || SameCore(m, n))
  }

  lemma UpdateSameOff(a: Table, b: Table, p: Path, q: Path, m: Node, n: Node)
    requires SameOff(a, b, p) && SameUnless(q == p, m, n)
    ensures SameOff(a[q := m], b[q := n], p)
  {
  }

  lemma LinkSameOff(a: Table, b: Table, p: Path, d: Path, c: Path)
    requires SameOff(a, b, p) && d in a && |d| < |c|
    ensures SameOff(Link(a, d, c), Link(b, d, c), p)
  {
    assert SameUnless(d == p, a[d], b[d]);
    var m, n := a[d].(cache := Empty), b[d].(cache := Empty);
    UpdateSameOff(a, b, p, d, m, n);
    if c in a && c !in m.links.children {
      assert SameUnless(c == p, a[c], b[c]);
      var x, y := WithChildren(m, [c] + m.links.children), WithChildren(n, [c] + n.links.children);
      UpdateSameOff(a[d := m], b[d := n], p, d, x, y);
      UpdateSameOff(a[d := m][d := x], b[d := n][d := y], p, c, WithParent(a[c], Some(d)), WithParent(b[c], Some(d)));
    }
  }

  lemma {:induction false} InvalidateSameOff(a: Table, b: Table, p: Path, c: Path)
    requires SameOff(a, b, p)
    ensures SameOff(Invalidate(a, c).objects, Invalidate(b, c).objects, p)
    ensures Invalidate(a, c).data == Invalidate(b, c).data
    decreases |c|
  {
    if c != [] {
      InvalidateSameOff(a, b, p, Parent(c));
      var data := Invalidate(a, c).data;
      if data.Some? {
        LinkSameOff(Invalidate(a, Parent(c)).objects, Invalidate(b, Parent(c)).objects, p, data.value, c);
      }
    }
  }

  lemma DropSameOff(a: Table, b: Table, p: Path)
    requires SameOff(a, b, p) && p in a
    ensures SameCores(Drop(a, p), Drop(b, p))
  {
    assert SameUnless(true, a[p], b[p]);
    var up := a[p].links.parent;
    var x, y := a, b;
    if up.Some? && up.value in a {
      var d := up.value;
      assert SameUnless(d == p, a[d], b[d]);
      UpdateSameOff(a, b, p, d, WithChildren(a[d], RemoveFirst(a[d].links.children, p)),
                    WithChildren(b[d], RemoveFirst(b[d].links.children, p)));
      x, y := Unlink(a, d, p), Unlink(b, d, p);
    }
    forall q | q in a && q != p ensures SameCore(Drop(a, p)[q], Drop(b, p)[q]) {
      assert SameUnless(q == p, x[q], y[q]);
    }
  }

  lemma RemovedSameOff(a: Table, b: Table, p: Path)
    requires SameOff(a, b, p) && p in a
    ensures SameCores(Removed(a, p), Removed(b, p))
  {
    InvalidateSameOff(a, b, p, p);
    DropSameOff(Invalidate(a, p).objects, Invalidate(b, p).objects, p);
  }

  // ---------------------------------------------------------------------
  // Public calls

  /** Linking changes nothing but links and cached texts. */
  ghost predicate SameBody(a: Node, b: Node) {
    && a.refcount == b.refcount && a.ifaces == b.ifaces && a.added == b.added && a.removed == b.removed
    && a.pendingProp == b.pendingProp
  }

  ghost predicate SameBodies(a: Table, b: Table) {
    a.Keys == b.Keys && forall p :: p in a ==> SameBody(a[p], b[p])
  }

  lemma {:induction false} InvalidateBodies(objs: Table, c: Path)
    ensures SameBodies(objs, Invalidate(objs, c).objects)
    decreases |c|
  {
    if c != [] {
      InvalidateBodies(objs, Parent(c));
      var up := Invalidate(objs, Parent(c)).objects;
      var data := Invalidate(objs, c).data;
      if data.Some? {
        LinkBodies(up, data.value, c);
        SameBodiesTransitive(objs, up, Link(up, data.value, c));
      }
    }
  }

  lemma LinkBodies(objs: Table, d: Path, c: Path)
    requires d in objs && |d| < |c|
    ensures SameBodies(objs, Link(objs, d, c))
  {
  }

  lemma SameBodiesTransitive(a: Table, b: Table, c: Table)
    requires SameBodies(a, b) && SameBodies(b, c)
    ensures SameBodies(a, c)
  {
    forall p | p in a ensures SameBody(a[p], c[p]) {
      assert SameBody(a[p], b[p]) && SameBody(b[p], c[p]);
    }
  }

  lemma BodiesCalm(a: Table, b: Table)
    requires SameBodies(a, b) && Calm(a)
    ensures Calm(b)
  {
    forall p | p in b ensures Quiet(b[p]) {
      assert SameBody(a[p], b[p]) && Quiet(a[p]);
    }
  }

  lemma InsertedCalm(objs: Table, p: Path)
    requires Calm(objs)
    ensures Calm(Inserted(objs, p))
    ensures SameBodies(objs[p := FRESH_NODE], Inserted(objs, p))
  {
    InvalidateBodies(objs[p := FRESH_NODE], p);
    BodiesCalm(objs[p := FRESH_NODE], Inserted(objs, p));
  }

  lemma RemovedBody(objs: Table, p: Path, q: Path)
    requires p in objs && q in objs && q != p
    ensures SameBody(objs[q], Removed(objs, p)[q])
  {
    InvalidateBodies(objs, p);
    assert SameBody(objs[q], Invalidate(objs, p).objects[q]);
    DropBody(Invalidate(objs, p).objects, p, q);
  }

  lemma DropBody(objs: Table, p: Path, q: Path)
    requires p in objs && q in objs && q != p
    ensures SameBody(objs[q], Drop(objs, p)[q])
  {
  }

  lemma RemoveIfPresentOff(s: Server, p: Path, name: Name)
    requires p in s.objects && !s.objects[p].pendingProp
    ensures var r := RemoveInterface(s, p, name).server;
            SameOff(s.objects, r.objects, p) && !r.objects[p].pendingProp
  {
    var n := s.objects[p];
    if Has(n.ifaces, name) {
      RemoveInterfaceCore(s, p, name);
      var a := s.objects[p := n.(ifaces := Without(n.ifaces, Find(n.ifaces, name)))];
      var b := RemoveInterface(s, p, name).server.objects;
      forall q | q in a ensures SameUnless(q == p, s.objects[q], b[q]) {
        assert SameCore(a[q], b[q]);
      }
    }
  }

  lemma SameOffTransitive(a: Table, b: Table, c: Table, p: Path)
    requires SameOff(a, b, p) && SameOff(b, c, p)
    ensures SameOff(a, c, p)
  {
    forall q | q in a ensures SameUnless(q == p, a[q], c[q]) {
      assert SameUnless(q == p, a[q], b[q]) && SameUnless(q == p, b[q], c[q]);
    }
  }

  /** Giving up the last reference removes the path, whatever interfaces the object still had. */
  lemma LastUnrefCore(s: Server, p: Path)
    requires p in s.objects && !s.objects[p].pendingProp && s.objects[p].refcount == 1
    ensures SameCores(Removed(s.objects, p), PathUnref(s, p).objects)
  {
    var s1 := s.(objects := s.objects[p := s.objects[p].(refcount := 0)]);
    assert SameOff(s.objects, s1.objects, p);
    RemoveIfPresentOff(s1, p, INTROSPECTABLE);
    var s2 := RemoveInterface(s1, p, INTROSPECTABLE).server;
    RemoveIfPresentOff(s2, p, PROPERTIES);
    var s3 := RemoveInterface(s2, p, PROPERTIES).server;
    SameOffTransitive(s.objects, s1.objects, s2.objects, p);
    SameOffTransitive(s.objects, s2.objects, s3.objects, p);
    RemovedSameOff(s.objects, s3.objects, p);
  }

  function PropertiesIface(ifaces: seq<Iface>, d: Decl): seq<Iface> {
    if d.properties.Some? && !Has(ifaces, PROPERTIES) then [Iface(PROPERTIES_DECL, [], map[])] else []
  }

  /** The object after an interface is registered on it. */
  function Accepted(n: Node, d: Decl, state: map<Name, Variant>): Node {
    var ifaces := n.ifaces + [Iface(d, [], state)];
    n.(ifaces := ifaces + PropertiesIface(ifaces, d), cache := Empty)
  }

  predicate Accepts(show: bool, n: Node, d: Decl) {
    !Has(n.ifaces, d.name) && SomethingVisible(show, d)
  }

  /** The second half of `g_dbus_register_interface`, once the object is there and takes the interface. */
  lemma AcceptCore(s: Server, p: Path, d: Decl, state: map<Name, Variant>)
    requires p in s.objects && !s.objects[p].pendingProp
    requires SomethingVisible(s.showExperimental, d)
    ensures SameCores(s.objects[p := Accepted(s.objects[p], d, state)],
                      ClearCache(AddPropertiesInterface(AddInterface(s, p, d, state).server, p, d), p).objects)
  {
    AddInterfaceCore(s, p, d, state);
    AcceptRest(s.objects, AddInterface(s, p, d, state).server, p, d, WithIface(s.objects[p], d, state));
  }

  lemma AcceptRest(objs: Table, t: Server, p: Path, d: Decl, n1: Node)
    requires p in t.objects && SameCores(objs[p := n1], t.objects) && !n1.pendingProp
    ensures SameCores(objs[p := n1.(ifaces := n1.ifaces + PropertiesIface(n1.ifaces, d), cache := Empty)],
                      ClearCache(AddPropertiesInterface(t, p, d), p).objects)
  {
    assert SameCore(objs[p := n1][p], t.objects[p]);
    AcceptProperties(t, p, d);
    var u := AddPropertiesInterface(t, p, d).objects;
    var ifaces := n1.ifaces + PropertiesIface(n1.ifaces, d);
    IfacesSameCores(objs, p, n1, t.objects, ifaces);
    SameCoresTransitive(objs[p := n1.(ifaces := ifaces)], t.objects[p := t.objects[p].(ifaces := ifaces)], u);
    ClearSameCores(objs, p, n1.(ifaces := ifaces), u);
  }

  lemma IfacesSameCores(a: Table, p: Path, m: Node, b: Table, ifaces: seq<Iface>)
    requires p in b && SameCores(a[p := m], b)
    ensures SameCores(a[p := m.(ifaces := ifaces)], b[p := b[p].(ifaces := ifaces)])
  {
    forall q | q in b ensures SameCore(a[p := m.(ifaces := ifaces)][q], b[p := b[p].(ifaces := ifaces)][q]) {
      assert SameCore(a[p := m][q], b[q]);
    }
  }

  lemma ClearSameCores(a: Table, p: Path, m: Node, b: Table)
    requires p in b && SameCores(a[p := m], b)
    ensures SameCores(a[p := m.(cache := Empty)], b[p := b[p].(cache := Empty)])
  {
    var x, y := a[p := m.(cache := Empty)], b[p := b[p].(cache := Empty)];
    forall q | q in x ensures SameCore(x[q], y[q]) {
      assert SameCore(a[p := m][q], b[q]);
    }
  }

  lemma AcceptProperties(s: Server, p: Path, d: Decl)
    requires p in s.objects && !s.objects[p].pendingProp
    ensures var n := s.objects[p];
            SameCores(s.objects[p := n.(ifaces := n.ifaces + PropertiesIface(n.ifaces, d))],
                      AddPropertiesInterface(s, p, d).objects)
  {
    var n := s.objects[p];
    if PropertiesIface(n.ifaces, d) != [] {
      assert !Hidden(s.showExperimental, PROPERTIES_DECL.methods[0].experimental);
      AddInterfaceCore(s, p, PROPERTIES_DECL, map[]);
    } else {
      assert n.ifaces + [] == n.ifaces;
      assert s.objects[p := n] == s.objects;
    }
  }

  lemma RegisterOnRefused(s: Server, p: Path, d: Decl, state: map<Name, Variant>)
    requires p in s.objects && !Accepts(s.showExperimental, s.objects[p], d)
    ensures RegisterOn(s, p, d, state) == Outcome(PathUnref(s, p), false)
  {
  }

  lemma RegisterOnAccepted(s: Server, p: Path, d: Decl, state: map<Name, Variant>)
    requires p in s.objects && !s.objects[p].pendingProp
    requires Accepts(s.showExperimental, s.objects[p], d)
    ensures RegisterOn(s, p, d, state).ok
    ensures SameCores(s.objects[p := Accepted(s.objects[p], d, state)], RegisterOn(s, p, d, state).server.objects)
  {
    AcceptCore(s, p, d, state);
  }

  /** The server once an object that exists is referenced once more. */
  function Referenced(s: Server, p: Path): Server
    requires p in s.objects
  {
    s.(objects := s.objects[p := s.objects[p].(refcount := s.objects[p].refcount + 1)])
  }

  lemma RefExisting(s: Server, p: Path)
    requires p in s.objects
    ensures PathRef(s, p) == Referenced(s, p)
  {
  }

  lemma RefUnref(s: Server, p: Path)
    requires p in s.objects && s.objects[p].refcount >= 1
    ensures PathUnref(PathRef(s, p), p) == s
  {
    RefExisting(s, p);
    UnrefBack(s, Referenced(s, p), p, s.objects[p]);
  }

  lemma UnrefBack(s: Server, t: Server, p: Path, n: Node)
    requires p in s.objects && n == s.objects[p] && n.refcount >= 1
    requires t == s.(objects := s.objects[p := n.(refcount := n.refcount + 1)])
    ensures PathUnref(t, p) == s
  {
    UnrefShared(t, p);
    UpdateTwice(s.objects, p, t.objects[p], n);
    assert s.objects[p := n] == s.objects;
  }

  lemma UnrefShared(s: Server, p: Path)
    requires p in s.objects && s.objects[p].refcount > 1
    ensures PathUnref(s, p) == s.(objects := s.objects[p := s.objects[p].(refcount := s.objects[p].refcount - 1)])
  {
  }

  /** A registration on an object that exists is refused without any effect when the name is taken or
      nothing of the interface is visible. */
  lemma RegisterRefused(s: Server, p: Path, d: Decl, state: map<Name, Variant>)
    requires ValidPath(p) && ValidInterface(d.name)
    requires p in s.objects && s.objects[p].refcount >= 1 && !Accepts(s.showExperimental, s.objects[p], d)
    ensures Register(s, p, d, state) == Outcome(s, false)
  {
    RefUnref(s, p);
    RegisterOnRefused(PathRef(s, p), p, d, state);
  }

  /** Otherwise the object takes the interface. */
  lemma RegisterExisting(s: Server, p: Path, d: Decl, state: map<Name, Variant>)
    requires ValidPath(p) && ValidInterface(d.name)
    requires p in s.objects && !s.objects[p].pendingProp && Accepts(s.showExperimental, s.objects[p], d)
    ensures Register(s, p, d, state).ok
    ensures var n := s.objects[p];
            SameCores(s.objects[p := Accepted(n.(refcount := n.refcount + 1), d, state)], Register(s, p, d, state).server.objects)
  {
    RegisterUnfolds(s, p, d, state);
    AcceptReferenced(s, p, d, state);
  }

  lemma AcceptReferenced(s: Server, p: Path, d: Decl, state: map<Name, Variant>)
    requires p in s.objects
    requires !s.objects[p].pendingProp && Accepts(s.showExperimental, s.objects[p], d)
    ensures RegisterOn(Referenced(s, p), p, d, state).ok
    ensures var n := s.objects[p];
            SameCores(s.objects[p := Accepted(n.(refcount := n.refcount + 1), d, state)],
                      RegisterOn(Referenced(s, p), p, d, state).server.objects)
  {
    RegisterOnAccepted(Referenced(s, p), p, d, state);
    UpdateAgain(s.objects, p, Referenced(s, p).objects[p], Accepted(Referenced(s, p).objects[p], d, state),
                RegisterOn(Referenced(s, p), p, d, state).server.objects);
  }

  lemma UpdateAgain(objs: Table, p: Path, m: Node, n: Node, r: Table)
    requires SameCores(objs[p := m][p := n], r)
    ensures SameCores(objs[p := n], r)
  {
    UpdateTwice(objs, p, m, n);
  }

  lemma RegisterUnfolds(s: Server, p: Path, d: Decl, state: map<Name, Variant>)
    requires ValidPath(p) && ValidInterface(d.name) && p in s.objects
    ensures Register(s, p, d, state) == RegisterOn(Referenced(s, p), p, d, state)
  {
    RefExisting(s, p);
  }

  lemma UpdateTwice(objs: Table, p: Path, m: Node, n: Node)
    ensures objs[p := m][p := n] == objs[p := n]
  {
  }

  /** A new object carries the Introspectable interface from the start. */
  function FreshNode(objs: Table, p: Path): Node {
    WithIface(Inserted(objs, p)[p], INTROSPECTABLE_DECL, map[])
  }

  lemma FreshRefCore(s: Server, p: Path)
    requires Calm(s.objects) && p !in s.objects
    ensures SameCores(Inserted(s.objects, p)[p := FreshNode(s.objects, p)], PathRef(s, p).objects)
    ensures FreshNode(s.objects, p).refcount == 1 && !FreshNode(s.objects, p).pendingProp
    ensures FreshNode(s.objects, p).ifaces == [Iface(INTROSPECTABLE_DECL, [], map[])]
  {
    InsertedCalm(s.objects, p);
    var t := Inserted(s.objects, p);
    assert SameBody(FRESH_NODE, t[p]);
    assert !Hidden(s.showExperimental, INTROSPECTABLE_DECL.methods[0].experimental);
    AddInterfaceCore(s.(objects := t), p, INTROSPECTABLE_DECL, map[]);
  }

  /** A new path whose interface is accepted. */
  lemma RegisterNew(s: Server, p: Path, d: Decl, state: map<Name, Variant>)
    requires Calm(s.objects) && ValidPath(p) && ValidInterface(d.name) && p !in s.objects
    requires Accepts(s.showExperimental, FreshNode(s.objects, p), d)
    ensures var n := FreshNode(s.objects, p); var r := Register(s, p, d, state);
            r.ok && SameCores(Inserted(s.objects, p)[p := Accepted(n, d, state)], r.server.objects)
  {
    FreshRefCore(s, p);
    var s1 := PathRef(s, p);
    var t, n := Inserted(s.objects, p), FreshNode(s.objects, p);
    assert SameCore(t[p := n][p], s1.objects[p]);
    RegisterOnAccepted(s1, p, d, state);
    AcceptSameCores(t, p, n, s1.objects, d, state);
    SameCoresTransitive(t[p := Accepted(n, d, state)], s1.objects[p := Accepted(s1.objects[p], d, state)],
                        RegisterOn(s1, p, d, state).server.objects);
  }

  /** A new path whose interface is refused: the object is made and removed again. */
  lemma RegisterNewRefused(s: Server, p: Path, d: Decl, state: map<Name, Variant>)
    requires Calm(s.objects) && ValidPath(p) && ValidInterface(d.name) && p !in s.objects
    requires !Accepts(s.showExperimental, FreshNode(s.objects, p), d)
    ensures var r := Register(s, p, d, state);
            !r.ok && SameCores(Removed(Inserted(s.objects, p), p), r.server.objects)
            && r.server == PathUnref(PathRef(s, p), p)
  {
    FreshRefCore(s, p);
    var s1 := PathRef(s, p);
    assert SameCore(Inserted(s.objects, p)[p := FreshNode(s.objects, p)][p], s1.objects[p]);
    DropFresh(Inserted(s.objects, p), s1, p, FreshNode(s.objects, p));
    RegisterOnRefused(s1, p, d, state);
  }

  lemma DropFresh(t: Table, s1: Server, p: Path, n: Node)
    requires p in t && p in s1.objects && SameCores(t[p := n], s1.objects)
    requires n.links == t[p].links && n.refcount == 1 && !n.pendingProp
    ensures SameCores(Removed(t, p), PathUnref(s1, p).objects)
  {
    assert SameCore(t[p := n][p], s1.objects[p]);
    LastUnrefCore(s1, p);
    UpdatedSameOff(t, s1.objects, p, n);
    RemovedSameOff(t, s1.objects, p);
    SameCoresTransitive(Removed(t, p), Removed(s1.objects, p), PathUnref(s1, p).objects);
  }

  lemma UpdatedSameOff(t: Table, b: Table, p: Path, n: Node)
    requires p in t && SameCores(t[p := n], b) && n.links == t[p].links
    ensures SameOff(t, b, p)
  {
    forall q | q in t ensures SameUnless(q == p, t[q], b[q]) {
      assert SameCore(t[p := n][q], b[q]);
    }
  }

  lemma AcceptSameCores(t: Table, p: Path, n: Node, b: Table, d: Decl, state: map<Name, Variant>)
    requires p in b && SameCores(t[p := n], b)
    ensures SameCores(t[p := Accepted(n, d, state)], b[p := Accepted(b[p], d, state)])
  {
    forall q | q in b ensures SameCore(t[p := Accepted(n, d, state)][q], b[p := Accepted(b[p], d, state)][q]) {
      assert SameCore(t[p := n][q], b[q]);
    }
  }

  /** The object after an interface is unregistered from it. */
  function Released(n: Node, name: Name): Node
    requires Has(n.ifaces, name)
  {
    n.(ifaces := Without(n.ifaces, Find(n.ifaces, name)), cache := Empty, refcount := n.refcount - 1)
  }

  lemma UnregisterRefused(s: Server, p: Path, name: Name)
    requires (p in s.objects ==> !Has(s.objects[p].ifaces, name))
    ensures Unregister(s, p, name) == Outcome(s, false)
  {
  }

  /** Unregistering an interface other than the last: only that interface goes. */
  lemma UnregisterOne(s: Server, p: Path, name: Name)
    requires p in s.objects && Has(s.objects[p].ifaces, name)
    requires !s.objects[p].pendingProp && s.objects[p].refcount > 1
    ensures var r := Unregister(s, p, name);
            r.ok && SameCores(s.objects[p := Released(s.objects[p], name)], r.server.objects)
  {
    var n := s.objects[p];
    RemoveInterfaceCore(s, p, name);
    ReleaseCore(s.objects, RemoveInterface(s, p, name).server, p, n.(ifaces := Without(n.ifaces, Find(n.ifaces, name))));
  }

  lemma ReleaseCore(objs: Table, t: Server, p: Path, m: Node)
    requires p in t.objects && SameCores(objs[p := m], t.objects) && m.refcount > 1
    ensures SameCores(objs[p := m.(cache := Empty, refcount := m.refcount - 1)], PathUnref(ClearCache(t, p), p).objects)
  {
    assert SameCore(objs[p := m][p], t.objects[p]);
    ClearSameCores(objs, p, m, t.objects);
    ReleaseSameCores(objs, p, m.(cache := Empty), ClearCache(t, p).objects, m.refcount - 1);
  }

  /** Unregistering the last interface removes the path. */
  lemma UnregisterLast(s: Server, p: Path, name: Name)
    requires p in s.objects && Has(s.objects[p].ifaces, name)
    requires !s.objects[p].pendingProp && s.objects[p].refcount == 1
    ensures Unregister(s, p, name).ok
    ensures SameCores(Removed(s.objects, p), Unregister(s, p, name).server.objects)
  {
    UnregisterUnfolds(s, p, name);
    var n := s.objects[p];
    RemoveInterfaceCore(s, p, name);
    DropLast(s.objects, RemoveInterface(s, p, name).server, p, n.(ifaces := Without(n.ifaces, Find(n.ifaces, name))));
  }

  lemma UnregisterUnfolds(s: Server, p: Path, name: Name)
    requires p in s.objects && Has(s.objects[p].ifaces, name)
    ensures Unregister(s, p, name) == Outcome(PathUnref(ClearCache(RemoveInterface(s, p, name).server, p), p), true)
  {
  }

  lemma DropLast(objs: Table, t: Server, p: Path, m: Node)
    requires p in objs && p in t.objects && SameCores(objs[p := m], t.objects)
    requires m.links == objs[p].links && m.refcount == 1 && !m.pendingProp
    ensures SameCores(Removed(objs, p), PathUnref(ClearCache(t, p), p).objects)
  {
    ClearSameCores(objs, p, m, t.objects);
    DropFresh(objs, ClearCache(t, p), p, m.(cache := Empty));
  }

  lemma ReleaseSameCores(a: Table, p: Path, m: Node, b: Table, count: int)
    requires p in b && SameCores(a[p := m], b)
    ensures SameCores(a[p := m.(refcount := count)], b[p := b[p].(refcount := count)])
  {
    forall q | q in b ensures SameCore(a[p := m.(refcount := count)][q], b[p := b[p].(refcount := count)][q]) {
      assert SameCore(a[p := m][q], b[q]);
    }
  }

  // ---------------------------------------------------------------------
  // The effect of a call on the table

  /** What registering does to the table, up to publication. */
  ghost predicate RegisterEffect(s: Server, p: Path, d: Decl, state: map<Name, Variant>, r: Outcome) {
    SameFlags(s, r.server) &&
    if !ValidPath(p) || !ValidInterface(d.name) then r == Outcome(s, false)
    else if p in s.objects then
      var n := s.objects[p];
      if Accepts(s.showExperimental, n, d)
      then r.ok && SameCores(s.objects[p := Accepted(n.(refcount := n.refcount + 1), d, state)], r.server.objects)
      else r == Outcome(s, false)
    else
      var n := FreshNode(s.objects, p);
      if Accepts(s.showExperimental, n, d)
      then r.ok && SameCores(Inserted(s.objects, p)[p := Accepted(n, d, state)], r.server.objects)
      else !r.ok && SameCores(Removed(Inserted(s.objects, p), p), r.server.objects)
  }

  lemma RegisterHasEffect(s: Server, p: Path, d: Decl, state: map<Name, Variant>)
    requires Calm(s.objects) && (p in s.objects ==> s.objects[p].refcount >= 1)
    ensures RegisterEffect(s, p, d, state, Register(s, p, d, state))
  {
    if !ValidPath(p) || !ValidInterface(d.name) {
    } else if p in s.objects {
      assert Quiet(s.objects[p]);
      if Accepts(s.showExperimental, s.objects[p], d) {
        RegisterExisting(s, p, d, state);
      } else {
        RegisterRefused(s, p, d, state);
      }
    } else {
      if Accepts(s.showExperimental, FreshNode(s.objects, p), d) {
        RegisterNew(s, p, d, state);
      } else {
        RegisterNewRefused(s, p, d, state);
      }
    }
  }

  ghost predicate UnregisterEffect(s: Server, p: Path, name: Name, r: Outcome) {
    SameFlags(s, r.server) &&
    if p !in s.objects || !Has(s.objects[p].ifaces, name) then r == Outcome(s, false)
    else if s.objects[p].refcount > 1
    then r.ok && SameCores(s.objects[p := Released(s.objects[p], name)], r.server.objects)
    else r.ok && SameCores(Removed(s.objects, p), r.server.objects)
  }

  lemma UnregisterHasEffect(s: Server, p: Path, name: Name)
    requires Calm(s.objects) && (p in s.objects ==> s.objects[p].refcount >= 1)
    ensures UnregisterEffect(s, p, name, Unregister(s, p, name))
  {
    if p !in s.objects || !Has(s.objects[p].ifaces, name) {
      UnregisterRefused(s, p, name);
    } else {
      assert Quiet(s.objects[p]);
      if s.objects[p].refcount > 1 {
        UnregisterOne(s, p, name);
      } else {
        UnregisterLast(s, p, name);
      }
    }
  }

  ghost predicate ChangeEffect(s: Server, p: Path, iface: Name, name: Name, value: Option<Variant>, r: Server) {
    SameFlags(s, r) &&
    if p in s.objects && Has(s.objects[p].ifaces, iface)
    then SameCores(s.objects[p := WithState(s.objects[p], Find(s.objects[p].ifaces, iface), name, value)], r.objects)
    else r == s
  }

  lemma ChangeHasEffect(s: Server, p: Path, iface: Name, name: Name, value: Option<Variant>, flush: bool)
    requires Calm(s.objects)
    ensures ChangeEffect(s, p, iface, name, value, ChangeProperty(s, p, iface, name, value, flush))
  {
    ChangePropertyCore(s, p, iface, name, value, flush);
  }

  /** The object at "/" once it carries the object manager. */
  function Managed(n: Node): Node {
    WithIface(n, MANAGER_DECL, map[])
  }

  /** Attaching the manager: the table in which "/" is referenced once more, or is new, and carries it. */
  ghost predicate AttachEffect(s: Server, r: Server) {
    && r.attached && r.showExperimental == s.showExperimental
    && (ROOT in s.objects ==> AttachOld(s.objects, r.objects))
    && (ROOT !in s.objects ==> AttachNew(s.objects, r.objects))
  }

  ghost predicate AttachOld(objs: Table, r: Table)
    requires ROOT in objs
  {
    SameCores(objs[ROOT := Managed(objs[ROOT].(refcount := objs[ROOT].refcount + 1))], r)
  }

  ghost predicate AttachNew(objs: Table, r: Table) {
    SameCores(Inserted(objs, ROOT)[ROOT := Managed(FreshNode(objs, ROOT))], r)
  }

  lemma AttachHasEffect(s: Server)
    requires Calm(s.objects)
    ensures AttachEffect(s, Attach(s))
  {
    if ROOT in s.objects {
      assert Quiet(s.objects[ROOT]);
      AttachToExisting(s);
    } else {
      AttachToNew(s);
    }
  }

  lemma AttachToExisting(s: Server)
    requires ROOT in s.objects && !s.objects[ROOT].pendingProp
    ensures AttachOld(s.objects, Attach(s).objects)
  {
    AttachUnfolds(s);
    ManagerOnReferenced(s);
  }

  lemma ManagerOnReferenced(s: Server)
    requires ROOT in s.objects && !s.objects[ROOT].pendingProp
    ensures AttachOld(s.objects, AddManager(Referenced(s, ROOT)).objects)
  {
    ManagerOnExisting(s.objects, Referenced(s, ROOT));
  }

  lemma AttachUnfolds(s: Server)
    requires ROOT in s.objects
    ensures Attach(s) == AddManager(Referenced(s, ROOT))
  {
    RefExisting(s, ROOT);
  }

  lemma ManagerOnExisting(objs: Table, s1: Server)
    requires ROOT in objs && !objs[ROOT].pendingProp
    requires s1.objects == objs[ROOT := objs[ROOT].(refcount := objs[ROOT].refcount + 1)]
    ensures AttachOld(objs, AddManager(s1).objects)
  {
    var n := objs[ROOT].(refcount := objs[ROOT].refcount + 1);
    assert !Hidden(s1.showExperimental, MANAGER_DECL.methods[0].experimental);
    AddInterfaceCore(s1, ROOT, MANAGER_DECL, map[]);
    UpdateTwice(objs, ROOT, n, Managed(n));
  }

  lemma AttachToNew(s: Server)
    requires Calm(s.objects) && ROOT !in s.objects
    ensures AttachNew(s.objects, Attach(s).objects)
  {
    FreshRefCore(s, ROOT);
    ManagerOnFresh(Inserted(s.objects, ROOT), PathRef(s, ROOT), FreshNode(s.objects, ROOT));
  }

  lemma ManagerOnFresh(t: Table, s1: Server, n: Node)
    requires ROOT in s1.objects && SameCores(t[ROOT := n], s1.objects) && !n.pendingProp
    ensures SameCores(t[ROOT := Managed(n)], AddManager(s1).objects)
  {
    assert SameCore(t[ROOT := n][ROOT], s1.objects[ROOT]);
    assert !Hidden(s1.showExperimental, MANAGER_DECL.methods[0].experimental);
    AddInterfaceCore(s1, ROOT, MANAGER_DECL, map[]);
    IfacesSameCores(t, ROOT, n, s1.objects, n.ifaces + [Iface(MANAGER_DECL, [], map[])]);
    SameCoresTransitive(t[ROOT := Managed(n)], s1.objects[ROOT := Managed(s1.objects[ROOT])], AddManager(s1).objects);
  }
}
