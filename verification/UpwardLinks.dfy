/** Whatever the order of registration, the links between objects lead up and down: a parent is a shorter path and a
    child a longer one, and no list has a child twice. So the walk up to publish a parent first and the walk down to list the objects both end.
 */
module UpwardLinks {
  import opened Bus
  import opened ObjectModel
  import opened ObjectCore
  import opened ObjectLifetime
  import opened ObjectTree

  ghost predicate Points(l: Links, p: Path) {
    && (l.parent.Some? ==> |l.parent.value| < |p|)
    && NoDuplicates(l.children) && forall c :: c in l.children ==> |p| < |c|
  }

  ghost predicate Upward(objs: Table) {
    forall p :: p in objs ==> Points(objs[p].links, p)
  }

  lemma LinkUpward(objs: Table, d: Path, c: Path)
    requires Upward(objs) && d in objs && |d| < |c|
    ensures Upward(Link(objs, d, c))
  {
    var r := Link(objs, d, c);
    assert Points(objs[d].links, d);
    if c in objs && c !in objs[d].links.children { ListedUpward(objs[d].links, d, c); }
    forall p | p in r ensures Points(r[p].links, p) {
      assert Points(objs[p].links, p);
    }
  }

  lemma ListedUpward(l: Links, d: Path, c: Path)
    requires Points(l, d) && c !in l.children && |d| < |c|
    ensures Points(l.(children := [c] + l.children), d)
  {
  }

  lemma {:induction false} InvalidateUpward(objs: Table, c: Path)
    requires Upward(objs)
    ensures Upward(Invalidate(objs, c).objects)
    decreases |c|
  {
    if c != [] {
      InvalidateUpward(objs, Parent(c));
      var up := Invalidate(objs, Parent(c));
      var data := if Parent(c) in objs then Some(Parent(c)) else up.data;
      if data.Some? { LinkUpward(up.objects, data.value, c); }
    }
  }

  lemma UnlinkUpward(objs: Table, d: Path, c: Path)
    requires Upward(objs) && d in objs
    ensures Upward(Unlink(objs, d, c))
  {
    assert Points(objs[d].links, d);
    RemoveFirstOfUnique(objs[d].links.children, c);
  }

  lemma DropUpward(objs: Table, p: Path)
    requires Upward(objs) && p in objs
    ensures Upward(Drop(objs, p))
  {
    var up := objs[p].links.parent;
    var mid := if up.Some? && up.value in objs then Unlink(objs, up.value, p) else objs;
    if up.Some? && up.value in objs { UnlinkUpward(objs, up.value, p); }
    assert Points(objs[p].links, p);
    forall q | q in Drop(objs, p) ensures Points(Drop(objs, p)[q].links, q) {
      assert Points(mid[q].links, q);
    }
  }

  lemma InsertedUpward(objs: Table, p: Path)
    requires Upward(objs)
    ensures Upward(Inserted(objs, p))
  {
    InvalidateUpward(objs[p := FRESH_NODE], p);
  }

  lemma RemovedUpward(objs: Table, p: Path)
    requires Upward(objs) && p in objs
    ensures Upward(Removed(objs, p))
  {
    InvalidateUpward(objs, p);
    DropUpward(Invalidate(objs, p).objects, p);
  }

  lemma StoredUpward(objs: Table, p: Path, n: Node, r: Table)
    requires Upward(objs) && p in objs && n.links == objs[p].links && SameCores(objs[p := n], r)
    ensures Upward(r)
  {
    forall q | q in r ensures Points(r[q].links, q) {
      assert SameCore(objs[p := n][q], r[q]);
      assert Points(objs[q].links, q);
    }
  }

  lemma CoresUpward(objs: Table, r: Table)
    requires Upward(objs) && SameCores(objs, r)
    ensures Upward(r)
  {
    forall q | q in r ensures Points(r[q].links, q) {
      assert SameCore(objs[q], r[q]);
      assert Points(objs[q].links, q);
    }
  }

  lemma RegisterUpward(s: Server, p: Path, d: Decl, state: map<Name, Variant>, r: Outcome)
    requires Upward(s.objects) && RegisterEffect(s, p, d, state, r)
    ensures Upward(r.server.objects)
  {
    if ValidPath(p) && ValidInterface(d.name) {
      if p in s.objects {
        var n := s.objects[p];
        if Accepts(s.showExperimental, n, d) {
          StoredUpward(s.objects, p, Accepted(n.(refcount := n.refcount + 1), d, state), r.server.objects);
        }
      } else {
        RegisterNewUpward(s, p, d, state, r, Inserted(s.objects, p), FreshNode(s.objects, p));
      }
    }
  }

  lemma RegisterNewUpward(s: Server, p: Path, d: Decl, state: map<Name, Variant>, r: Outcome, t: Table, n: Node)
    requires Upward(s.objects) && p !in s.objects && t == Inserted(s.objects, p) && n == FreshNode(s.objects, p)
    requires SameCores(if Accepts(s.showExperimental, n, d) then t[p := Accepted(n, d, state)] else Removed(t, p), r.server.objects)
    ensures Upward(r.server.objects)
  {
    InsertedUpward(s.objects, p);
    if Accepts(s.showExperimental, n, d) {
      FreshLinks(s.objects, p);
      StoredUpward(t, p, Accepted(n, d, state), r.server.objects);
    } else {
      RemovedUpward(t, p);
      CoresUpward(Removed(t, p), r.server.objects);
    }
  }

  lemma UnregisterUpward(s: Server, p: Path, name: Name, r: Outcome)
    requires Upward(s.objects) && UnregisterEffect(s, p, name, r)
    ensures Upward(r.server.objects)
  {
    if p in s.objects && Has(s.objects[p].ifaces, name) {
      if s.objects[p].refcount > 1 {
        StoredUpward(s.objects, p, Released(s.objects[p], name), r.server.objects);
      } else {
        RemovedUpward(s.objects, p);
        CoresUpward(Removed(s.objects, p), r.server.objects);
      }
    }
  }

  lemma AttachUpward(s: Server, r: Server)
    requires Upward(s.objects) && AttachEffect(s, r)
    ensures Upward(r.objects)
  {
    if ROOT in s.objects { OldRootUpward(s.objects, r.objects); } else { NewRootUpward(s.objects, r.objects); }
  }

  lemma OldRootUpward(objs: Table, r: Table)
    requires Upward(objs) && ROOT in objs && AttachOld(objs, r)
    ensures Upward(r)
  {
    var n := objs[ROOT];
    StoredUpward(objs, ROOT, Managed(n.(refcount := n.refcount + 1)), r);
  }

  lemma NewRootUpward(objs: Table, r: Table)
    requires Upward(objs) && AttachNew(objs, r)
    ensures Upward(r)
  {
    InsertedUpward(objs, ROOT);
    FreshLinks(objs, ROOT);
    StoredUpward(Inserted(objs, ROOT), ROOT, Managed(FreshNode(objs, ROOT)), r);
  }

  lemma RegisterCallUpward(s: Server, p: Path, d: Decl, state: map<Name, Variant>)
    requires Sound(s) && Upward(s.objects)
    ensures Upward(Register(s, p, d, state).server.objects)
  {
    assert p in s.objects ==> Counted(s.objects[p]);
    RegisterHasEffect(s, p, d, state);
    RegisterUpward(s, p, d, state, Register(s, p, d, state));
  }

  lemma UnregisterCallUpward(s: Server, p: Path, name: Name)
    requires Sound(s) && Upward(s.objects)
    ensures Upward(Unregister(s, p, name).server.objects)
  {
    assert p in s.objects ==> Counted(s.objects[p]);
    UnregisterHasEffect(s, p, name);
    UnregisterUpward(s, p, name, Unregister(s, p, name));
  }

  lemma ChangeUpward(s: Server, p: Path, iface: Name, prop: Name, value: Option<Variant>, flush: bool)
    requires Sound(s) && Upward(s.objects)
    ensures Upward(ChangeProperty(s, p, iface, prop, value, flush).objects)
  {
    ChangeHasEffect(s, p, iface, prop, value, flush);
    if p in s.objects && Has(s.objects[p].ifaces, iface) {
      var n := WithState(s.objects[p], Find(s.objects[p].ifaces, iface), prop, value);
      StoredUpward(s.objects, p, n, ChangeProperty(s, p, iface, prop, value, flush).objects);
    }
  }

  lemma IntrospectUpward(s: Server, p: Path)
    requires Upward(s.objects) && p in s.objects
    ensures Upward(Introspect(s, p).objects)
  {
    assert Points(s.objects[p].links, p);
  }

  lemma PerformUpward(s: Server, call: Call)
    requires Sound(s) && Upward(s.objects) && Legal(s, call)
    ensures Upward(Perform(s, call).objects)
  {
    match call
    case RegisterCall(p, d, state) => RegisterCallUpward(s, p, d, state);
    case UnregisterCall(p, name) => UnregisterCallUpward(s, p, name);
    case ChangeCall(p, iface, prop, value, flush) => ChangeUpward(s, p, iface, prop, value, flush);
    case IntrospectCall(p) => if p in s.objects { IntrospectUpward(s, p); }
    case AttachCall =>
      AttachHasEffect(s);
      AttachUpward(s, Attach(s));
  }

  /** In every legal run, in any order, parents are shorter paths and children longer ones. */
  lemma {:induction false} RunsPointUpward(show: bool, calls: seq<Call>)
    requires LegalRun(Started(show), calls)
    ensures Sound(Run(Started(show), calls)) && Upward(Run(Started(show), calls).objects)
  {
    RunsAreSound(show, calls);
    if calls != [] {
      var k := |calls| - 1;
      var rest := calls[..k];
      forall i | 0 <= i < |rest| ensures Legal(Run(Started(show), rest[..i]), rest[i]) {
        assert rest[..i] == calls[..i];
      }
      RunsPointUpward(show, rest);
      PerformUpward(Run(Started(show), rest), calls[k]);
    }
  }
}
