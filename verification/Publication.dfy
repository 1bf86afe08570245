/** The order in which interfaces are announced when "/" is registered first and
    the object manager is attached once, possibly after other objects exist:
    nothing below an object is announced before what is still owed for the object
    itself.
 */
module Publication {
  import opened Bus
  import opened ObjectModel
  import opened ObjectCore
  import opened ObjectLifetime
  import opened ObjectTree

  /** An object owes the bus nothing, or has never been announced and owes all its interfaces. */
  ghost predicate AllOrNothing(n: Node) {
    && n.removed == []
    && (n.added == [] || forall i :: 0 <= i < |n.ifaces| ==> n.ifaces[i].decl.name in n.added)
  }

  /** Something owed above means that something is owed below. */
  ghost predicate OwedDownward(objs: Table) {
    forall a, p :: a in objs && p in objs && a != [] && a < p && objs[a].added != [] ==> objs[p].added != []
  }

  ghost predicate Orderable(s: Server) {
    && Tree(s.objects)
    && (s.objects == map[] || [] in s.objects)
    && (forall p :: p in s.objects ==> AllOrNothing(s.objects[p]))
    && ([] in s.objects ==> s.objects[[]].added == [])
    && (!s.attached ==> forall p :: p in s.objects && p != [] ==> s.objects[p].added != [])
    && OwedDownward(s.objects)
  }

  // ---------------------------------------------------------------------
  // What a step announces

  predicate Announces(out: seq<Message>, lo: nat, hi: nat, a: Path) {
    exists i :: 0 <= lo <= i < hi <= |out| && out[i].InterfacesAdded? && out[i].path == a
  }

  /** Each announcement comes after those still owed for the ancestors of its object. */
  ghost predicate AncestorsFirst(s: Server, r: Server) {
    && s.out <= r.out
    && forall j, a ::
         |s.out| <= j < |r.out| && r.out[j].InterfacesAdded? && a in s.objects && a != [] && a < r.out[j].path
         && s.objects[a].added != []
         ==> Announces(r.out, |s.out|, j, a)
  }

  /** What is no longer owed for an object that stays was announced. */
  ghost predicate Accounted(s: Server, r: Server) {
    forall a :: a in s.objects && a in r.objects && s.objects[a].added != [] && r.objects[a].added == []
                ==> Announces(r.out, |s.out|, |r.out|, a)
  }

  ghost predicate PublishesInOrder(s: Server, r: Server) {
    AncestorsFirst(s, r) && Accounted(s, r)
  }

  lemma AnnouncesMore(out: seq<Message>, more: seq<Message>, lo: nat, hi: nat, lo': nat, hi': nat, a: Path)
    requires Announces(out, lo, hi, a) && out <= more && lo' <= lo && hi <= hi' <= |more|
    ensures Announces(more, lo', hi', a)
  {
    var i :| 0 <= lo <= i < hi <= |out| && out[i].InterfacesAdded? && out[i].path == a;
    assert more[i] == out[i];
  }

  lemma InOrderTransitive(s: Server, m: Server, r: Server)
    requires PublishesInOrder(s, m) && PublishesInOrder(m, r) && s.objects.Keys <= m.objects.Keys
    ensures PublishesInOrder(s, r)
  {
    forall j, a | |s.out| <= j < |r.out| && r.out[j].InterfacesAdded? && a in s.objects && a != [] && a < r.out[j].path
                  && s.objects[a].added != []
      ensures Announces(r.out, |s.out|, j, a)
    {
      if j < |m.out| {
        assert r.out[j] == m.out[j];
        AnnouncesMore(m.out, r.out, |s.out|, j, |s.out|, j, a);
      } else if m.objects[a].added != [] {
        AnnouncesMore(r.out, r.out, |m.out|, j, |s.out|, j, a);
      } else {
        AnnouncesMore(m.out, r.out, |s.out|, |m.out|, |s.out|, j, a);
      }
    }
    forall a | a in s.objects && a in r.objects && s.objects[a].added != [] && r.objects[a].added == []
      ensures Announces(r.out, |s.out|, |r.out|, a)
    {
      if m.objects[a].added == [] {
        AnnouncesMore(m.out, r.out, |s.out|, |m.out|, |s.out|, |r.out|, a);
      } else if a in m.objects {
        AnnouncesMore(r.out, r.out, |m.out|, |r.out|, |s.out|, |r.out|, a);
      }
    }
  }

  // ---------------------------------------------------------------------
  // Announcing an object

  /** Along the ancestors of `p`, something owed further up means that something is owed nearer. */
  ghost predicate OwedToward(objs: Table, p: Path) {
    forall a, b :: a in objs && b in objs && a != [] && a < b && b < p && objs[a].added != [] ==> objs[b].added != []
  }

  ghost predicate AtOrAbove(q: Path, p: Path) {
    q != [] && q <= p
  }

  function SettledNode(n: Node, settle: bool): Node {
    if settle then n.(added := []) else n
  }

  /** `r` is `objs` with nothing owed for the objects at or above `p`. */
  ghost predicate Settles(objs: Table, p: Path, r: Table) {
    r.Keys == objs.Keys && forall q :: q in objs ==> r[q] == SettledNode(objs[q], AtOrAbove(q, p))
  }

  /** `r` is `objs` with nothing owed for the objects strictly above `p`. */
  ghost predicate SettlesAbove(objs: Table, p: Path, r: Table) {
    r.Keys == objs.Keys && forall q :: q in objs ==> r[q] == SettledNode(objs[q], q != [] && q < p)
  }

  lemma NothingToSettle(objs: Table, p: Path, up: Option<Path>)
    requires up == Above(objs.Keys, p) && OwedToward(objs, p)
    requires up.None? || up.value == [] || objs[up.value].added == []
    ensures SettlesAbove(objs, p, objs)
  {
    AboveIsPrefix(objs.Keys, p);
    forall q | q in objs && q != [] && q < p ensures objs[q].added == [] {
      AboveIsNearest(objs.Keys, p, q);
      if q != up.value {
        ProperPrefix(q, up.value);
      }
    }
  }

  lemma SettledFurtherUp(objs: Table, p: Path, u: Path, r: Table)
    requires Above(objs.Keys, p) == Some(u) && Settles(objs, u, r)
    ensures SettlesAbove(objs, p, r)
  {
    AboveIsPrefix(objs.Keys, p);
    forall q | q in objs ensures AtOrAbove(q, u) <==> q != [] && q < p {
      if q != [] && q < p { AboveIsNearest(objs.Keys, p, q); }
      if q <= u { PrefixThenProper(q, u, p); }
    }
  }

  lemma PrefixThenProper(q: Path, u: Path, p: Path)
    requires q <= u && u < p
    ensures q < p
  {
    if q != u {
      ProperPrefix(q, u);
      BelowChild(q, u, p);
    }
  }

  lemma AnnounceOne(s: Server, m: Server, p: Path, r: Server, entries: seq<IfaceProps>)
    requires p in s.objects && p != [] && SettlesAbove(s.objects, p, m.objects) && PublishesInOrder(s, m)
    requires r.objects == m.objects[p := m.objects[p].(added := [])] && r.out == m.out + [InterfacesAdded(p, entries)]
    ensures Settles(s.objects, p, r.objects) && PublishesInOrder(s, r)
  {
    forall q | q in s.objects ensures r.objects[q] == SettledNode(s.objects[q], AtOrAbove(q, p)) {
      if q != p && q <= p { ProperPrefix(q, p); }
    }
    assert r.out[|m.out|] == InterfacesAdded(p, entries);
    assert AncestorsFirst(m, r);
    forall a | a in m.objects && m.objects[a].added != [] && r.objects[a].added == []
      ensures Announces(r.out, |m.out|, |r.out|, a)
    {
      assert a == p;
    }
    InOrderTransitive(s, m, r);
  }

  /** The parent pointers of the objects at and above `p` lead to the nearest registered ancestors. */
  ghost predicate NearestAbove(objs: Table, p: Path) {
    forall q :: q in objs && q <= p ==> objs[q].links.parent == Above(objs.Keys, q)
  }

  lemma TreeNearest(objs: Table, p: Path)
    requires Tree(objs)
    ensures NearestAbove(objs, p)
  {
    forall q | q in objs ensures objs[q].links.parent == Above(objs.Keys, q) {
      assert TreeLinks(objs.Keys, q, objs[q].links);
    }
  }

  lemma NearestFurtherUp(objs: Table, p: Path, u: Path)
    requires NearestAbove(objs, p) && u < p
    ensures NearestAbove(objs, u)
  {
    forall q | q in objs && q <= u ensures objs[q].links.parent == Above(objs.Keys, q) {
      PrefixThenProper(q, u, p);
    }
  }

  /** Announcing an object settles it and everything above it, touches nothing else, and goes from the top
      down. */
  lemma {:induction false} EmitAddedSettles(s: Server, p: Path)
    requires p in s.objects && NearestAbove(s.objects, p) && s.attached && p != [] && OwedToward(s.objects, p)
    ensures Settles(s.objects, p, EmitAdded(s, p).objects)
    ensures PublishesInOrder(s, EmitAdded(s, p))
    decreases |p|
  {
    var up := Above(s.objects.Keys, p);
    var m := s;
    if up.Some? && s.objects[up.value].added != [] {
      m := EmitAdded(s, up.value);
      if up.value == [] {
        NothingToSettle(s.objects, p, up);
      } else {
        AboveIsPrefix(s.objects.Keys, p);
        OwedTowardUp(s.objects, up.value, p);
        NearestFurtherUp(s.objects, p, up.value);
        EmitAddedSettles(s, up.value);
        SettledFurtherUp(s.objects, p, up.value, m.objects);
      }
    } else {
      NothingToSettle(s.objects, p, up);
    }
    var n := m.objects[p];
    AnnounceOne(s, m, p, EmitAdded(s, p), IfaceEntries(s.showExperimental, Unpublished(n.ifaces, n.added)));
  }

  /** The announcement of what an object owes. */
  function Announcement(show: bool, p: Path, n: Node): Message {
    InterfacesAdded(p, IfaceEntries(show, Unpublished(n.ifaces, n.added)))
  }

  /** The announcements owed on the way from "/" down to `p`. */
  function OwedOn(objs: Table, show: bool, p: Path): seq<Message>
    decreases |p|
  {
    if p == [] then []
    else OwedOn(objs, show, Parent(p)) + if p in objs && objs[p].added != [] then [Announcement(show, p, objs[p])] else []
  }

  lemma {:induction false} OwedFromAbove(objs: Table, show: bool, p: Path)
    requires p != []
    ensures OwedOn(objs, show, Parent(p))
         == if Above(objs.Keys, p).Some? then OwedOn(objs, show, Above(objs.Keys, p).value) else []
    decreases |p|
  {
    if Parent(p) !in objs && Parent(p) != [] { OwedFromAbove(objs, show, Parent(p)); }
  }

  lemma {:induction false} NothingOwedOn(objs: Table, show: bool, p: Path)
    requires forall q :: q in objs && q != [] && q <= p ==> objs[q].added == []
    ensures OwedOn(objs, show, p) == []
    decreases |p|
  {
    if p != [] {
      forall q | q in objs && q != [] && q <= Parent(p) ensures objs[q].added == [] { PrefixThenProper(q, Parent(p), p); }
      NothingOwedOn(objs, show, Parent(p));
    }
  }

  lemma MessagesTwice(out: seq<Message>, a: seq<Message>, b: seq<Message>)
    ensures out + a + b == out + (a + b)
  {
  }

  /** Announcing an object that owes something sends exactly what is owed on the way down to it. */
  lemma {:induction false} EmitAddedExact(s: Server, p: Path)
    requires p in s.objects && NearestAbove(s.objects, p) && s.attached && p != [] && OwedToward(s.objects, p)
    requires s.objects[p].added != []
    ensures EmitAdded(s, p).out == s.out + OwedOn(s.objects, s.showExperimental, p)
    decreases |p|
  {
    var show := s.showExperimental;
    var up := Above(s.objects.Keys, p);
    OwedFromAbove(s.objects, show, p);
    if up.Some? && s.objects[up.value].added != [] && up.value != [] {
      AboveIsPrefix(s.objects.Keys, p);
      OwedTowardUp(s.objects, up.value, p);
      NearestFurtherUp(s.objects, p, up.value);
      EmitAddedSettles(s, up.value);
      EmitAddedExact(s, up.value);
      assert EmitAdded(s, up.value).objects[p] == SettledNode(s.objects[p], AtOrAbove(p, up.value));
      MessagesTwice(s.out, OwedOn(s.objects, show, up.value), [Announcement(show, p, s.objects[p])]);
    } else {
      if up.Some? && up.value != [] { SettledUp(s.objects, p, up.value); NothingOwedOn(s.objects, show, up.value); }
      assert OwedOn(s.objects, show, Parent(p)) == [];
      assert [] + [Announcement(show, p, s.objects[p])] == [Announcement(show, p, s.objects[p])];
    }
  }

  lemma SettledUp(objs: Table, p: Path, u: Path)
    requires Above(objs.Keys, p) == Some(u) && OwedToward(objs, p) && objs[u].added == []
    ensures forall q :: q in objs && q != [] && q <= u ==> objs[q].added == []
  {
    AboveIsPrefix(objs.Keys, p);
    forall q | q in objs && q != [] && q <= u ensures objs[q].added == [] {
      if q != u { ProperPrefix(q, u); }
    }
  }

  lemma OwedTowardUp(objs: Table, u: Path, p: Path)
    requires OwedToward(objs, p) && u < p
    ensures OwedToward(objs, u)
  {
    forall a, b | a in objs && b in objs && a != [] && a < b && b < u && objs[a].added != [] ensures objs[b].added != [] {
      BelowChild(b, u, p);
    }
  }

  // ---------------------------------------------------------------------
  // Adding an interface

  /** `Orderable`, except that nothing is asked of what is owed for `p`. */
  ghost predicate OrderableBut(s: Server, p: Path) {
    && Tree(s.objects)
    && [] in s.objects
    && (forall q :: q in s.objects ==> AllOrNothing(s.objects[q]))
    && s.objects[[]].added == []
    && (!s.attached ==> forall q :: q in s.objects && q != [] && q != p ==> s.objects[q].added != [])
    && (forall a, q :: a in s.objects && q in s.objects && q != p && a != [] && a < q && s.objects[a].added != []
                       ==> s.objects[q].added != [])
  }

  lemma OrderableIsOrderableBut(s: Server, p: Path)
    requires Orderable(s) && [] in s.objects
    ensures OrderableBut(s, p)
  {
  }

  lemma OrderableToward(s: Server, p: Path, n: Node)
    requires OrderableBut(s, p) && p in s.objects
    ensures OwedToward(s.objects[p := n], p)
  {
    var t := s.objects[p := n];
    forall a, b | a in t && b in t && a != [] && a < b && b < p && t[a].added != [] ensures t[b].added != [] {
      BelowChild(a, b, p);
    }
  }

  /** Storing an object that owes something and announcing it. */
  lemma AddPendingSettles(s: Server, p: Path, n: Node)
    requires OrderableBut(s, p) && p in s.objects && s.attached && p != []
    requires n.links == s.objects[p].links && n.added != [] && n.removed == [] && !n.pendingProp
    ensures Settles(s.objects[p := n], p, AddPending(s, p, n).objects)
    ensures PublishesInOrder(s, AddPending(s, p, n))
  {
    var s1 := s.(objects := s.objects[p := n]);
    TreeOfLinks(s.objects, s1.objects);
    OrderableToward(s, p, n);
    TreeNearest(s1.objects, p);
    EmitAddedSettles(s1, p);
    var m := EmitAdded(s1, p);
    assert m.objects[p] == SettledNode(n, AtOrAbove(p, p));
    assert AddPending(s, p, n) == m;
    InOrderFromStored(s, s1, p, m);
  }

  lemma InOrderFromStored(s: Server, s1: Server, p: Path, r: Server)
    requires p in s.objects && p in s1.objects && s1.objects[p].added != []
    requires s1.out == s.out && s1.objects == s.objects[p := s1.objects[p]] && PublishesInOrder(s1, r)
    ensures PublishesInOrder(s, r)
  {
  }

  lemma ProperThenPrefix(a: Path, q: Path, p: Path)
    requires a < q && q <= p
    ensures a < p
  {
    BelowChild(a, q, p);
  }

  /** After the objects at or above `p` are settled, what is owed is owed downward again. */
  lemma SettledOrderable(s: Server, p: Path, n: Node, r: Server)
    requires OrderableBut(s, p) && p in s.objects && s.attached && p != [] && SameFlags(s, r)
    requires Settles(s.objects[p := n], p, r.objects) && n.links == s.objects[p].links && n.removed == []
    ensures Orderable(r)
  {
    var t := s.objects[p := n];
    assert SameLinks(s.objects, r.objects) by {
      forall q | q in s.objects ensures s.objects[q].links == r.objects[q].links {
        assert r.objects[q] == SettledNode(t[q], AtOrAbove(q, p));
      }
    }
    TreeOfLinks(s.objects, r.objects);
    forall q | q in r.objects ensures AllOrNothing(r.objects[q]) {
      assert r.objects[q] == SettledNode(t[q], AtOrAbove(q, p));
      assert q != p ==> AllOrNothing(s.objects[q]);
    }
    assert r.objects[[]] == SettledNode(t[[]], AtOrAbove([], p));
    forall a, q | a in r.objects && q in r.objects && a != [] && a < q && r.objects[a].added != []
      ensures r.objects[q].added != []
    {
      assert r.objects[a] == SettledNode(t[a], AtOrAbove(a, p));
      assert r.objects[q] == SettledNode(t[q], AtOrAbove(q, p));
      if q <= p { ProperThenPrefix(a, q, p); }
    }
  }

  lemma {:induction false} RootHasNoParent(objs: Table, p: Path)
    requires Tree(objs) && [] in objs && p in objs
    ensures objs[p].links.parent.None? <==> p == []
  {
    assert TreeLinks(objs.Keys, p, objs[p].links);
    if p != [] {
      AboveIsNearest(objs.Keys, p, []);
    }
  }

  lemma StoredOrderable(s: Server, p: Path, n: Node, r: Server)
    requires OrderableBut(s, p) && p in s.objects && SameFlags(s, r) && r.objects == s.objects[p := n]
    requires n.links == s.objects[p].links && AllOrNothing(n)
    requires if p == [] then n.added == [] else !s.attached && n.added != []
    ensures Orderable(r)
  {
    assert SameLinks(s.objects, r.objects);
    TreeOfLinks(s.objects, r.objects);
  }

  lemma AddInterfaceOrderable(s: Server, p: Path, d: Decl, state: map<Name, Variant>)
    requires OrderableBut(s, p) && p in s.objects && !s.objects[p].pendingProp
    requires SomethingVisible(s.showExperimental, d)
    requires p != [] && !s.attached ==> s.objects[p].added != [] || s.objects[p].ifaces == []
    ensures Orderable(AddInterface(s, p, d, state).server)
    ensures PublishesInOrder(s, AddInterface(s, p, d, state).server)
  {
    var n := s.objects[p];
    var n1 := WithIface(n, d, state);
    var r := AddInterface(s, p, d, state).server;
    assert AllOrNothing(n);
    RootHasNoParent(s.objects, p);
    if p == [] {
      StoredOrderable(s, p, n1, r);
    } else {
      var n2 := n1.(added := n1.added + [d.name]);
      if s.attached {
        AddPendingSettles(s, p, n2);
        SettledOrderable(s, p, n2, r);
      } else {
        UnattachedPending(s, p, n2);
        assert AllOrNothing(n2);
        StoredOrderable(s, p, n2, r);
      }
    }
  }

  lemma UnattachedPending(s: Server, p: Path, n: Node)
    requires p in s.objects && !s.attached
    requires n.links == s.objects[p].links && n.removed == [] && !n.pendingProp
    ensures AddPending(s, p, n) == s.(objects := s.objects[p := n])
  {
  }

  // ---------------------------------------------------------------------
  // Steps that announce nothing

  ghost predicate NothingAdded(out: seq<Message>, lo: nat) {
    forall j :: lo <= j < |out| ==> !out[j].InterfacesAdded?
  }

  ghost predicate SameOwed(m: Node, n: Node) {
    m.added == n.added && m.removed == n.removed && m.ifaces == n.ifaces
  }

  /** No announcement is sent, and away from `p` the objects that stay owe what they owed. */
  ghost predicate QuietStep(s: Server, r: Server, p: Path) {
    && s.out <= r.out && NothingAdded(r.out, |s.out|) && SameFlags(s, r)
    && r.objects.Keys <= s.objects.Keys
    && forall q :: q in r.objects && q != p ==> SameOwed(s.objects[q], r.objects[q])
  }

  lemma QuietTransitive(s: Server, m: Server, r: Server, p: Path)
    requires QuietStep(s, m, p) && QuietStep(m, r, p)
    ensures QuietStep(s, r, p)
  {
    forall j | |s.out| <= j < |r.out| ensures !r.out[j].InterfacesAdded? {
      if j < |m.out| { assert r.out[j] == m.out[j]; }
    }
    forall q | q in r.objects && q != p ensures SameOwed(s.objects[q], r.objects[q]) {
      assert SameOwed(s.objects[q], m.objects[q]) && SameOwed(m.objects[q], r.objects[q]);
    }
  }

  lemma QuietInOrder(s: Server, r: Server, p: Path)
    requires QuietStep(s, r, p) && (p in s.objects && p in r.objects && s.objects[p].added != [] ==> r.objects[p].added != [])
    ensures PublishesInOrder(s, r)
  {
    forall q | q in r.objects && s.objects[q].added != [] ensures r.objects[q].added != [] {
      if q != p { assert SameOwed(s.objects[q], r.objects[q]); }
    }
  }

  lemma InOrderThenQuiet(s: Server, m: Server, r: Server, p: Path)
    requires PublishesInOrder(s, m) && QuietStep(m, r, p) && p !in s.objects && s.objects.Keys <= m.objects.Keys
    ensures PublishesInOrder(s, r)
  {
    forall j, a | |s.out| <= j < |r.out| && r.out[j].InterfacesAdded? && a in s.objects && a != [] && a < r.out[j].path
                  && s.objects[a].added != []
      ensures Announces(r.out, |s.out|, j, a)
    {
      assert r.out[j] == m.out[j];
      AnnouncesMore(m.out, r.out, |s.out|, j, |s.out|, j, a);
    }
    forall a | a in s.objects && a in r.objects && s.objects[a].added != [] && r.objects[a].added == []
      ensures Announces(r.out, |s.out|, |r.out|, a)
    {
      assert SameOwed(m.objects[a], r.objects[a]);
      AnnouncesMore(m.out, r.out, |s.out|, |m.out|, |s.out|, |r.out|, a);
    }
  }

  /** Where an interface can be taken from `p`: what is owed for it is nothing or everything, and nothing at "/". */
  ghost predicate CanRelease(s: Server, p: Path) {
    && p in s.objects && AllOrNothing(s.objects[p]) && !s.objects[p].pendingProp
    && (if s.objects[p].links.parent.None? then s.objects[p].added == []
        else p != [] && (s.attached || s.objects[p].added != []))
  }

  lemma RemoveAnnounced(s: Server, p: Path, n: Node)
    requires p in s.objects && s.attached && p != []
    requires n.links == s.objects[p].links && n.added == [] && n.removed != [] && !n.pendingProp
    ensures AddPending(s, p, n)
            == s.(objects := s.objects[p := n.(removed := [])], out := s.out + [InterfacesRemoved(p, n.removed)])
  {
  }

  lemma StoreQuiet(s: Server, p: Path, n: Node, more: seq<Message>, r: Server)
    requires p in s.objects && r == s.(objects := s.objects[p := n], out := s.out + more)
    requires forall i :: 0 <= i < |more| ==> !more[i].InterfacesAdded?
    ensures QuietStep(s, r, p)
  {
  }

  /** Removing an interface drops it from what is owed, or tells the bus that it is gone. */
  lemma RemoveInterfaceQuiet(s: Server, p: Path, name: Name)
    requires CanRelease(s, p) && Has(s.objects[p].ifaces, name)
    ensures var r := RemoveInterface(s, p, name).server;
            && QuietStep(s, r, p) && p in r.objects
            && r.objects[p].removed == []
            && r.objects[p].added == RemoveFirst(s.objects[p].added, name)
  {
    var n := s.objects[p];
    var k := Find(n.ifaces, name);
    var r := RemoveInterface(s, p, name).server;
    var m := ChangeMessage(p, n.ifaces[k]);
    var n1 := n.(ifaces := Without(n.ifaces, k));
    assert [name] + n1.removed == [name];
    if name in n.added {
      StoreQuiet(s, p, n1.(added := RemoveFirst(n.added, name)), m, r);
    } else {
      assert n.ifaces[k].decl.name == name;
      assert n.added == [];
      if n.links.parent.None? {
        StoreQuiet(s, p, n1, m, r);
      } else {
        RemovePublishedQuiet(s, p, name, n1, m);
      }
    }
  }

  lemma RemovePublishedQuiet(s: Server, p: Path, name: Name, n: Node, m: seq<Message>)
    requires p in s.objects && s.attached && p != []
    requires n.links == s.objects[p].links && n.added == [] && n.removed == [] && !n.pendingProp
    requires forall i :: 0 <= i < |m| ==> !m[i].InterfacesAdded?
    ensures var r := AddPending(s.(out := s.out + m), p, n.(removed := [name]));
            QuietStep(s, r, p) && p in r.objects && r.objects[p].removed == [] && r.objects[p].added == []
  {
    var gone := InterfacesRemoved(p, [name]);
    RemoveAnnounced(s.(out := s.out + m), p, n.(removed := [name]));
    assert s.out + m + [gone] == s.out + (m + [gone]);
    StoreQuiet(s, p, n, m + [gone], AddPending(s.(out := s.out + m), p, n.(removed := [name])));
  }

  lemma {:induction false} RemoveFirstKeeps<T>(xs: seq<T>, x: T, y: T)
    requires y in xs && y != x
    ensures y in RemoveFirst(xs, x)
  {
    if xs[0] != x && xs[0] != y {
      RemoveFirstKeeps(xs[1..], x, y);
    }
  }

  /** What is owed stays nothing or everything. */
  lemma ReleaseAllOrNothing(n: Node, name: Name)
    requires AllOrNothing(n) && UniqueNames(n.ifaces) && Has(n.ifaces, name)
    ensures AllOrNothing(n.(ifaces := Without(n.ifaces, Find(n.ifaces, name)), added := RemoveFirst(n.added, name)))
    ensures forall other :: other != name && Has(n.ifaces, other) && n.added != [] ==> RemoveFirst(n.added, name) != []
  {
    var k := Find(n.ifaces, name);
    var w := Without(n.ifaces, k);
    if n.added != [] {
      forall i | 0 <= i < |w| ensures w[i].decl.name in RemoveFirst(n.added, name) {
        var j := if i < k then i else i + 1;
        assert w[i] == n.ifaces[j];
        RemoveFirstKeeps(n.added, name, n.ifaces[j].decl.name);
      }
      forall other | other != name && Has(n.ifaces, other) ensures RemoveFirst(n.added, name) != [] {
        RemoveFirstKeeps(n.added, name, n.ifaces[Find(n.ifaces, other)].decl.name);
      }
    }
  }

  lemma DropQuiet(s: Server, p: Path)
    requires p in s.objects
    ensures QuietStep(s, s.(objects := Removed(s.objects, p)), p)
  {
    var r := s.(objects := Removed(s.objects, p));
    forall q | q in r.objects && q != p ensures SameOwed(s.objects[q], r.objects[q]) {
      RemovedBody(s.objects, p, q);
    }
  }

  lemma RemoveIfPresentQuiet(s: Server, p: Path, name: Name)
    requires p in s.objects && (Has(s.objects[p].ifaces, name) ==> CanRelease(s, p))
    ensures QuietStep(s, RemoveInterface(s, p, name).server, p)
  {
    if Has(s.objects[p].ifaces, name) { RemoveInterfaceQuiet(s, p, name); }
  }

  lemma AfterIntrospectable(s: Server, p: Path)
    requires CanRelease(s, p)
    requires UniqueNames(s.objects[p].ifaces) && Has(s.objects[p].ifaces, INTROSPECTABLE)
    ensures var r := RemoveInterface(s, p, INTROSPECTABLE).server;
            QuietStep(s, r, p) && (Has(r.objects[p].ifaces, PROPERTIES) ==> CanRelease(r, p))
  {
    var n := s.objects[p];
    var k := Find(n.ifaces, INTROSPECTABLE);
    RemoveInterfaceQuiet(s, p, INTROSPECTABLE);
    RemoveInterfaceCore(s, p, INTROSPECTABLE);
    var r := RemoveInterface(s, p, INTROSPECTABLE).server;
    var m := n.(ifaces := Without(n.ifaces, k));
    assert SameCore(s.objects[p := m][p], r.objects[p]);
    ReleaseAllOrNothing(n, INTROSPECTABLE);
    HasWithout(n.ifaces, k, PROPERTIES);
  }

  /** Giving up the last reference announces nothing. */
  lemma LastUnrefQuiet(s: Server, p: Path)
    requires CanRelease(s, p) && s.objects[p].refcount == 1
    requires UniqueNames(s.objects[p].ifaces) && Has(s.objects[p].ifaces, INTROSPECTABLE)
    ensures QuietStep(s, PathUnref(s, p), p)
  {
    var n := s.objects[p].(refcount := 0);
    var s1 := s.(objects := s.objects[p := n]);
    assert QuietStep(s, s1, p);
    AfterIntrospectable(s1, p);
    var s2 := RemoveInterface(s1, p, INTROSPECTABLE).server;
    RemoveIfPresentQuiet(s2, p, PROPERTIES);
    var s3 := RemoveInterface(s2, p, PROPERTIES).server;
    DropQuiet(s3, p);
    QuietTransitive(s, s1, s2, p);
    QuietTransitive(s, s2, s3, p);
    QuietTransitive(s, s3, PathUnref(s, p), p);
  }

  // ---------------------------------------------------------------------
  // Calls

  lemma QuietOrderable(s: Server, r: Server, p: Path)
    requires Orderable(s) && QuietStep(s, r, p) && Tree(r.objects) && (r.objects == map[] || [] in r.objects)
    requires p in r.objects ==> AllOrNothing(r.objects[p])
    requires p in r.objects ==> (s.objects[p].added == [] <==> r.objects[p].added == [])
    ensures Orderable(r)
  {
    forall q | q in r.objects
      ensures AllOrNothing(r.objects[q]) && (s.objects[q].added == [] <==> r.objects[q].added == [])
    {
      assert AllOrNothing(s.objects[q]);
      if q != p { assert SameOwed(s.objects[q], r.objects[q]); }
    }
  }

  lemma OrderableRelease(s: Server, p: Path)
    requires Orderable(s) && p in s.objects && !s.objects[p].pendingProp
    ensures CanRelease(s, p)
  {
    RootHasNoParent(s.objects, p);
    assert AllOrNothing(s.objects[p]);
  }

  lemma RegisterOnOrderable(s: Server, p: Path, d: Decl, state: map<Name, Variant>)
    requires OrderableBut(s, p) && p in s.objects && !s.objects[p].pendingProp
    requires p != [] && !s.attached ==> s.objects[p].added != []
    requires Accepts(s.showExperimental, s.objects[p], d)
    ensures Orderable(RegisterOn(s, p, d, state).server)
    ensures PublishesInOrder(s, RegisterOn(s, p, d, state).server)
  {
    AddInterfaceOrderable(s, p, d, state);
    AddInterfaceCore(s, p, d, state);
    var a := AddInterface(s, p, d, state).server;
    assert SameCore(s.objects[p := WithIface(s.objects[p], d, state)][p], a.objects[p]);
    RegisterRestOrderable(a, p, d);
    InOrderTransitive(s, a, ClearCache(AddPropertiesInterface(a, p, d), p));
  }

  lemma RegisterRestOrderable(a: Server, p: Path, d: Decl)
    requires Orderable(a) && [] in a.objects && p in a.objects && !a.objects[p].pendingProp
    ensures Orderable(ClearCache(AddPropertiesInterface(a, p, d), p))
    ensures PublishesInOrder(a, ClearCache(AddPropertiesInterface(a, p, d), p))
  {
    var b := AddPropertiesInterface(a, p, d);
    if d.properties.Some? && !Has(a.objects[p].ifaces, PROPERTIES) {
      assert !Hidden(a.showExperimental, PROPERTIES_DECL.methods[0].experimental);
      OrderableIsOrderableBut(a, p);
      AddInterfaceOrderable(a, p, PROPERTIES_DECL, map[]);
    }
    ClearCacheOrderable(b, p);
    InOrderTransitive(a, b, ClearCache(b, p));
  }

  lemma StoreSameOwed(s: Server, p: Path, n: Node, r: Server)
    requires Orderable(s) && p in s.objects && SameFlags(s, r)
    requires r.objects == s.objects[p := n] && r.out == s.out
    requires n.links == s.objects[p].links && n.added == s.objects[p].added && n.removed == s.objects[p].removed
    requires |n.ifaces| == |s.objects[p].ifaces|
    requires forall i :: 0 <= i < |n.ifaces| ==> n.ifaces[i].decl == s.objects[p].ifaces[i].decl
    ensures Orderable(r) && PublishesInOrder(s, r)
  {
    assert SameLinks(s.objects, r.objects);
    TreeOfLinks(s.objects, r.objects);
    assert AllOrNothing(s.objects[p]);
    assert QuietStep(s, r, p);
    QuietOrderable(s, r, p);
    QuietInOrder(s, r, p);
  }

  lemma ClearCacheOrderable(s: Server, p: Path)
    requires Orderable(s) && p in s.objects
    ensures Orderable(ClearCache(s, p)) && PublishesInOrder(s, ClearCache(s, p))
  {
    StoreSameOwed(s, p, s.objects[p].(cache := Empty), ClearCache(s, p));
  }

  /** The first path to be registered is "/". */
  ghost predicate RootFirst(s: Server, call: Call) {
    call.RegisterCall? ==> call.path == [] || [] in s.objects
  }

  lemma RegisterExistingOrderable(s: Server, p: Path, d: Decl, state: map<Name, Variant>)
    requires Sound(s) && Orderable(s) && p in s.objects && ValidPath(p) && ValidInterface(d.name)
    ensures Orderable(Register(s, p, d, state).server) && PublishesInOrder(s, Register(s, p, d, state).server)
  {
    assert Counted(s.objects[p]) && Quiet(s.objects[p]);
    if Accepts(s.showExperimental, s.objects[p], d) {
      RegisterUnfolds(s, p, d, state);
      AcceptReferencedOrderable(s, p, d, state);
    } else {
      RegisterRefused(s, p, d, state);
      SameStateOrderable(s);
    }
  }

  lemma SameStateOrderable(s: Server)
    ensures PublishesInOrder(s, s)
  {
  }

  lemma AcceptReferencedOrderable(s: Server, p: Path, d: Decl, state: map<Name, Variant>)
    requires Orderable(s) && p in s.objects
    requires !s.objects[p].pendingProp && Accepts(s.showExperimental, s.objects[p], d)
    ensures var r := RegisterOn(Referenced(s, p), p, d, state).server; Orderable(r) && PublishesInOrder(s, r)
  {
    AcceptOrderable(s, Referenced(s, p), p, d, state);
  }

  lemma AcceptOrderable(s: Server, s1: Server, p: Path, d: Decl, state: map<Name, Variant>)
    requires Orderable(s) && p in s.objects && SameFlags(s, s1) && s1.out == s.out
    requires s1.objects == s.objects[p := s.objects[p].(refcount := s.objects[p].refcount + 1)]
    requires !s.objects[p].pendingProp && Accepts(s.showExperimental, s.objects[p], d)
    ensures Orderable(RegisterOn(s1, p, d, state).server) && PublishesInOrder(s, RegisterOn(s1, p, d, state).server)
  {
    StoreSameOwed(s, p, s1.objects[p], s1);
    OrderableIsOrderableBut(s1, p);
    RegisterOnOrderable(s1, p, d, state);
    InOrderTransitive(s, s1, RegisterOn(s1, p, d, state).server);
  }

  lemma InsertedOrderable(s: Server, p: Path, s0: Server)
    requires Orderable(s) && Calm(s.objects) && p !in s.objects && s0 == s.(objects := Inserted(s.objects, p))
    requires forall q :: q in s.objects ==> !(p < q)
    requires p == [] || [] in s.objects
    ensures OrderableBut(s0, p) && PublishesInOrder(s, s0) && s.objects.Keys <= s0.objects.Keys
    ensures s0.objects[p].ifaces == [] && s0.objects[p].added == [] && !s0.objects[p].pendingProp
  {
    InsertKeepsTree(s.objects, p);
    InsertedCalm(s.objects, p);
    var t := s0.objects;
    forall q | q in t ensures SameBody(s.objects[p := FRESH_NODE][q], t[q]) && AllOrNothing(t[q]) {
      assert SameBody(s.objects[p := FRESH_NODE][q], t[q]);
      assert q != p ==> AllOrNothing(s.objects[q]);
    }
    assert s.objects == map[] || p != [];
  }

  /** A new path, announced with its first interface. */
  lemma FreshOrderable(s: Server, p: Path)
    requires Sound(s) && Orderable(s) && p !in s.objects && (p == [] || [] in s.objects)
    requires forall q :: q in s.objects ==> !(p < q)
    ensures Orderable(PathRef(s, p)) && PublishesInOrder(s, PathRef(s, p)) && [] in PathRef(s, p).objects
  {
    var s0 := s.(objects := Inserted(s.objects, p));
    InsertedOrderable(s, p, s0);
    assert !Hidden(s.showExperimental, INTROSPECTABLE_DECL.methods[0].experimental);
    AddInterfaceOrderable(s0, p, INTROSPECTABLE_DECL, map[]);
    InOrderTransitive(s, s0, AddInterface(s0, p, INTROSPECTABLE_DECL, map[]).server);
  }

  lemma RegisterIsOn(s: Server, p: Path, d: Decl, state: map<Name, Variant>)
    requires ValidPath(p) && ValidInterface(d.name)
    ensures Register(s, p, d, state) == RegisterOn(PathRef(s, p), p, d, state)
  {
  }

  lemma FreshShape(s: Server, p: Path)
    requires Sound(s) && p !in s.objects
    ensures var n := PathRef(s, p).objects[p];
            !n.pendingProp && n.refcount == 1 && n.ifaces == [Iface(INTROSPECTABLE_DECL, [], map[])]
  {
    FreshRefCore(s, p);
    assert SameCore(Inserted(s.objects, p)[p := FreshNode(s.objects, p)][p], PathRef(s, p).objects[p]);
  }

  lemma RegisterNewOrderable(s: Server, p: Path, d: Decl, state: map<Name, Variant>)
    requires Sound(s) && Orderable(s) && p !in s.objects && ValidPath(p) && ValidInterface(d.name)
    requires (p == [] || [] in s.objects) && forall q :: q in s.objects ==> !(p < q)
    requires Tree(Register(s, p, d, state).server.objects)
    ensures Orderable(Register(s, p, d, state).server) && PublishesInOrder(s, Register(s, p, d, state).server)
  {
    FreshOrderable(s, p);
    FreshShape(s, p);
    RegisterIsOn(s, p, d, state);
    RegisterFreshOn(s, PathRef(s, p), p, d, state);
  }

  lemma RegisterFreshOn(s: Server, s1: Server, p: Path, d: Decl, state: map<Name, Variant>)
    requires p !in s.objects && Orderable(s1) && PublishesInOrder(s, s1) && s1.objects.Keys == s.objects.Keys + {p}
    requires [] in s1.objects && (p == [] ==> s.objects == map[])
    requires !s1.objects[p].pendingProp && s1.objects[p].refcount == 1
    requires s1.objects[p].ifaces == [Iface(INTROSPECTABLE_DECL, [], map[])]
    requires Tree(RegisterOn(s1, p, d, state).server.objects)
    ensures Orderable(RegisterOn(s1, p, d, state).server) && PublishesInOrder(s, RegisterOn(s1, p, d, state).server)
  {
    if Accepts(s1.showExperimental, s1.objects[p], d) {
      OrderableIsOrderableBut(s1, p);
      RegisterOnOrderable(s1, p, d, state);
      InOrderTransitive(s, s1, RegisterOn(s1, p, d, state).server);
    } else {
      RegisterOnRefused(s1, p, d, state);
      RefuseFreshOn(s, s1, p);
    }
  }

  lemma RefuseFreshOn(s: Server, s1: Server, p: Path)
    requires p !in s.objects && Orderable(s1) && PublishesInOrder(s, s1) && s1.objects.Keys == s.objects.Keys + {p}
    requires [] in s1.objects && (p == [] ==> s.objects == map[])
    requires !s1.objects[p].pendingProp && s1.objects[p].refcount == 1
    requires s1.objects[p].ifaces == [Iface(INTROSPECTABLE_DECL, [], map[])]
    requires Tree(PathUnref(s1, p).objects)
    ensures Orderable(PathUnref(s1, p)) && PublishesInOrder(s, PathUnref(s1, p))
  {
    OnlyIntrospectable(s1.objects[p].ifaces);
    LastUnrefCore(s1, p);
    OneKeyLess(s.objects.Keys, s1.objects.Keys, PathUnref(s1, p).objects.Keys, p);
    RefusedOrderable(s, s1, p);
  }

  lemma OnlyIntrospectable(ifaces: seq<Iface>)
    requires ifaces == [Iface(INTROSPECTABLE_DECL, [], map[])]
    ensures UniqueNames(ifaces) && Has(ifaces, INTROSPECTABLE)
  {
    assert ifaces[0].decl.name == INTROSPECTABLE;
  }

  lemma OneKeyLess(a: set<Path>, b: set<Path>, c: set<Path>, p: Path)
    requires p !in a && b == a + {p} && c == b - {p}
    ensures c == a
  {
  }

  lemma RefusedOrderable(s: Server, s1: Server, p: Path)
    requires p !in s.objects && Orderable(s1) && PublishesInOrder(s, s1) && s1.objects.Keys == s.objects.Keys + {p}
    requires !s1.objects[p].pendingProp && s1.objects[p].refcount == 1
    requires UniqueNames(s1.objects[p].ifaces) && Has(s1.objects[p].ifaces, INTROSPECTABLE)
    requires Tree(PathUnref(s1, p).objects) && ([] in s.objects || (p == [] && s.objects == map[]))
    requires PathUnref(s1, p).objects.Keys == s.objects.Keys
    ensures Orderable(PathUnref(s1, p)) && PublishesInOrder(s, PathUnref(s1, p))
  {
    OrderableRelease(s1, p);
    LastUnrefQuiet(s1, p);
    QuietOrderable(s1, PathUnref(s1, p), p);
    InOrderThenQuiet(s, s1, PathUnref(s1, p), p);
  }

  lemma RegisterOrderable(s: Server, p: Path, d: Decl, state: map<Name, Variant>)
    requires Sound(s) && Orderable(s) && (p == [] || [] in s.objects)
    requires p !in s.objects ==> forall q :: q in s.objects ==> !(p < q)
    requires Tree(Register(s, p, d, state).server.objects)
    ensures Orderable(Register(s, p, d, state).server) && PublishesInOrder(s, Register(s, p, d, state).server)
  {
    if !ValidPath(p) || !ValidInterface(d.name) {
      SameStateOrderable(s);
    } else if p in s.objects {
      RegisterExistingOrderable(s, p, d, state);
    } else {
      RegisterNewOrderable(s, p, d, state);
    }
  }

  /** Taking an interface away, short of the last one. */
  lemma ReleaseOrderable(s: Server, p: Path, name: Name)
    requires Sound(s) && Orderable(s) && p in s.objects && Has(s.objects[p].ifaces, name)
    requires s.objects[p].refcount > 1 && name != INTROSPECTABLE && Tree(Unregister(s, p, name).server.objects)
    ensures Orderable(Unregister(s, p, name).server) && PublishesInOrder(s, Unregister(s, p, name).server)
  {
    var n := s.objects[p];
    assert Counted(n) && Quiet(n);
    OrderableRelease(s, p);
    RemoveInterfaceQuiet(s, p, name);
    RemoveInterfaceCore(s, p, name);
    ReleaseAllOrNothing(n, name);
    UnregisterUnfolds(s, p, name);
    var a := RemoveInterface(s, p, name).server;
    var m := n.(ifaces := Without(n.ifaces, Find(n.ifaces, name)));
    assert SameCore(s.objects[p := m][p], a.objects[p]);
    ReleaseRest(s, a, p);
  }

  lemma ReleaseRest(s: Server, a: Server, p: Path)
    requires Orderable(s) && p in s.objects && p in a.objects && QuietStep(s, a, p) && a.objects.Keys == s.objects.Keys
    requires a.objects[p].refcount > 1 && AllOrNothing(a.objects[p])
    requires s.objects[p].added == [] <==> a.objects[p].added == []
    requires Tree(PathUnref(ClearCache(a, p), p).objects)
    ensures Orderable(PathUnref(ClearCache(a, p), p)) && PublishesInOrder(s, PathUnref(ClearCache(a, p), p))
  {
    var r := PathUnref(ClearCache(a, p), p);
    UnrefShared(ClearCache(a, p), p);
    assert QuietStep(a, r, p);
    QuietTransitive(s, a, r, p);
    QuietOrderable(s, r, p);
    QuietInOrder(s, r, p);
  }

  lemma EmptyWithoutRoot(objs: Table)
    requires Tree(objs) && [] in objs && objs[[]].links.children == []
    ensures objs.Keys == {[]}
  {
    forall q | q in objs ensures q == [] {
      if q != [] {
        var c := ChildOnTheWay(objs, [], q);
      }
    }
  }

  /** Taking the last interface away. */
  lemma ReleaseLastOrderable(s: Server, p: Path, name: Name)
    requires Sound(s) && Orderable(s) && p in s.objects && Has(s.objects[p].ifaces, name)
    requires s.objects[p].refcount == 1 && name != INTROSPECTABLE && s.objects[p].links.children == []
    requires Tree(Unregister(s, p, name).server.objects)
    ensures Orderable(Unregister(s, p, name).server) && PublishesInOrder(s, Unregister(s, p, name).server)
  {
    var n := s.objects[p];
    assert Counted(n) && Quiet(n);
    OrderableRelease(s, p);
    UnregisterUnfolds(s, p, name);
    UnregisterLast(s, p, name);
    AfterLast(s, p, name);
    var a := ClearCache(RemoveInterface(s, p, name).server, p);
    LastUnrefQuiet(a, p);
    LastReleased(s, a, PathUnref(a, p), p);
  }

  lemma LastReleased(s: Server, a: Server, r: Server, p: Path)
    requires Orderable(s) && QuietStep(s, a, p) && QuietStep(a, r, p) && Tree(r.objects)
    requires p in s.objects && r.objects.Keys == s.objects.Keys - {p} && s.objects[p].links.children == []
    ensures Orderable(r) && PublishesInOrder(s, r)
  {
    QuietTransitive(s, a, r, p);
    if p == [] { EmptyWithoutRoot(s.objects); assert r.objects == map[]; }
    QuietOrderable(s, r, p);
    QuietInOrder(s, r, p);
  }

  lemma AfterLast(s: Server, p: Path, name: Name)
    requires CanRelease(s, p) && Has(s.objects[p].ifaces, name) && s.objects[p].refcount == 1
    requires name != INTROSPECTABLE && Has(s.objects[p].ifaces, INTROSPECTABLE) && UniqueNames(s.objects[p].ifaces)
    ensures var a := ClearCache(RemoveInterface(s, p, name).server, p);
            && QuietStep(s, a, p) && CanRelease(a, p) && a.objects[p].refcount == 1
            && UniqueNames(a.objects[p].ifaces) && Has(a.objects[p].ifaces, INTROSPECTABLE)
  {
    var n := s.objects[p];
    var k := Find(n.ifaces, name);
    RemoveInterfaceQuiet(s, p, name);
    RemoveInterfaceCore(s, p, name);
    ReleaseAllOrNothing(n, name);
    var t := RemoveInterface(s, p, name).server;
    var m := n.(ifaces := Without(n.ifaces, k));
    assert SameCore(s.objects[p := m][p], t.objects[p]);
    HasWithout(n.ifaces, k, INTROSPECTABLE);
    WithoutUnique(n.ifaces, k);
    assert QuietStep(t, ClearCache(t, p), p);
    QuietTransitive(s, t, ClearCache(t, p), p);
  }

  lemma UnregisterOrderable(s: Server, p: Path, name: Name)
    requires Sound(s) && Orderable(s) && name != INTROSPECTABLE && Tree(Unregister(s, p, name).server.objects)
    requires p in s.objects && Has(s.objects[p].ifaces, name) && s.objects[p].refcount == 1 ==> s.objects[p].links.children == []
    ensures Orderable(Unregister(s, p, name).server) && PublishesInOrder(s, Unregister(s, p, name).server)
  {
    if p !in s.objects || !Has(s.objects[p].ifaces, name) {
      UnregisterRefused(s, p, name);
      SameStateOrderable(s);
    } else {
      assert Counted(s.objects[p]);
      if s.objects[p].refcount > 1 {
        ReleaseOrderable(s, p, name);
      } else {
        ReleaseLastOrderable(s, p, name);
      }
    }
  }

  lemma {:induction false} ChangesAddNothing(p: Path, ifaces: seq<Iface>)
    ensures forall i :: 0 <= i < |ChangeMessages(p, ifaces)| ==> !ChangeMessages(p, ifaces)[i].InterfacesAdded?
  {
    if ifaces != [] {
      ChangesAddNothing(p, ifaces[1..]);
    }
  }

  /** While nothing can be announced for an object, its property changes go straight out. */
  lemma PendingIsFlush(s: Server, p: Path, n: Node)
    requires p in s.objects && n.pendingProp && n.removed == [] && (n.added == [] || !s.attached)
    ensures AddPending(s, p, n) == FlushProperties(s.(objects := s.objects[p := n]), p)
  {
  }

  lemma FlushStored(s: Server, p: Path, n: Node)
    requires p in s.objects
    ensures FlushProperties(s.(objects := s.objects[p := n]), p)
            == s.(objects := s.objects[p := n.(pendingProp := false, ifaces := Quieted(n.ifaces))],
                  out := s.out + ChangeMessages(p, n.ifaces))
  {
    UpdateTwice(s.objects, p, n, n.(pendingProp := false, ifaces := Quieted(n.ifaces)));
  }

  lemma EmitChangedOrderable(s: Server, p: Path, iface: Name, name: Name, flush: bool)
    requires Orderable(s)
    ensures Orderable(EmitChanged(s, p, iface, name, flush))
    ensures PublishesInOrder(s, EmitChanged(s, p, iface, name, flush))
  {
    var r := EmitChanged(s, p, iface, name, flush);
    SameStateOrderable(s);
    if p in s.objects {
      var n := s.objects[p];
      var k := Find(n.ifaces, iface);
      if k < |n.ifaces| && !(s.attached && iface in n.added) {
        var found := FindProperty(s.showExperimental, Properties(n.ifaces[k].decl), name);
        if found.Some? && found.value !in n.ifaces[k].pending {
          assert AllOrNothing(n);
          var q := Queued(n, k, found.value);
          if !flush { PendingIsFlush(s, p, q); }
          FlushStored(s, p, q);
          ChangesAddNothing(p, q.ifaces);
          var m := q.(pendingProp := false, ifaces := Quieted(q.ifaces));
          FlushedOrderable(s, p, m, ChangeMessages(p, q.ifaces), r);
        }
      }
    }
  }

  lemma FlushedOrderable(s: Server, p: Path, m: Node, more: seq<Message>, r: Server)
    requires Orderable(s) && p in s.objects && r == s.(objects := s.objects[p := m], out := s.out + more)
    requires forall i :: 0 <= i < |more| ==> !more[i].InterfacesAdded?
    requires m.links == s.objects[p].links && m.added == s.objects[p].added && m.removed == s.objects[p].removed
    requires |m.ifaces| == |s.objects[p].ifaces|
    requires forall i :: 0 <= i < |m.ifaces| ==> m.ifaces[i].decl == s.objects[p].ifaces[i].decl
    ensures Orderable(r) && PublishesInOrder(s, r)
  {
    var a := s.(objects := s.objects[p := m]);
    StoreSameOwed(s, p, m, a);
    StoreQuiet(a, p, m, more, r);
    QuietOrderable(a, r, p);
    QuietInOrder(a, r, p);
    InOrderTransitive(s, a, r);
  }

  lemma ChangeOrderable(s: Server, p: Path, iface: Name, name: Name, value: Option<Variant>, flush: bool)
    requires Orderable(s)
    ensures Orderable(ChangeProperty(s, p, iface, name, value, flush))
    ensures PublishesInOrder(s, ChangeProperty(s, p, iface, name, value, flush))
  {
    SameStateOrderable(s);
    if p in s.objects && Has(s.objects[p].ifaces, iface) {
      var n := WithState(s.objects[p], Find(s.objects[p].ifaces, iface), name, value);
      var a := s.(objects := s.objects[p := n]);
      StoreSameOwed(s, p, n, a);
      EmitChangedOrderable(a, p, iface, name, flush);
      InOrderTransitive(s, a, EmitChanged(a, p, iface, name, flush));
    }
  }

  lemma ManagerOrderable(s: Server, r: Server)
    requires Orderable(s) && [] in s.objects && r == AddManager(s)
    ensures Orderable(r) && PublishesInOrder(s, r)
  {
    RootHasNoParent(s.objects, []);
    var n := WithIface(s.objects[[]], MANAGER_DECL, map[]);
    assert !Hidden(s.showExperimental, MANAGER_DECL.methods[0].experimental);
    var a := s.(objects := s.objects[[] := n]);
    assert r == a.(attached := true);
    assert AllOrNothing(s.objects[[]]);
    assert SameLinks(s.objects, a.objects);
    TreeOfLinks(s.objects, a.objects);
    assert QuietStep(s, a, []);
    QuietOrderable(s, a, []);
    QuietInOrder(s, a, []);
  }

  lemma AttachOrderable(s: Server)
    requires Sound(s) && Orderable(s) && ([] in s.objects || s.objects == map[])
    ensures Orderable(Attach(s)) && PublishesInOrder(s, Attach(s))
  {
    var s1 := PathRef(s, ROOT);
    if [] in s.objects {
      RefExisting(s, ROOT);
      StoreSameOwed(s, [], s1.objects[[]], s1);
    } else {
      FreshOrderable(s, []);
    }
    ManagerOrderable(s1, Attach(s));
    InOrderTransitive(s, s1, Attach(s));
  }

  lemma IntrospectOrderable(s: Server, p: Path)
    requires Orderable(s) && p in s.objects
    ensures Orderable(Introspect(s, p)) && PublishesInOrder(s, Introspect(s, p))
  {
    SameStateOrderable(s);
    if s.objects[p].cache.Empty? {
      StoreSameOwed(s, p, s.objects[p].(cache := Text(Generate(s.objects, s.showExperimental, p))), Introspect(s, p));
    }
  }

  // ---------------------------------------------------------------------
  // Every call, every run

  /** Every call in the callers' order keeps what is owed in order and publishes ancestors first. */
  lemma PerformOrderable(s: Server, call: Call)
    requires Sound(s) && Orderable(s) && Legal(s, call) && Orderly(s, call) && RootFirst(s, call)
    ensures Orderable(Perform(s, call)) && PublishesInOrder(s, Perform(s, call))
  {
    PerformTree(s, call);
    match call
    case RegisterCall(p, d, state) => RegisterOrderable(s, p, d, state);
    case UnregisterCall(p, name) => UnregisterOrderable(s, p, name);
    case ChangeCall(p, iface, prop, value, flush) => ChangeOrderable(s, p, iface, prop, value, flush);
    case IntrospectCall(p) => if p in s.objects { IntrospectOrderable(s, p); } else { SameStateOrderable(s); }
    case AttachCall => AttachOrderable(s);
  }

  ghost predicate RootedRun(s: Server, calls: seq<Call>) {
    && OrderlyRun(s, calls)
    && forall i :: 0 <= i < |calls| ==> RootFirst(Run(s, calls[..i]), calls[i])
  }

  lemma RootedPrefix(s: Server, calls: seq<Call>, k: nat)
    requires RootedRun(s, calls) && k <= |calls|
    ensures RootedRun(s, calls[..k])
  {
    forall i | 0 <= i < k ensures calls[..k][..i] == calls[..i] && calls[..k][i] == calls[i] {
    }
  }

  lemma {:induction false} RunsAreOrderable(show: bool, calls: seq<Call>)
    requires RootedRun(Started(show), calls)
    ensures Sound(Run(Started(show), calls)) && Orderable(Run(Started(show), calls))
  {
    if calls != [] {
      var k := |calls| - 1;
      RootedPrefix(Started(show), calls, k);
      RunsAreOrderable(show, calls[..k]);
      PerformSound(Run(Started(show), calls[..k]), calls[k]);
      PerformOrderable(Run(Started(show), calls[..k]), calls[k]);
    }
  }

  /** In every run that registers "/" first, parents before children and children gone before parents,
      with the manager attached at any time: an object with nothing owed has no ancestor below "/" with
      something owed, and in each call no announcement overtakes one that is owed for an ancestor. */
  lemma RunsPublishInOrder(show: bool, calls: seq<Call>, i: nat)
    requires RootedRun(Started(show), calls) && i < |calls|
    ensures OwedDownward(Run(Started(show), calls).objects)
    ensures AncestorsFirst(Run(Started(show), calls[..i]), Perform(Run(Started(show), calls[..i]), calls[i]))
  {
    RunsAreOrderable(show, calls);
    RootedPrefix(Started(show), calls, i);
    RunsAreOrderable(show, calls[..i]);
    PerformOrderable(Run(Started(show), calls[..i]), calls[i]);
  }
}
