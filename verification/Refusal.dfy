/** A registration that is refused, in any order of calls, after the manager is attached and before: what it does to the
    table of objects and what it sends, and exactly when it leaves no trace.
 */
module Refusal {
  import opened Bus
  import opened ObjectModel
  import opened ObjectCore
  import opened ObjectLifetime
  import opened ObjectTree
  import opened Introspection
  import opened Dangling
  import opened Publication
  import opened Exports
  import opened Views

  const INTROSPECTABLE_ENTRY := IfaceProps(INTROSPECTABLE, [])

  const INTROSPECTABLE_IFACE := Iface(INTROSPECTABLE_DECL, [], map[])

  /** The announcement of a new object and its withdrawal. */
  function MadeAndTakenBack(p: Path): seq<Message> {
    [InterfacesAdded(p, [INTROSPECTABLE_ENTRY]), InterfacesRemoved(p, [INTROSPECTABLE])]
  }

  lemma OnlyIntrospectableOwed(show: bool, p: Path, n: Node)
    requires n.ifaces == [INTROSPECTABLE_IFACE] && n.added == [INTROSPECTABLE]
    ensures Announcement(show, p, n) == InterfacesAdded(p, [INTROSPECTABLE_ENTRY])
  {
    assert n.ifaces[0].decl.name == INTROSPECTABLE;
    assert Find(n.ifaces, INTROSPECTABLE) == 0;
    var names := [INTROSPECTABLE];
    assert names[1..] == [];
    assert Unpublished(n.ifaces, names) == [INTROSPECTABLE_IFACE] + Unpublished(n.ifaces, names[1..]);
    assert Unpublished(n.ifaces, names) == [INTROSPECTABLE_IFACE];
    assert IfaceEntry(show, INTROSPECTABLE_IFACE) == INTROSPECTABLE_ENTRY;
  }

  // ---- announcing upward ----

  /** Announcing the object first announces its parent. */
  predicate GoesUp(objs: Table, q: Path)
    requires q in objs
  {
    var up := objs[q].links.parent;
    up.Some? && |up.value| < |q| && up.value in objs && objs[up.value].added != []
  }

  /** The objects that announcing `q` announces. */
  function Chain(objs: Table, q: Path): (c: set<Path>)
    requires q in objs
    ensures forall x :: x in c ==> x in objs && |x| <= |q|
    decreases |q|
  {
    if q == [] then {} else {q} + if GoesUp(objs, q) then Chain(objs, objs[q].links.parent.value) else {}
  }

  /** What is sent by announcing `q`, from the top down. */
  function OwedUp(objs: Table, show: bool, q: Path): seq<Message>
    requires q in objs
    decreases |q|
  {
    if q == [] then []
    else (if GoesUp(objs, q) then OwedUp(objs, show, objs[q].links.parent.value) else []) + [Announcement(show, q, objs[q])]
  }

  /** The table with nothing owed for these objects. */
  function Unowed(objs: Table, c: set<Path>): (r: Table)
    ensures r.Keys == objs.Keys
  {
    map q | q in objs :: if q in c then objs[q].(added := []) else objs[q]
  }

  lemma UnowedNothing(objs: Table)
    ensures Unowed(objs, {}) == objs
  {
  }

  lemma UnowedMore(objs: Table, c: set<Path>, q: Path)
    requires q in objs && q !in c
    ensures Unowed(objs, c)[q := objs[q].(added := [])] == Unowed(objs, {q} + c)
  {
  }

  /** In any table, announcing an object announces its chain and nothing else. */
  lemma {:induction false} EmitUp(s: Server, q: Path)
    requires q in s.objects && s.attached
    ensures EmitAdded(s, q) == s.(objects := Unowed(s.objects, Chain(s.objects, q)),
                                  out := s.out + OwedUp(s.objects, s.showExperimental, q))
    decreases |q|
  {
    var objs, show := s.objects, s.showExperimental;
    UnowedNothing(objs);
    assert s.out + [] == s.out;
    if q != [] {
      var m := [Announcement(show, q, objs[q])];
      if GoesUp(objs, q) {
        var u := objs[q].links.parent.value;
        EmitUp(s, u);
        UnowedMore(objs, Chain(objs, u), q);
        MessagesTwice(s.out, OwedUp(objs, show, u), m);
      } else {
        UnowedMore(objs, {}, q);
        assert {q} + {} == {q} && [] + m == m;
      }
    }
  }

  /** Agreement in what matters for announcing the object at `q`, if there is one. */
  ghost predicate SameUpward(a: Table, b: Table, q: Path) {
    (q in a <==> q in b) &&
    (q in a ==> a[q].links.parent == b[q].links.parent && a[q].added == b[q].added && a[q].ifaces == b[q].ifaces)
  }

  lemma {:induction false} SameChain(a: Table, b: Table, show: bool, q: Path)
    requires q in a && forall x :: |x| <= |q| ==> SameUpward(a, b, x)
    ensures q in b && Chain(a, q) == Chain(b, q) && OwedUp(a, show, q) == OwedUp(b, show, q)
    decreases |q|
  {
    assert SameUpward(a, b, q);
    if q != [] && a[q].links.parent.Some? && |a[q].links.parent.value| < |q| {
      var u := a[q].links.parent.value;
      assert SameUpward(a, b, u);
      if u in a { SameChain(a, b, show, u); }
    }
  }

  // ---- the attempt ----

  /** The new node in the table, before it is announced. */
  ghost predicate NewlyMade(t: Table, p: Path, n: Node) {
    && p in t && t[p].ifaces == [] && t[p].added == [] && t[p].removed == [] && !t[p].pendingProp && t[p].refcount == 1
    && n == t[p].(ifaces := [INTROSPECTABLE_IFACE], added := [INTROSPECTABLE])
  }

  lemma InsertedIsNew(objs: Table, p: Path)
    requires Calm(objs) && p !in objs
    ensures var t := Inserted(objs, p);
            NewlyMade(t, p, t[p].(ifaces := [INTROSPECTABLE_IFACE], added := [INTROSPECTABLE]))
    ensures forall q :: q in objs ==> SameBody(objs[q], Inserted(objs, p)[q])
  {
    var t := Inserted(objs, p);
    var base := objs[p := FRESH_NODE];
    InsertedCalm(objs, p);
    assert SameBody(base[p], t[p]);
    forall q | q in objs ensures SameBody(objs[q], t[q]) { assert SameBody(base[q], t[q]); }
  }

  /** The object above a new path, which is announced first if it owes something. */
  ghost predicate OwesNext(s: Server, p: Path) {
    var a := Above(s.objects.Keys, p);
    s.attached && a.Some? && a.value != [] && s.objects[a.value].added != []
  }

  ghost function ToldAbove(s: Server, p: Path): set<Path> {
    if OwesNext(s, p) then Chain(Walked(s.objects, p), Above(s.objects.Keys, p).value) else {}
  }

  /** The announcements owed above a new path. */
  ghost function OwedAbove(s: Server, p: Path): seq<Message> {
    if OwesNext(s, p) then OwedUp(Walked(s.objects, p), s.showExperimental, Above(s.objects.Keys, p).value) else []
  }

  lemma WalkedBodies(objs: Table, p: Path)
    ensures SameBodies(objs, Walked(objs, p))
  {
    if p != [] { InvalidateBodies(objs, Parent(p)); }
  }

  lemma MadeUpward(objs: Table, p: Path, n: Node, q: Path)
    requires Calm(objs) && p !in objs && Unlisted(objs, p) && q != p
    ensures SameUpward(Walked(objs, p), Inserted(objs, p)[p := n], q)
  {
    InsertedIsNew(objs, p);
    InsertedLinks(objs, p);
    WalkedBodies(objs, p);
    if q in objs { assert SameBody(objs[q], Inserted(objs, p)[q]) && SameBody(objs[q], Walked(objs, p)[q]); }
  }

  /** Announcing the new object. */
  lemma {:induction false} MadeChain(s: Server, p: Path, n: Node)
    requires Calm(s.objects) && p !in s.objects && p != [] && Unlisted(s.objects, p) && s.attached && p in Inserted(s.objects, p)
    requires n.links == Inserted(s.objects, p)[p].links && n.added == [INTROSPECTABLE] && n.ifaces == [INTROSPECTABLE_IFACE]
    ensures var t := Inserted(s.objects, p)[p := n];
            && Chain(t, p) == {p} + ToldAbove(s, p)
            && OwedUp(t, s.showExperimental, p) == OwedAbove(s, p) + [InterfacesAdded(p, [INTROSPECTABLE_ENTRY])]
  {
    var t, w := Inserted(s.objects, p)[p := n], Walked(s.objects, p);
    InsertedLinks(s.objects, p);
    OnlyIntrospectableOwed(s.showExperimental, p, n);
    forall x | x != p ensures SameUpward(w, t, x) { MadeUpward(s.objects, p, n, x); }
    WalkedBodies(s.objects, p);
    ChainAbove(s, p, n, t, w);
  }

  lemma {:induction false} ChainAbove(s: Server, p: Path, n: Node, t: Table, w: Table)
    requires p !in s.objects && p != [] && s.attached && w == Walked(s.objects, p) && p in t && t[p] == n
    requires SameBodies(s.objects, w) && n.links.parent == Above(s.objects.Keys, p) && forall x :: x != p ==> SameUpward(w, t, x)
    requires Announcement(s.showExperimental, p, n) == InterfacesAdded(p, [INTROSPECTABLE_ENTRY])
    ensures Chain(t, p) == {p} + ToldAbove(s, p)
    ensures OwedUp(t, s.showExperimental, p) == OwedAbove(s, p) + [InterfacesAdded(p, [INTROSPECTABLE_ENTRY])]
  {
    var a := Above(s.objects.Keys, p);
    if a.Some? {
      SameChain(w, t, s.showExperimental, a.value);
      ChainStart(s, p, t, w, a.value);
    }
  }

  lemma {:induction false} ChainStart(s: Server, p: Path, t: Table, w: Table, a: Path)
    requires a in s.objects && a in w && SameBody(s.objects[a], w[a]) && SameUpward(w, t, a) && |a| < |p|
    requires p in t && t[p].links.parent == Some(a)
    ensures GoesUp(t, p) <==> s.objects[a].added != []
    ensures a == [] ==> Chain(t, a) == {} && OwedUp(t, s.showExperimental, a) == []
  {
  }

  /** Making the object: what is owed above it is announced first, then its Introspectable interface. */
  lemma MakeObject(s: Server, p: Path, n: Node)
    requires Calm(s.objects) && s.attached && p !in s.objects && p != [] && Unlisted(s.objects, p) && [] in s.objects
    requires NewlyMade(Inserted(s.objects, p), p, n)
    ensures PathRef(s, p) == s.(objects := Unowed(Inserted(s.objects, p)[p := n], {p} + ToldAbove(s, p)),
                                out := s.out + (OwedAbove(s, p) + [InterfacesAdded(p, [INTROSPECTABLE_ENTRY])]))
    ensures n.links.parent.Some?
  {
    var s0 := s.(objects := Inserted(s.objects, p)[p := n]);
    InsertedLinks(s.objects, p);
    AboveIsNearest(s.objects.Keys, p, []);
    MadeChain(s, p, n);
    EmitUp(s0, p);
    RefIsEmit(s, p, n);
  }

  /** Referencing a new path is announcing the new node. */
  lemma {:induction false} RefIsEmit(s: Server, p: Path, n: Node)
    requires p !in s.objects && p != [] && NewlyMade(Inserted(s.objects, p), p, n) && n.links.parent.Some?
    requires p in EmitAdded(s.(objects := Inserted(s.objects, p)[p := n]), p).objects
    requires var m := EmitAdded(s.(objects := Inserted(s.objects, p)[p := n]), p).objects[p];
             !m.pendingProp && m.removed == []
    ensures PathRef(s, p) == EmitAdded(s.(objects := Inserted(s.objects, p)[p := n]), p)
  {
    var t := Inserted(s.objects, p);
    assert !Hidden(s.showExperimental, INTROSPECTABLE_DECL.methods[0].experimental);
    assert t[p].ifaces + [INTROSPECTABLE_IFACE] == [INTROSPECTABLE_IFACE];
    assert t[p].added + [INTROSPECTABLE] == [INTROSPECTABLE];
  }

  /** Unmaking it again: one message that the interface is gone, and the path is removed. */
  lemma UnmakeObject(s: Server, p: Path)
    requires p in s.objects && s.attached && p != [] && s.objects[p].links.parent.Some? && Paid(s.objects[p])
    requires s.objects[p].refcount == 1 && Quiet(s.objects[p])
    requires s.objects[p].ifaces == [INTROSPECTABLE_IFACE]
    ensures var n := s.objects[p].(refcount := 0, ifaces := []);
            PathUnref(s, p) == s.(objects := Removed(s.objects[p := n], p),
                                  out := s.out + [InterfacesRemoved(p, [INTROSPECTABLE])])
  {
    var m := s.objects[p].(refcount := 0);
    var s1 := s.(objects := s.objects[p := m]);
    assert m.ifaces[0].decl.name == INTROSPECTABLE;
    RemoveExact(s1, p, INTROSPECTABLE);
    assert Without(m.ifaces, 0) == [];
    UpdateTwice(s.objects, p, m, m.(ifaces := []));
  }

  lemma MadeAndUnmade(objs: Table, t: Table, x: Table, p: Path, q: Path)
    requires Calm(objs) && p !in objs && Unlisted(objs, p) && t == Inserted(objs, p) && q in objs
    requires x.Keys == t.Keys && x[q] == t[q].(added := x[q].added) && SameOff(t, x, p)
    ensures Removed(x, p)[q] == Walked(objs, p)[q].(cache := if q < p then Empty else objs[q].cache, added := x[q].added)
  {
    InsertedCalm(objs, p);
    var base := objs[p := FRESH_NODE];
    assert SameBody(base[q], t[q]);
    WalkedBodies(objs, p);
    assert SameBody(objs[q], Walked(objs, p)[q]);
    RemovedBody(x, p, q);
    InvalidateClears(base, p, q);
    InvalidateClears(x, p, q);
    DropCache(Invalidate(x, p).objects, p, q);
    InsertRemoveWalks(objs, p);
    RemovedSameOff(t, x, p);
    assert SameCore(Removed(t, p)[q], Removed(x, p)[q]);
  }

  /** What is left of an object when an attempt at `p` was given up. */
  ghost function Left(s: Server, p: Path, q: Path): Node
    requires q in s.objects
  {
    Walked(s.objects, p)[q].(cache := if q < p then Empty else s.objects[q].cache,
                             added := if q in ToldAbove(s, p) then [] else s.objects[q].added)
  }

  lemma GivenUp(s: Server, y: Table, p: Path, n: Node, m: Node)
    requires Calm(s.objects) && p !in s.objects && Unlisted(s.objects, p) && p in Inserted(s.objects, p)
    requires m.links == n.links == Inserted(s.objects, p)[p].links && p in y
    requires y == Unowed(Inserted(s.objects, p)[p := n], {p} + ToldAbove(s, p))[p := m]
    ensures Removed(y, p).Keys == s.objects.Keys && forall q :: q in s.objects ==> Removed(y, p)[q] == Left(s, p, q)
  {
    var t := Inserted(s.objects, p);
    InsertedIsNew(s.objects, p);
    UnowedOff(t, y, p, n, m, ToldAbove(s, p));
    forall q | q in s.objects ensures Removed(y, p)[q] == Left(s, p, q) {
      assert SameBody(s.objects[q], t[q]);
      MadeAndUnmade(s.objects, t, y, p, q);
    }
  }

  lemma UnowedOff(t: Table, y: Table, p: Path, n: Node, m: Node, c: set<Path>)
    requires p in t && m.links == n.links == t[p].links && y == Unowed(t[p := n], {p} + c)[p := m]
    ensures SameOff(t, y, p)
  {
    forall q | q in t ensures SameUnless(q == p, t[q], y[q]) {}
  }

  /** A refused registration of a new path, in any order of calls as long as no object lists the path: every object is what
      the walk up from the path makes of it, with the cached texts above the path cleared. Once the manager is attached,
      what was owed by the object above it, and by what its announcement announces first, is announced and no longer owed,
      and then the new object is announced and withdrawn. */
  lemma RefusedNewPath(s: Server, p: Path, d: Decl, state: map<Name, Variant>)
    requires Sound(s) && Unlisted(s.objects, p) && !Register(s, p, d, state).ok
    requires p !in s.objects && ValidPath(p) && ValidInterface(d.name)
    ensures var r := Register(s, p, d, state).server;
            && r.objects.Keys == s.objects.Keys && SameFlags(s, r)
            && (forall q :: q in s.objects ==> r.objects[q] == Left(s, p, q))
            && r.out == if s.attached then s.out + (OwedAbove(s, p) + MadeAndTakenBack(p)) else s.out
  {
    FreshRefCore(s, p);
    if Accepts(s.showExperimental, FreshNode(s.objects, p), d) {
      RegisterNew(s, p, d, state);
    } else {
      RegisterNewRefused(s, p, d, state);
      if s.attached { AttachedAttempt(s, p); } else { EarlyAttempt(s, p); }
    }
  }

  lemma AttachedAttempt(s: Server, p: Path)
    requires Sound(s) && s.attached && Unlisted(s.objects, p) && p !in s.objects
    ensures var r := PathUnref(PathRef(s, p), p);
            && r.objects.Keys == s.objects.Keys && (forall q :: q in s.objects ==> r.objects[q] == Left(s, p, q))
            && r.out == s.out + (OwedAbove(s, p) + MadeAndTakenBack(p))
  {
    var t := Inserted(s.objects, p);
    var n := t[p].(ifaces := [INTROSPECTABLE_IFACE], added := [INTROSPECTABLE]);
    AttachedHasRoot(s);
    InsertedIsNew(s.objects, p);
    MakeObject(s, p, n);
    Unwound(PathRef(s, p), t, p, n, ToldAbove(s, p));
    GivenUp(s, PathRef(s, p).objects[p := n.(refcount := 0, ifaces := [], added := [])], p, n, n.(refcount := 0, ifaces := [], added := []));
    PairLast(s.out, OwedAbove(s, p), p);
  }

  lemma PairLast(out: seq<Message>, owed: seq<Message>, p: Path)
    ensures out + (owed + [InterfacesAdded(p, [INTROSPECTABLE_ENTRY])]) + [InterfacesRemoved(p, [INTROSPECTABLE])]
         == out + (owed + MadeAndTakenBack(p))
  {
  }

  lemma AttachedHasRoot(s: Server)
    requires Sound(s) && s.attached
    ensures [] in s.objects
  {
  }

  lemma Unwound(s: Server, t: Table, p: Path, n: Node, c: set<Path>)
    requires p != [] && s.attached && NewlyMade(t, p, n) && s.objects == Unowed(t[p := n], {p} + c) && n.links.parent.Some?
    ensures PathUnref(s, p) == s.(objects := Removed(s.objects[p := n.(refcount := 0, ifaces := [], added := [])], p),
                                  out := s.out + [InterfacesRemoved(p, [INTROSPECTABLE])])
  {
    assert s.objects[p] == n.(added := []);
    UnmakeObject(s, p);
  }

  /** No object is changed but for cached texts, and what was sent, if anything, was taken back. */
  ghost predicate NoTrace(s: Server, r: Server, p: Path) {
    && r.objects.Keys == s.objects.Keys && SameFlags(s, r)
    && (forall q :: q in s.objects ==> r.objects[q] == s.objects[q].(cache := r.objects[q].cache))
    && (r.out == s.out || r.out == s.out + MadeAndTakenBack(p))
  }

  lemma RefusedOldPath(s: Server, p: Path, d: Decl, state: map<Name, Variant>)
    requires Sound(s) && !Register(s, p, d, state).ok && (p in s.objects || !ValidPath(p) || !ValidInterface(d.name))
    ensures Register(s, p, d, state).server == s
  {
    if ValidPath(p) && ValidInterface(d.name) {
      assert Counted(s.objects[p]) && Quiet(s.objects[p]);
      if Accepts(s.showExperimental, s.objects[p], d) {
        RegisterExisting(s, p, d, state);
      } else {
        RegisterRefused(s, p, d, state);
      }
    }
  }

  /** A refused registration leaves no trace exactly when the path was not tried at all, or every registered path above it
      is listed above that and the nearest of them does not wait for its announcement. */
  lemma RefusalLeavesNoTraceIff(s: Server, p: Path, d: Decl, state: map<Name, Variant>)
    requires Sound(s) && Unlisted(s.objects, p) && !Register(s, p, d, state).ok
    ensures NoTrace(s, Register(s, p, d, state).server, p)
            <==> || p in s.objects || !ValidPath(p) || !ValidInterface(d.name)
                 || ((p == [] || Settled(s.objects, Parent(p))) && !OwesNext(s, p))
  {
    if p in s.objects || !ValidPath(p) || !ValidInterface(d.name) {
      RefusedOldPath(s, p, d, state);
    } else {
      RefusedNewPath(s, p, d, state);
      TraceOfAttempt(s, Register(s, p, d, state).server, p);
    }
  }

  lemma TraceOfAttempt(s: Server, r: Server, p: Path)
    requires p !in s.objects && r.objects.Keys == s.objects.Keys && SameFlags(s, r)
    requires forall q :: q in s.objects ==> r.objects[q] == Left(s, p, q)
    requires r.out == if s.attached then s.out + (OwedAbove(s, p) + MadeAndTakenBack(p)) else s.out
    ensures NoTrace(s, r, p) <==> (p == [] || Settled(s.objects, Parent(p))) && !OwesNext(s, p)
  {
    if p != [] && !Settled(s.objects, Parent(p)) {
      var q := UnsettledGrows(s.objects, Parent(p));
      assert r.objects[q] == Left(s, p, q);
    } else if OwesNext(s, p) {
      var a := Above(s.objects.Keys, p).value;
      assert r.objects[a] == Left(s, p, a);
    } else {
      assert [] + MadeAndTakenBack(p) == MadeAndTakenBack(p);
      if p != [] { InvalidateSettled(s.objects, Parent(p)); }
      WalkedBodies(s.objects, p);
      forall q | q in s.objects ensures r.objects[q] == s.objects[q].(cache := r.objects[q].cache) {
        assert r.objects[q] == Left(s, p, q) && SameBody(s.objects[q], Walked(s.objects, p)[q]);
      }
    }
  }

  // ---- in order ----

  /** What is left of an object in a run in order. */
  function Afterwards(n: Node, q: Path, p: Path): Node {
    if q < p then n.(cache := Empty, added := if q == [] then n.added else []) else n
  }

  /** In order, announcing an object settles it and everything above it. */
  lemma ChainInOrder(s: Server, a: Path)
    requires Orderable(s) && s.attached && a in s.objects && a != [] && s.objects[a].added != []
    ensures OwedUp(s.objects, s.showExperimental, a) == OwedOn(s.objects, s.showExperimental, a)
    ensures Settles(s.objects, a, Unowed(s.objects, Chain(s.objects, a)))
  {
    TreeNearest(s.objects, a);
    EmitAddedExact(s, a);
    EmitAddedSettles(s, a);
    EmitUp(s, a);
    SameTail(s.out, OwedUp(s.objects, s.showExperimental, a), OwedOn(s.objects, s.showExperimental, a));
  }

  lemma SameTail(out: seq<Message>, a: seq<Message>, b: seq<Message>)
    requires out + a == out + b
    ensures a == b
  {
    assert a == (out + a)[|out|..] && b == (out + b)[|out|..];
  }

  lemma WalkedInOrder(objs: Table, p: Path, show: bool, a: Path)
    requires Tree(objs) && a in objs
    ensures Chain(Walked(objs, p), a) == Chain(objs, a) && OwedUp(Walked(objs, p), show, a) == OwedUp(objs, show, a)
  {
    TreeWalked(objs, p);
    WalkedBodies(objs, p);
    forall x | |x| <= |a| ensures SameUpward(objs, Walked(objs, p), x) {
      if x in objs { assert SameBody(objs[x], Walked(objs, p)[x]); }
    }
    SameChain(objs, Walked(objs, p), show, a);
  }

  lemma OwedInOrder(s: Server, p: Path)
    requires Orderable(s) && s.attached && p !in s.objects && [] in s.objects
    ensures OwedAbove(s, p) == OwedOn(s.objects, s.showExperimental, p)
    ensures SettlesAbove(s.objects, p, Unowed(s.objects, ToldAbove(s, p)))
  {
    var objs, show, up := s.objects, s.showExperimental, Above(s.objects.Keys, p);
    AboveIsNearest(objs.Keys, p, []);
    AboveIsPrefix(objs.Keys, p);
    OwedFromAbove(objs, show, p);
    assert OwedOn(objs, show, Parent(p)) + [] == OwedOn(objs, show, Parent(p));
    if OwesNext(s, p) {
      WalkedInOrder(objs, p, show, up.value);
      ChainInOrder(s, up.value);
      SettledFurtherUp(objs, p, up.value, Unowed(objs, Chain(objs, up.value)));
    } else {
      UnowedNothing(objs);
      NothingToSettle(objs, p, up);
      if up.value != [] {
        SettledUp(objs, p, up.value);
        NothingOwedOn(objs, show, up.value);
      }
    }
  }

  /** In order: the cached texts above the path are cleared and what was owed above it is no longer owed, and every object
      is otherwise what it was. Sent are the announcements owed on the way down to the path and then the pair. */
  lemma RefusedInOrder(s: Server, p: Path, d: Decl, state: map<Name, Variant>)
    requires Sound(s) && Orderable(s) && s.attached && !Register(s, p, d, state).ok
    requires p !in s.objects && ValidPath(p) && ValidInterface(d.name)
    ensures var r := Register(s, p, d, state).server;
            && r.objects.Keys == s.objects.Keys && SameFlags(s, r)
            && (forall q :: q in s.objects ==> r.objects[q] == Afterwards(s.objects[q], q, p))
            && r.out == s.out + (OwedOn(s.objects, s.showExperimental, p) + MadeAndTakenBack(p))
  {
    AttachedHasRoot(s);
    TreeDoesNotDangle(s.objects);
    NothingListed(s.objects, p);
    RefusedNewPath(s, p, d, state);
    OwedInOrder(s, p);
    forall q | q in s.objects ensures Left(s, p, q) == Afterwards(s.objects[q], q, p) { LeftInOrder(s, p, q); }
  }

  lemma LeftInOrder(s: Server, p: Path, q: Path)
    requires Tree(s.objects) && q in s.objects && SettlesAbove(s.objects, p, Unowed(s.objects, ToldAbove(s, p)))
    ensures Left(s, p, q) == Afterwards(s.objects[q], q, p)
  {
    TreeWalked(s.objects, p);
    WalkedBodies(s.objects, p);
    assert SameBody(s.objects[q], Walked(s.objects, p)[q]);
    assert Unowed(s.objects, ToldAbove(s, p))[q] == SettledNode(s.objects[q], q != [] && q < p);
  }

  /** The two signals cancel: whatever a client knows, it knows the same after handling both. */
  lemma SignalsCancel(v: View, p: Path)
    requires Key(p, INTROSPECTABLE) !in v
    ensures Drain(v, [InterfacesAdded(p, [INTROSPECTABLE_ENTRY]), InterfacesRemoved(p, [INTROSPECTABLE])]) == v
  {
    var added, removed := InterfacesAdded(p, [INTROSPECTABLE_ENTRY]), InterfacesRemoved(p, [INTROSPECTABLE]);
    DrainConcat(v, [added], [removed]);
    OneMessage(v, added);
    OneMessage(v, removed);
    OneIface(v, p, INTROSPECTABLE_ENTRY);
    OneRemoved(v, p, INTROSPECTABLE);
    assert [added] + [removed] == [added, removed];
    assert v - {Key(p, INTROSPECTABLE)} == v;
  }

  // ---- before the manager is attached ----

  lemma OffUpdated(t: Table, p: Path, m: Node)
    requires p in t && m.links == t[p].links
    ensures SameOff(t, t[p := m], p)
  {
  }

  ghost predicate JustMade(n: Node, m: Node) {
    && m.ifaces == [Iface(INTROSPECTABLE_DECL, [], map[])] && m.refcount == 1 && m.links == n.links
    && m.added == (if n.links.parent.Some? then [INTROSPECTABLE] else []) && m.removed == [] && Quiet(m)
  }

  lemma MakeUnattached(s: Server, p: Path)
    requires !s.attached && Calm(s.objects) && p !in s.objects
    ensures var t := Inserted(s.objects, p); var r := PathRef(s, p);
            JustMade(t[p], r.objects[p]) && r == s.(objects := t[p := r.objects[p]])
  {
    var t := Inserted(s.objects, p);
    InsertedCalm(s.objects, p);
    assert SameBody(s.objects[p := FRESH_NODE][p], t[p]);
    assert !Hidden(s.showExperimental, INTROSPECTABLE_DECL.methods[0].experimental);
    AddUnattached(s.(objects := t), p);
  }

  lemma AddUnattached(s: Server, p: Path)
    requires !s.attached && p in s.objects && SomethingVisible(s.showExperimental, INTROSPECTABLE_DECL)
    requires s.objects[p].ifaces == [] && Paid(s.objects[p]) && !s.objects[p].pendingProp && s.objects[p].refcount == 1
    ensures var r := AddInterface(s, p, INTROSPECTABLE_DECL, map[]).server;
            JustMade(s.objects[p], r.objects[p]) && r == s.(objects := s.objects[p := r.objects[p]])
  {
    var n := s.objects[p];
    assert n.ifaces + [Iface(INTROSPECTABLE_DECL, [], map[])] == [Iface(INTROSPECTABLE_DECL, [], map[])];
    assert n.added + [INTROSPECTABLE] == [INTROSPECTABLE];
  }

  lemma UnmakeUnattached(s: Server, t: Table, p: Path, n: Node)
    requires !s.attached && p in t && JustMade(t[p], n) && s.objects == t[p := n]
    ensures var m := n.(refcount := 0, ifaces := [], added := []);
            PathUnref(s, p) == s.(objects := Removed(t[p := m], p))
  {
    var n0 := n.(refcount := 0);
    var m := n0.(ifaces := [], added := []);
    assert n0.ifaces[0].decl.name == INTROSPECTABLE;
    FindAt(n0.ifaces, INTROSPECTABLE, 0);
    assert Without(n0.ifaces, 0) == [];
    assert RemoveFirst([INTROSPECTABLE], INTROSPECTABLE) == [];
    var s1 := s.(objects := s.objects[p := n0]);
    assert s1.out + [] == s1.out;
    UpdateTwice(t, p, n, n0);
    UpdateTwice(t, p, n0, m);
    assert RemoveInterface(s1, p, INTROSPECTABLE).server == s.(objects := t[p := m]);
  }

  lemma EarlyAttempt(s: Server, p: Path)
    requires Sound(s) && !s.attached && Unlisted(s.objects, p) && p !in s.objects
    ensures var r := PathUnref(PathRef(s, p), p);
            && r.objects.Keys == s.objects.Keys && (forall q :: q in s.objects ==> r.objects[q] == Left(s, p, q))
            && r.out == s.out
  {
    MakeUnattached(s, p);
    EarlyUnwound(s, p, Inserted(s.objects, p), PathRef(s, p), PathUnref(PathRef(s, p), p));
  }

  lemma EarlyUnwound(s: Server, p: Path, t: Table, s1: Server, r: Server)
    requires Sound(s) && !s.attached && Unlisted(s.objects, p) && p !in s.objects && t == Inserted(s.objects, p) && p in s1.objects
    requires JustMade(t[p], s1.objects[p]) && s1 == s.(objects := t[p := s1.objects[p]]) && r == PathUnref(s1, p)
    ensures r.objects.Keys == s.objects.Keys && (forall q :: q in s.objects ==> r.objects[q] == Left(s, p, q)) && r.out == s.out
  {
    var n := s1.objects[p];
    var m := n.(refcount := 0, ifaces := [], added := []);
    UnmakeUnattached(s1, t, p, n);
    EarlyLeft(s, p, t, m, Removed(t[p := m], p));
  }

  lemma EarlyLeft(s: Server, p: Path, t: Table, m: Node, r: Table)
    requires Calm(s.objects) && !s.attached && Unlisted(s.objects, p) && p !in s.objects && t == Inserted(s.objects, p)
    requires m.links == t[p].links && r == Removed(t[p := m], p)
    ensures r.Keys == s.objects.Keys && forall q :: q in s.objects ==> r[q] == Left(s, p, q)
  {
    InsertedIsNew(s.objects, p);
    OffUpdated(t, p, m);
    forall q | q in s.objects ensures r[q] == Left(s, p, q) {
      assert SameBody(s.objects[q], t[q]);
      MadeAndUnmade(s.objects, t, t[p := m], p, q);
    }
  }
}
