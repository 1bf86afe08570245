/** The cached introspection texts: in every run, whatever the order of
    registration, a cached text is the one that would be generated now.
 */
module Introspection {
  import opened Bus
  import opened ObjectModel
  import opened ObjectCore
  import opened ObjectLifetime

  /** The cache of `p` is empty or holds what regenerating the text would give. */
  ghost predicate Coherent(objs: Table, show: bool, p: Path)
    requires p in objs
  {
    objs[p].cache != Placeholder &&
    (objs[p].cache.Text? ==> objs[p].cache.doc == Generate(objs, show, p))
  }

  ghost predicate CoherentOff(objs: Table, show: bool, off: set<Path>) {
    forall p :: p in objs && p !in off ==> Coherent(objs, show, p)
  }

  // ---------------------------------------------------------------------
  // What a text depends on

  ghost predicate SameDecls(a: seq<Iface>, b: seq<Iface>) {
    |a| == |b| && forall i :: 0 <= i < |a| ==> a[i].decl == b[i].decl
  }

  lemma {:induction false} DocOfDecls(show: bool, a: seq<Iface>, b: seq<Iface>)
    requires SameDecls(a, b)
    ensures DocIfaces(show, a) == DocIfaces(show, b)
  {
    if a != [] {
      DocOfDecls(show, a[1..], b[1..]);
    }
  }

  lemma NextOfKeys(a: Table, b: Table, p: Path, x: Path)
    requires a.Keys == b.Keys + {x} && !(p < x)
    ensures NextElements(a, p) == NextElements(b, p)
  {
    forall e ensures e in NextElements(a, p) <==> e in NextElements(b, p) {
      if e in NextElements(a, p) {
        var q :| q in a && p < q && q[|p|] == e;
        assert q in b;
      }
      if e in NextElements(b, p) {
        var q :| q in b && p < q && q[|p|] == e;
        assert q in a;
      }
    }
  }

  lemma SameKeysNext(a: Table, b: Table, p: Path)
    requires a.Keys == b.Keys
    ensures NextElements(a, p) == NextElements(b, p)
  {
    assert forall q :: q in a <==> q in b;
  }

  lemma CoherentSame(a: Table, b: Table, show: bool, p: Path)
    requires p in a && p in b && Coherent(a, show, p) && NextElements(a, p) == NextElements(b, p)
    requires SameDecls(a[p].ifaces, b[p].ifaces) && (a[p].cache == b[p].cache || b[p].cache == Empty)
    ensures Coherent(b, show, p)
  {
    DocOfDecls(show, a[p].ifaces, b[p].ifaces);
  }

  lemma CoresCoherent(a: Table, b: Table, show: bool, off: set<Path>)
    requires SameCores(a, b) && CoherentOff(a, show, off)
    ensures CoherentOff(b, show, off)
  {
    forall p | p in b && p !in off ensures Coherent(b, show, p) {
      assert SameCore(a[p], b[p]);
      SameKeysNext(a, b, p);
      CoherentSame(a, b, show, p);
    }
  }

  // ---------------------------------------------------------------------
  // Invalidating clears exactly the ancestors

  lemma {:induction false} FoundAbove(objs: Table, c: Path)
    ensures Invalidate(objs, c).data.Some? ==> Invalidate(objs, c).data.value < c
    decreases |c|
  {
    if c != [] {
      FoundAbove(objs, Parent(c));
    }
  }

  lemma LinkCache(objs: Table, d: Path, c: Path, q: Path)
    requires d in objs && |d| < |c| && q in objs
    ensures Link(objs, d, c)[q].cache == if q == d then Empty else objs[q].cache
  {
  }

  /** In any state, the call clears the cached text of every registered proper ancestor and of nothing else. */
  lemma {:induction false} InvalidateClears(objs: Table, c: Path, q: Path)
    requires q in objs
    ensures Invalidate(objs, c).objects[q].cache == if q < c then Empty else objs[q].cache
    decreases |c|
  {
    if c != [] {
      InvalidateClears(objs, Parent(c), q);
      FoundAbove(objs, c);
      var up := Invalidate(objs, Parent(c)).objects;
      var data := Invalidate(objs, c).data;
      assert q < c <==> q < Parent(c) || q == Parent(c);
      if data.Some? {
        LinkCache(up, data.value, c, q);
      }
    }
  }

  lemma InsertCoherent(objs: Table, p: Path, show: bool, off: set<Path>)
    requires CoherentOff(objs, show, off) && p !in objs
    ensures CoherentOff(Inserted(objs, p), show, off + {p})
  {
    var base := objs[p := FRESH_NODE];
    var t := Inserted(objs, p);
    InvalidateBodies(base, p);
    forall q | q in t && q !in off && q != p ensures Coherent(t, show, q) {
      InvalidateClears(base, p, q);
      assert SameBody(base[q], t[q]);
      if !(q < p) {
        NextOfKeys(t, objs, q, p);
        CoherentSame(objs, t, show, q);
      }
    }
  }

  lemma DropCache(objs: Table, p: Path, q: Path)
    requires p in objs && q in objs && q != p
    ensures Drop(objs, p)[q].cache == objs[q].cache
  {
  }

  lemma RemoveCoherent(objs: Table, p: Path, show: bool, off: set<Path>)
    requires CoherentOff(objs, show, off + {p}) && p in objs
    ensures CoherentOff(Removed(objs, p), show, off)
  {
    var t := Removed(objs, p);
    forall q | q in t && q !in off ensures Coherent(t, show, q) {
      InvalidateClears(objs, p, q);
      DropCache(Invalidate(objs, p).objects, p, q);
      RemovedBody(objs, p, q);
      if !(q < p) {
        assert objs.Keys == t.Keys + {p};
        NextOfKeys(objs, t, q, p);
        CoherentSame(objs, t, show, q);
      }
    }
  }

  lemma StoreCoherent(objs: Table, p: Path, n: Node, show: bool, off: set<Path>)
    requires p in objs && CoherentOff(objs, show, off + {p})
    requires p in off || n.cache == Empty || (SameDecls(objs[p].ifaces, n.ifaces) && n.cache == objs[p].cache && Coherent(objs, show, p))
    ensures CoherentOff(objs[p := n], show, off)
  {
    var t := objs[p := n];
    forall q | q in t && q !in off ensures Coherent(t, show, q) {
      SameKeysNext(objs, t, q);
      if q != p || n.cache != Empty {
        CoherentSame(objs, t, show, q);
      }
    }
  }

  // ---------------------------------------------------------------------
  // Steps

  lemma RegisterCoherent(s: Server, p: Path, d: Decl, state: map<Name, Variant>, r: Outcome, off: set<Path>)
    requires CoherentOff(s.objects, s.showExperimental, off) && RegisterEffect(s, p, d, state, r)
    ensures CoherentOff(r.server.objects, s.showExperimental, off)
  {
    var show := s.showExperimental;
    if !ValidPath(p) || !ValidInterface(d.name) {
    } else if p in s.objects {
      var n := s.objects[p];
      if Accepts(show, n, d) {
        var m := Accepted(n.(refcount := n.refcount + 1), d, state);
        StoreCoherent(s.objects, p, m, show, off);
        CoresCoherent(s.objects[p := m], r.server.objects, show, off);
      }
    } else {
      InsertCoherent(s.objects, p, show, off);
      var t, n := Inserted(s.objects, p), FreshNode(s.objects, p);
      if Accepts(show, n, d) {
        StoreCoherent(t, p, Accepted(n, d, state), show, off);
        CoresCoherent(t[p := Accepted(n, d, state)], r.server.objects, show, off);
      } else {
        RemoveCoherent(t, p, show, off);
        CoresCoherent(Removed(t, p), r.server.objects, show, off);
      }
    }
  }

  lemma UnregisterCoherent(s: Server, p: Path, name: Name, r: Outcome, off: set<Path>)
    requires CoherentOff(s.objects, s.showExperimental, off) && UnregisterEffect(s, p, name, r)
    ensures CoherentOff(r.server.objects, s.showExperimental, off)
  {
    var show := s.showExperimental;
    if p in s.objects && Has(s.objects[p].ifaces, name) {
      if s.objects[p].refcount > 1 {
        StoreCoherent(s.objects, p, Released(s.objects[p], name), show, off);
        CoresCoherent(s.objects[p := Released(s.objects[p], name)], r.server.objects, show, off);
      } else {
        RemoveCoherent(s.objects, p, show, off);
        CoresCoherent(Removed(s.objects, p), r.server.objects, show, off);
      }
    }
  }

  lemma ChangeCoherent(s: Server, p: Path, iface: Name, name: Name, value: Option<Variant>, r: Server, off: set<Path>)
    requires CoherentOff(s.objects, s.showExperimental, off) && ChangeEffect(s, p, iface, name, value, r)
    ensures CoherentOff(r.objects, s.showExperimental, off)
  {
    if p in s.objects && Has(s.objects[p].ifaces, iface) {
      var n := s.objects[p];
      var m := WithState(n, Find(n.ifaces, iface), name, value);
      assert SameDecls(n.ifaces, m.ifaces);
      StoreCoherent(s.objects, p, m, s.showExperimental, off);
      CoresCoherent(s.objects[p := m], r.objects, s.showExperimental, off);
    }
  }

  lemma IntrospectCoherent(s: Server, p: Path, off: set<Path>)
    requires CoherentOff(s.objects, s.showExperimental, off) && p in s.objects
    ensures CoherentOff(Introspect(s, p).objects, s.showExperimental, off)
  {
    var show := s.showExperimental;
    if s.objects[p].cache.Empty? {
      var t := Introspect(s, p).objects;
      forall q | q in t && q !in off ensures Coherent(t, show, q) {
        SameKeysNext(s.objects, t, q);
        if q != p {
          CoherentSame(s.objects, t, show, q);
        }
      }
    }
  }

  /** A coherent object answers Introspect with the text generated from the table as it is. */
  lemma IntrospectAnswers(s: Server, p: Path)
    requires p in s.objects && Coherent(s.objects, s.showExperimental, p)
    ensures Introspect(s, p).objects[p].cache == Text(Generate(s.objects, s.showExperimental, p))
  {
  }

  lemma AttachCoherent(s: Server, r: Server)
    requires CoherentOff(s.objects, s.showExperimental, {[]}) && AttachEffect(s, r)
    ensures CoherentOff(r.objects, s.showExperimental, {[]})
  {
    var show := s.showExperimental;
    if [] in s.objects {
      var n := s.objects[[]];
      var m := WithIface(n.(refcount := n.refcount + 1), MANAGER_DECL, map[]);
      StoreCoherent(s.objects, [], m, show, {[]});
      CoresCoherent(s.objects[[] := m], r.objects, show, {[]});
    } else {
      InsertCoherent(s.objects, [], show, {[]});
      var m := WithIface(FreshNode(s.objects, []), MANAGER_DECL, map[]);
      var t := Inserted(s.objects, []);
      var root: set<Path> := {[]};
      assert root + {[]} == root;
      StoreCoherent(t, [], m, show, {[]});
      CoresCoherent(t[[] := m], r.objects, show, {[]});
    }
  }

  /** Attaching the manager adds an interface to "/" without clearing its cached text, and a "/" that it
      creates keeps the placeholder: the text of "/" is right afterwards exactly when "/" was registered
      before and had nothing cached. */
  lemma AttachRootIff(s: Server)
    requires Calm(s.objects)
    requires [] in s.objects ==> Coherent(s.objects, s.showExperimental, [])
    ensures [] in Attach(s).objects
    ensures Coherent(Attach(s).objects, s.showExperimental, []) <==> [] in s.objects && s.objects[[]].cache == Empty
  {
    AttachHasEffect(s);
    RootText(s, Attach(s));
  }

  lemma RootText(s: Server, r: Server)
    requires Calm(s.objects) && AttachEffect(s, r)
    requires [] in s.objects ==> Coherent(s.objects, s.showExperimental, [])
    ensures [] in r.objects
    ensures Coherent(r.objects, s.showExperimental, []) <==> [] in s.objects && s.objects[[]].cache == Empty
  {
    var show := s.showExperimental;
    if [] in s.objects {
      var n := s.objects[[]];
      var m := WithIface(n.(refcount := n.refcount + 1), MANAGER_DECL, map[]);
      assert SameCore(s.objects[[] := m][[]], r.objects[[]]);
      if n.cache.Text? {
        DocLength(show, n.ifaces);
        DocLength(show, m.ifaces);
      }
    } else {
      FreshRefCore(s, []);
      var m := WithIface(FreshNode(s.objects, []), MANAGER_DECL, map[]);
      assert SameCore(Inserted(s.objects, [])[[] := m][[]], r.objects[[]]);
      InvalidateClears(s.objects[[] := FRESH_NODE], [], []);
    }
  }

  lemma {:induction false} DocLength(show: bool, ifaces: seq<Iface>)
    ensures |DocIfaces(show, ifaces)| == |ifaces|
  {
    if ifaces != [] {
      DocLength(show, ifaces[1..]);
    }
  }

  // ---------------------------------------------------------------------
  // Every call, every run

  lemma PerformCoherent(s: Server, call: Call, off: set<Path>)
    requires Sound(s) && Legal(s, call) && CoherentOff(s.objects, s.showExperimental, off)
    requires call.AttachCall? ==> off == {[]}
    ensures CoherentOff(Perform(s, call).objects, s.showExperimental, off)
    ensures Perform(s, call).showExperimental == s.showExperimental
  {
    match call
    case RegisterCall(p, d, state) =>
      assert p in s.objects ==> Counted(s.objects[p]);
      RegisterHasEffect(s, p, d, state);
      RegisterCoherent(s, p, d, state, Register(s, p, d, state), off);
    case UnregisterCall(p, name) =>
      assert p in s.objects ==> Counted(s.objects[p]);
      UnregisterHasEffect(s, p, name);
      UnregisterCoherent(s, p, name, Unregister(s, p, name), off);
    case ChangeCall(p, iface, prop, value, flush) =>
      ChangeHasEffect(s, p, iface, prop, value, flush);
      ChangeCoherent(s, p, iface, prop, value, ChangeProperty(s, p, iface, prop, value, flush), off);
    case IntrospectCall(p) => if p in s.objects { IntrospectCoherent(s, p, off); }
    case AttachCall =>
      AttachHasEffect(s);
      AttachCoherent(s, Attach(s));
  }

  /** In every legal run, in any order of registration, every cached text below "/" is empty or what
      regeneration would give; and so is that of "/" as long as the manager is not attached. */
  lemma {:induction false} RunsAreCoherent(show: bool, calls: seq<Call>)
    requires LegalRun(Started(show), calls)
    ensures var s := Run(Started(show), calls);
            && s.showExperimental == show
            && CoherentOff(s.objects, show, {[]})
            && (AttachCall !in calls ==> CoherentOff(s.objects, show, {}))
  {
    if calls != [] {
      var k := |calls| - 1;
      var rest := calls[..k];
      forall i | 0 <= i < |rest| ensures Legal(Run(Started(show), rest[..i]), rest[i]) {
        assert rest[..i] == calls[..i];
      }
      RunsAreCoherent(show, rest);
      RunsAreSound(show, rest);
      var s := Run(Started(show), rest);
      PerformCoherent(s, calls[k], {[]});
      if AttachCall !in calls {
        PerformCoherent(s, calls[k], {});
      }
    }
  }

  // ---------------------------------------------------------------------
  // "/" once the manager is attached

  /** A call that tries a new path below "/" or removes one, or adds an interface to "/" or takes one away. */
  predicate Clears(s: Server, call: Call) {
    match call
    case RegisterCall(p, d, _) =>
      ValidPath(p) && ValidInterface(d.name) && if p in s.objects then p == [] && Accepts(s.showExperimental, s.objects[p], d) else p != []
    case UnregisterCall(p, name) =>
      p in s.objects && Has(s.objects[p].ifaces, name) && (p == [] <==> s.objects[p].refcount > 1)
    case _ => false
  }

  lemma RemovedClears(objs: Table, p: Path)
    requires p in objs && [] in objs && p != []
    ensures Removed(objs, p)[[]].cache == Empty
  {
    InvalidateClears(objs, p, []);
    DropCache(Invalidate(objs, p).objects, p, []);
  }

  lemma RegisterClears(s: Server, p: Path, d: Decl, state: map<Name, Variant>, r: Outcome)
    requires [] in s.objects && RegisterEffect(s, p, d, state, r) && Clears(s, RegisterCall(p, d, state))
    ensures [] in r.server.objects && r.server.objects[[]].cache == Empty
  {
    if p in s.objects {
      var n := s.objects[p];
      var m := Accepted(n.(refcount := n.refcount + 1), d, state);
      assert SameCore(s.objects[p := m][[]], r.server.objects[[]]);
    } else {
      var t, n := Inserted(s.objects, p), FreshNode(s.objects, p);
      InvalidateClears(s.objects[p := FRESH_NODE], p, []);
      if Accepts(s.showExperimental, n, d) {
        assert SameCore(t[p := Accepted(n, d, state)][[]], r.server.objects[[]]);
      } else {
        RemovedClears(t, p);
        assert SameCore(Removed(t, p)[[]], r.server.objects[[]]);
      }
    }
  }

  lemma UnregisterClears(s: Server, p: Path, name: Name, r: Outcome)
    requires [] in s.objects && UnregisterEffect(s, p, name, r) && Clears(s, UnregisterCall(p, name))
    ensures [] in r.server.objects && r.server.objects[[]].cache == Empty
  {
    if p == [] {
      assert SameCore(s.objects[p := Released(s.objects[p], name)][[]], r.server.objects[[]]);
    } else {
      RemovedClears(s.objects, p);
      assert SameCore(Removed(s.objects, p)[[]], r.server.objects[[]]);
    }
  }

  /** Such a call makes the text of "/" right, whatever it was. */
  lemma RegisterCallClears(s: Server, p: Path, d: Decl, state: map<Name, Variant>)
    requires Sound(s) && [] in s.objects && Clears(s, RegisterCall(p, d, state))
    ensures var r := Register(s, p, d, state).server; [] in r.objects && r.objects[[]].cache == Empty
  {
    assert p in s.objects ==> Counted(s.objects[p]);
    RegisterHasEffect(s, p, d, state);
    RegisterClears(s, p, d, state, Register(s, p, d, state));
  }

  lemma UnregisterCallClears(s: Server, p: Path, name: Name)
    requires Sound(s) && [] in s.objects && Clears(s, UnregisterCall(p, name))
    ensures var r := Unregister(s, p, name).server; [] in r.objects && r.objects[[]].cache == Empty
  {
    assert p in s.objects ==> Counted(s.objects[p]);
    UnregisterHasEffect(s, p, name);
    UnregisterClears(s, p, name, Unregister(s, p, name));
  }

  lemma RootCleared(s: Server, call: Call)
    requires Sound(s) && Legal(s, call) && [] in s.objects && Clears(s, call) && CoherentOff(s.objects, s.showExperimental, {[]})
    ensures CoherentOff(Perform(s, call).objects, s.showExperimental, {})
  {
    PerformCoherent(s, call, {[]});
    match call
    case RegisterCall(p, d, state) => RegisterCallClears(s, p, d, state);
    case UnregisterCall(p, name) => UnregisterCallClears(s, p, name);
  }

  // ---- a wrong text stays ----

  /** "/" with the same interfaces and cached text among the same objects. */
  ghost predicate RootSame(a: Table, b: Table) {
    a.Keys == b.Keys && [] in a && SameDecls(a[[]].ifaces, b[[]].ifaces) && a[[]].cache == b[[]].cache
  }

  lemma RootSameText(a: Table, b: Table, show: bool)
    requires RootSame(a, b)
    ensures Coherent(a, show, []) <==> Coherent(b, show, [])
  {
    SameKeysNext(a, b, []);
    DocOfDecls(show, a[[]].ifaces, b[[]].ifaces);
  }

  lemma StoredRoot(objs: Table, p: Path, n: Node, r: Table)
    requires [] in objs && p in objs && SameCores(objs[p := n], r)
    requires p == [] ==> SameDecls(objs[p].ifaces, n.ifaces) && n.cache == objs[p].cache
    ensures RootSame(objs, r)
  {
    assert SameCore(objs[p := n][[]], r[[]]);
  }

  lemma RegisterKeepsRoot(s: Server, p: Path, d: Decl, state: map<Name, Variant>, r: Outcome)
    requires [] in s.objects && RegisterEffect(s, p, d, state, r) && !Clears(s, RegisterCall(p, d, state))
    ensures RootSame(s.objects, r.server.objects)
  {
    if ValidPath(p) && ValidInterface(d.name) && Accepts(s.showExperimental, s.objects[p], d) {
      var n := s.objects[p];
      StoredRoot(s.objects, p, Accepted(n.(refcount := n.refcount + 1), d, state), r.server.objects);
    }
  }

  lemma UnregisterKeepsRoot(s: Server, p: Path, name: Name, r: Outcome)
    requires [] in s.objects && UnregisterEffect(s, p, name, r) && !Clears(s, UnregisterCall(p, name))
    requires [] in r.server.objects
    ensures RootSame(s.objects, r.server.objects)
  {
    if p in s.objects && Has(s.objects[p].ifaces, name) {
      StoredRoot(s.objects, p, Released(s.objects[p], name), r.server.objects);
    }
  }

  lemma ChangeKeepsRoot(s: Server, p: Path, iface: Name, name: Name, value: Option<Variant>, r: Server)
    requires [] in s.objects && ChangeEffect(s, p, iface, name, value, r)
    ensures RootSame(s.objects, r.objects)
  {
    if p in s.objects && Has(s.objects[p].ifaces, iface) {
      var n := s.objects[p];
      StoredRoot(s.objects, p, WithState(n, Find(n.ifaces, iface), name, value), r.objects);
    }
  }

  lemma IntrospectKeepsRoot(s: Server, p: Path)
    requires [] in s.objects && p in s.objects && !Coherent(s.objects, s.showExperimental, [])
    ensures RootSame(s.objects, Introspect(s, p).objects)
  {
  }

  /** Any other call leaves a wrong text of "/" as it is. */
  lemma RootStaysWrong(s: Server, call: Call)
    requires Sound(s) && Legal(s, call) && s.attached && !Clears(s, call)
    requires [] in s.objects && !Coherent(s.objects, s.showExperimental, [])
    ensures [] in Perform(s, call).objects && !Coherent(Perform(s, call).objects, s.showExperimental, [])
  {
    PerformSound(s, call);
    match call {
    case RegisterCall(p, d, state) =>
      assert p in s.objects ==> Counted(s.objects[p]);
      RegisterHasEffect(s, p, d, state);
      RegisterKeepsRoot(s, p, d, state, Register(s, p, d, state));
    case UnregisterCall(p, name) =>
      assert p in s.objects ==> Counted(s.objects[p]);
      UnregisterHasEffect(s, p, name);
      UnregisterKeepsRoot(s, p, name, Unregister(s, p, name));
    case ChangeCall(p, iface, prop, value, flush) =>
      ChangeHasEffect(s, p, iface, prop, value, flush);
      ChangeKeepsRoot(s, p, iface, prop, value, ChangeProperty(s, p, iface, prop, value, flush));
    case IntrospectCall(p) => if p in s.objects { IntrospectKeepsRoot(s, p); }
    }
    RootSameText(s.objects, Perform(s, call).objects, s.showExperimental);
  }

  // ---- runs ----

  /** In every legal run that attaches the manager, with call `k`, the text of "/" is right at the end exactly when "/" was
      registered before and had nothing cached, or one of the later calls cleared it. */
  lemma {:induction false} RootIsRightIff(show: bool, calls: seq<Call>, k: nat)
    requires LegalRun(Started(show), calls) && k < |calls| && calls[k] == AttachCall
    ensures var s := Run(Started(show), calls); var before := Run(Started(show), calls[..k]);
            && [] in s.objects
            && (Coherent(s.objects, show, [])
                <==> NothingCached(before)
                     || exists i :: k < i < |calls| && Clears(Run(Started(show), calls[..i]), calls[i]))
  {
    var st := StatesOf(show, calls);
    forall i | 0 <= i <= |calls| ensures st[i] == Run(Started(show), calls[..i]) { assert StateAt(show, calls, st, i); }
    RightBefore(show, calls, st, k);
    RightIff(show, calls, st, k, |calls|);
    WholeRun(show, calls, st);
  }

  ghost predicate StateAt(show: bool, calls: seq<Call>, st: seq<Server>, i: nat)
    requires i < |st| == |calls| + 1
  {
    st[i] == Run(Started(show), calls[..i])
  }

  ghost predicate CallAt(show: bool, calls: seq<Call>, st: seq<Server>, i: nat)
    requires i < |calls| == |st| - 1
  {
    && st[i + 1] == Perform(st[i], calls[i]) && Legal(st[i], calls[i])
    && Sound(st[i]) && st[i].showExperimental == show && CoherentOff(st[i].objects, show, {[]})
  }

  /** The states that a legal run goes through. */
  lemma StatesOf(show: bool, calls: seq<Call>) returns (st: seq<Server>)
    requires LegalRun(Started(show), calls)
    ensures |st| == |calls| + 1
    ensures forall i :: 0 <= i <= |calls| ==> StateAt(show, calls, st, i)
    ensures forall i :: 0 <= i < |calls| ==> CallAt(show, calls, st, i)
  {
    st := seq(|calls| + 1, i requires 0 <= i <= |calls| => Run(Started(show), calls[..i]));
    forall i | 0 <= i < |calls| ensures CallAt(show, calls, st, i) {
      var s := Before(show, calls, i);
    }
  }

  lemma {:induction false} WholeRun(show: bool, calls: seq<Call>, st: seq<Server>)
    requires |st| == |calls| + 1 && StateAt(show, calls, st, |calls|)
    ensures st[|calls|] == Run(Started(show), calls)
  {
    assert calls[..|calls|] == calls;
  }

  lemma AttachedStays(s: Server, call: Call)
    ensures s.attached || call.AttachCall? ==> Perform(s, call).attached
  {
  }

  /** The manager is attached from the call that does it on. */
  lemma {:induction false} AttachedFrom(show: bool, calls: seq<Call>, st: seq<Server>, k: nat, j: nat)
    requires |st| == |calls| + 1 && k < j <= |calls| && calls[k] == AttachCall
    requires forall i :: 0 <= i < |calls| ==> CallAt(show, calls, st, i)
    ensures st[j].attached
    decreases j
  {
    assert CallAt(show, calls, st, j - 1);
    if k < j - 1 { AttachedFrom(show, calls, st, k, j - 1); }
    AttachedStays(st[j - 1], calls[j - 1]);
  }

  lemma RightBefore(show: bool, calls: seq<Call>, st: seq<Server>, k: nat)
    requires |st| == |calls| + 1 && k < |calls| && calls[k] == AttachCall && LegalRun(Started(show), calls)
    requires StateAt(show, calls, st, k) && forall i :: 0 <= i < |calls| ==> CallAt(show, calls, st, i)
    ensures CoherentOff(st[k].objects, show, {})
  {
    assert CallAt(show, calls, st, k);
    forall i | 0 <= i < k ensures calls[..k][i] != AttachCall {
      if calls[i] == AttachCall { AttachedFrom(show, calls, st, i, k); }
    }
    LegalPrefix(show, calls, k);
    RunsAreCoherent(show, calls[..k]);
  }

  ghost predicate ClearedLater(calls: seq<Call>, st: seq<Server>, k: nat, j: nat)
    requires j <= |calls| == |st| - 1
  {
    exists i :: k < i < j && Clears(st[i], calls[i])
  }

  lemma ClearedNext(calls: seq<Call>, st: seq<Server>, k: nat, j: nat)
    requires k < j < |calls| == |st| - 1
    ensures ClearedLater(calls, st, k, j + 1) <==> ClearedLater(calls, st, k, j) || Clears(st[j], calls[j])
  {
  }

  lemma {:induction false} RightIff(show: bool, calls: seq<Call>, st: seq<Server>, k: nat, j: nat)
    requires |st| == |calls| + 1 && k < j <= |calls| && calls[k] == AttachCall && CoherentOff(st[k].objects, show, {})
    requires forall i :: 0 <= i < |calls| ==> CallAt(show, calls, st, i)
    ensures [] in st[j].objects
    ensures Coherent(st[j].objects, show, []) <==> NothingCached(st[k]) || ClearedLater(calls, st, k, j)
    decreases j
  {
    if k == j - 1 {
      RightAtFirst(show, calls, st, k, st[k], st[j]);
    } else {
      RightIff(show, calls, st, k, j - 1);
      RightAtNext(show, calls, st, k, j - 1, st[j - 1], st[j]);
      ClearedNext(calls, st, k, j - 1);
    }
  }

  /** "/" is registered and its text has not been generated. */
  predicate NothingCached(s: Server) {
    [] in s.objects && s.objects[[]].cache == Empty
  }

  lemma RightAtFirst(show: bool, calls: seq<Call>, st: seq<Server>, k: nat, s: Server, r: Server)
    requires |st| == |calls| + 1 && k < |calls| && calls[k] == AttachCall && s == st[k] && r == st[k + 1]
    requires CoherentOff(s.objects, show, {}) && CallAt(show, calls, st, k)
    ensures [] in r.objects && (Coherent(r.objects, show, []) <==> NothingCached(s))
  {
    AttachRootIff(s);
  }

  lemma RightAtNext(show: bool, calls: seq<Call>, st: seq<Server>, k: nat, j: nat, s: Server, r: Server)
    requires |st| == |calls| + 1 && k < j < |calls| && calls[k] == AttachCall && s == st[j] && r == st[j + 1] && [] in s.objects
    requires forall i :: 0 <= i < |calls| ==> CallAt(show, calls, st, i)
    ensures [] in r.objects && (Coherent(r.objects, show, []) <==> Clears(s, calls[j]) || Coherent(s.objects, show, []))
  {
    AttachedFrom(show, calls, st, k, j);
    assert CallAt(show, calls, st, j);
    RootNextIff(s, calls[j], r, show);
  }

  /** Once the manager is attached, the text of "/" is right after a call exactly when it was or the call clears it. */
  lemma RootNextIff(s: Server, call: Call, r: Server, show: bool)
    requires r == Perform(s, call) && Sound(s) && Legal(s, call) && s.attached && s.showExperimental == show
    requires CoherentOff(s.objects, show, {[]}) && [] in s.objects
    ensures [] in r.objects && (Coherent(r.objects, show, []) <==> Clears(s, call) || Coherent(s.objects, show, []))
  {
    PerformSound(s, call);
    AttachedStays(s, call);
    if Clears(s, call) {
      RootCleared(s, call);
    } else if Coherent(s.objects, show, []) {
      PerformCoherent(s, call, {});
    } else {
      RootStaysWrong(s, call);
    }
  }

  /** The state in which a call of a legal run is made. */
  lemma Before(show: bool, calls: seq<Call>, j: nat) returns (s: Server)
    requires LegalRun(Started(show), calls) && j < |calls|
    ensures s == Run(Started(show), calls[..j]) && Run(Started(show), calls[..j + 1]) == Perform(s, calls[j])
    ensures Sound(s) && Legal(s, calls[j]) && s.showExperimental == show && CoherentOff(s.objects, show, {[]})
  {
    var front := calls[..j];
    s := Run(Started(show), front);
    LegalPrefix(show, calls, j);
    assert calls[..j + 1][..j] == front;
    RunsAreSound(show, front);
    RunsAreCoherent(show, front);
  }

  lemma LegalPrefix(show: bool, calls: seq<Call>, j: nat)
    requires LegalRun(Started(show), calls) && j <= |calls|
    ensures LegalRun(Started(show), calls[..j])
  {
    forall i | 0 <= i < j ensures Legal(Run(Started(show), calls[..j][..i]), calls[..j][i]) {
      assert calls[..j][..i] == calls[..i];
    }
  }
}
