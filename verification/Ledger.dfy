/** A plain reading of the server: a list of interfaces for every path, changed by each call in the obvious way. Whatever
    the server does with reference counts, trees, queues and built-in interfaces, in every legal run its objects carry
    just the interfaces of this ledger.
 */
module Ledger {
  import opened Bus
  import opened ObjectModel
  import opened ObjectCore
  import opened ObjectLifetime

  /** An interface that a user registered, and what its getters read. */
  datatype Item = Item(decl: Decl, state: map<Name, Variant>)

  type Book = map<Path, seq<Item>>

  predicate Named(items: seq<Item>, name: Name) {
    exists i :: 0 <= i < |items| && items[i].decl.name == name
  }

  function Items(b: Book, p: Path): seq<Item> {
    if p in b then b[p] else []
  }

  /** The items with another name. */
  function Others(items: seq<Item>, name: Name): seq<Item> {
    if items == [] then []
    else (if items[0].decl.name == name then [] else [items[0]]) + Others(items[1..], name)
  }

  /** The items, those with the name with another value of the property or without it. */
  function Revalued(items: seq<Item>, name: Name, prop: Name, value: Option<Variant>): seq<Item> {
    seq(|items|, i requires 0 <= i < |items| =>
      if items[i].decl.name != name then items[i]
      else items[i].(state := if value.Some? then items[i].state[prop := value.value] else items[i].state - {prop}))
  }

  /** An interface is taken if its names are well-formed, it is not there yet and something of it can be seen. */
  ghost predicate Takes(b: Book, show: bool, p: Path, d: Decl) {
    ValidPath(p) && ValidInterface(d.name) && !Named(Items(b, p), d.name) && Seen(show, d)
  }

  ghost predicate Seen(show: bool, d: Decl) {
    || (exists i :: 0 <= i < |d.methods| && (show || !d.methods[i].experimental))
    || (exists i :: 0 <= i < |d.signals| && (show || !d.signals[i].experimental))
    || (d.properties.Some? && exists i :: 0 <= i < |d.properties.value| && (show || !d.properties.value[i].experimental))
  }

  ghost function Written(b: Book, show: bool, call: Call): Book {
    match call
    case RegisterCall(p, d, state) => if Takes(b, show, p, d) then b[p := Items(b, p) + [Item(d, state)]] else b
    case UnregisterCall(p, name) =>
      var left := Others(Items(b, p), name);
      if !Named(Items(b, p), name) then b else if left == [] then b - {p} else b[p := left]
    case ChangeCall(p, iface, prop, value, _) => if p in b then b[p := Revalued(b[p], iface, prop, value)] else b
    case IntrospectCall(_) => b
    case AttachCall => b[ROOT := Items(b, ROOT) + [Item(MANAGER_DECL, map[])]]
  }

  ghost function WrittenAll(show: bool, calls: seq<Call>): Book {
    if calls == [] then map[] else Written(WrittenAll(show, calls[..|calls| - 1]), show, calls[|calls| - 1])
  }

  /** The interfaces of an object that users know. */
  function UserItems(ifaces: seq<Iface>): seq<Item> {
    if ifaces == [] then []
    else (if Builtin(ifaces[0].decl.name) then [] else [Item(ifaces[0].decl, ifaces[0].state)]) + UserItems(ifaces[1..])
  }

  ghost predicate SomeTable(ifaces: seq<Iface>) {
    exists i :: 0 <= i < |ifaces| && ifaces[i].decl.properties.Some?
  }

  /** Introspectable is the first interface, and with a property table there is Properties. */
  ghost predicate Built(ifaces: seq<Iface>) {
    && ifaces != [] && ifaces[0].decl == INTROSPECTABLE_DECL
    && (forall i :: 0 <= i < |ifaces| && ifaces[i].decl.name == PROPERTIES ==> ifaces[i].decl == PROPERTIES_DECL)
    && (SomeTable(ifaces) ==> Has(ifaces, PROPERTIES))
  }

  ghost predicate Carries(n: Node, items: seq<Item>) {
    UserItems(n.ifaces) == items && Built(n.ifaces)
  }

  ghost predicate Follows(objs: Table, b: Book) {
    objs.Keys == b.Keys && forall p :: p in objs ==> Carries(objs[p], b[p])
  }

  // ---------------------------------------------------------------------
  // Lists

  lemma {:induction false} UserAppend(a: seq<Iface>, c: seq<Iface>)
    ensures UserItems(a + c) == UserItems(a) + UserItems(c)
  {
    if a == [] {
      assert a + c == c;
    } else {
      assert (a + c)[1..] == a[1..] + c;
      UserAppend(a[1..], c);
    }
  }

  lemma OneItem(i: Iface)
    ensures UserItems([i]) == if Builtin(i.decl.name) then [] else [Item(i.decl, i.state)]
  {
    var one := [i];
    assert one[1..] == [];
  }

  lemma {:induction false} SplitAt(ifaces: seq<Iface>, k: nat)
    requires k < |ifaces|
    ensures UserItems(ifaces) == UserItems(ifaces[..k]) + UserItems([ifaces[k]]) + UserItems(ifaces[k + 1..])
  {
    assert ifaces == (ifaces[..k] + [ifaces[k]]) + ifaces[k + 1..];
    UserAppend(ifaces[..k] + [ifaces[k]], ifaces[k + 1..]);
    UserAppend(ifaces[..k], [ifaces[k]]);
  }

  lemma {:induction false} UserNamed(ifaces: seq<Iface>, name: Name)
    requires !Builtin(name)
    ensures Named(UserItems(ifaces), name) <==> exists i :: 0 <= i < |ifaces| && ifaces[i].decl.name == name
  {
    if ifaces != [] {
      UserNamed(ifaces[1..], name);
      NamedAppend(if Builtin(ifaces[0].decl.name) then [] else [Item(ifaces[0].decl, ifaces[0].state)], UserItems(ifaces[1..]), name);
      assert (exists i :: 0 <= i < |ifaces| && ifaces[i].decl.name == name)
        <==> ifaces[0].decl.name == name || exists i :: 0 <= i < |ifaces[1..]| && ifaces[1..][i].decl.name == name by {
        SomeFirst(ifaces, name);
      }
    }
  }

  lemma SomeFirst(ifaces: seq<Iface>, name: Name)
    requires ifaces != []
    ensures (exists i :: 0 <= i < |ifaces| && ifaces[i].decl.name == name)
            <==> ifaces[0].decl.name == name || exists i :: 0 <= i < |ifaces[1..]| && ifaces[1..][i].decl.name == name
  {
    if i :| 0 <= i < |ifaces| && ifaces[i].decl.name == name {
      if i > 0 { assert ifaces[1..][i - 1] == ifaces[i]; }
    }
    if i :| 0 <= i < |ifaces[1..]| && ifaces[1..][i].decl.name == name {
      assert ifaces[i + 1] == ifaces[1..][i];
    }
  }

  lemma NamedAppend(a: seq<Item>, c: seq<Item>, name: Name)
    ensures Named(a + c, name) <==> Named(a, name) || Named(c, name)
  {
    if i :| 0 <= i < |a| && a[i].decl.name == name { assert (a + c)[i] == a[i]; }
    if i :| 0 <= i < |c| && c[i].decl.name == name { assert (a + c)[|a| + i] == c[i]; }
  }

  lemma {:induction false} OthersAppend(a: seq<Item>, c: seq<Item>, name: Name)
    ensures Others(a + c, name) == Others(a, name) + Others(c, name)
  {
    if a == [] {
      assert a + c == c;
    } else {
      assert (a + c)[1..] == a[1..] + c;
      OthersAppend(a[1..], c, name);
    }
  }

  lemma {:induction false} OthersAll(a: seq<Item>, name: Name)
    requires !Named(a, name)
    ensures Others(a, name) == a
  {
    if a != [] {
      forall i | 0 <= i < |a[1..]| ensures a[1..][i].decl.name != name { assert a[1..][i] == a[i + 1]; }
      OthersAll(a[1..], name);
    }
  }

  lemma {:induction false} UserSize(ifaces: seq<Iface>)
    ensures |UserItems(ifaces)| == UserCount(ifaces)
  {
    if ifaces != [] { UserSize(ifaces[1..]); }
  }

  lemma HasNamed(ifaces: seq<Iface>, name: Name)
    requires !Builtin(name)
    ensures Has(ifaces, name) <==> Named(UserItems(ifaces), name)
  {
    UserNamed(ifaces, name);
  }

  /** Taking an interface off an object takes its item off the list. */
  lemma {:induction false} UserWithout(ifaces: seq<Iface>, k: nat)
    requires k < |ifaces| && UniqueNames(ifaces) && !Builtin(ifaces[k].decl.name)
    ensures UserItems(Without(ifaces, k)) == Others(UserItems(ifaces), ifaces[k].decl.name)
  {
    var name, a, c := ifaces[k].decl.name, ifaces[..k], ifaces[k + 1..];
    SplitAt(ifaces, k);
    UserAppend(a, c);
    OneItem(ifaces[k]);
    forall i | 0 <= i < |c| ensures c[i].decl.name != name { assert c[i] == ifaces[k + 1 + i]; }
    UserNamed(a, name);
    UserNamed(c, name);
    OthersAround(UserItems(a), Item(ifaces[k].decl, ifaces[k].state), UserItems(c));
  }

  lemma OthersAround(a: seq<Item>, i: Item, c: seq<Item>)
    requires !Named(a, i.decl.name) && !Named(c, i.decl.name)
    ensures Others(a + [i] + c, i.decl.name) == a + c
  {
    var name, one := i.decl.name, [i];
    assert one[1..] == [];
    assert Others(one, name) == [];
    OthersAppend(a + one, c, name);
    OthersAppend(a, one, name);
    OthersAll(a, name);
    OthersAll(c, name);
  }

  lemma {:induction false} RevaluedAppend(a: seq<Item>, c: seq<Item>, name: Name, prop: Name, value: Option<Variant>)
    ensures Revalued(a + c, name, prop, value) == Revalued(a, name, prop, value) + Revalued(c, name, prop, value)
  {
  }

  lemma RevaluedNone(a: seq<Item>, name: Name, prop: Name, value: Option<Variant>)
    requires !Named(a, name)
    ensures Revalued(a, name, prop, value) == a
  {
  }

  /** A new value behind an interface is one behind its item. */
  lemma {:induction false} UserRevalued(ifaces: seq<Iface>, k: nat, prop: Name, value: Option<Variant>)
    requires k < |ifaces| && UniqueNames(ifaces) && !Builtin(ifaces[k].decl.name)
    ensures UserItems(ifaces[k := ifaces[k].(state := SetState(ifaces[k].state, prop, value))])
            == Revalued(UserItems(ifaces), ifaces[k].decl.name, prop, value)
  {
    var name, a, c, i := ifaces[k].decl.name, ifaces[..k], ifaces[k + 1..], ifaces[k].(state := SetState(ifaces[k].state, prop, value));
    var after := ifaces[k := i];
    SplitAt(ifaces, k);
    SplitAt(after, k);
    assert after[..k] == a && after[k + 1..] == c && after[k] == i;
    OneItem(ifaces[k]);
    OneItem(i);
    forall j | 0 <= j < |c| ensures c[j].decl.name != name { assert c[j] == ifaces[k + 1 + j]; }
    UserNamed(a, name);
    UserNamed(c, name);
    RevaluedAround(UserItems(a), Item(ifaces[k].decl, ifaces[k].state), UserItems(c), prop, value);
  }

  lemma RevaluedAround(a: seq<Item>, i: Item, c: seq<Item>, prop: Name, value: Option<Variant>)
    requires !Named(a, i.decl.name) && !Named(c, i.decl.name)
    ensures Revalued(a + [i] + c, i.decl.name, prop, value) == a + [i.(state := SetState(i.state, prop, value))] + c
  {
    RevaluedAppend(a + [i], c, i.decl.name, prop, value);
    RevaluedAppend(a, [i], i.decl.name, prop, value);
    RevaluedNone(a, i.decl.name, prop, value);
    RevaluedNone(c, i.decl.name, prop, value);
  }

  lemma {:induction false} SameUsers(a: seq<Iface>, c: seq<Iface>)
    requires |a| == |c| && forall i :: 0 <= i < |a| ==> a[i].decl == c[i].decl && (a[i].state == c[i].state || Builtin(a[i].decl.name))
    ensures UserItems(a) == UserItems(c)
  {
    if a != [] { SameUsers(a[1..], c[1..]); }
  }

  // ---------------------------------------------------------------------
  // Objects

  lemma AppendBuilt(ifaces: seq<Iface>, i: Iface)
    requires Built(ifaces) && (i.decl.name == PROPERTIES ==> i.decl == PROPERTIES_DECL)
    requires i.decl.properties.Some? ==> Has(ifaces, PROPERTIES)
    ensures Built(ifaces + [i])
  {
    HasAppended(ifaces, i, PROPERTIES);
    if SomeTable(ifaces + [i]) && !SomeTable(ifaces) {
      var k :| 0 <= k < |ifaces + [i]| && (ifaces + [i])[k].decl.properties.Some?;
      assert k == |ifaces|;
    }
  }

  /** Properties comes right after the first interface with a table. */
  lemma AppendBoth(ifaces: seq<Iface>, i: Iface)
    requires Built(ifaces) && !Builtin(i.decl.name)
    ensures Built(ifaces + [i] + PropertiesIface(ifaces + [i], i.decl))
    ensures UserItems(ifaces + [i] + PropertiesIface(ifaces + [i], i.decl)) == UserItems(ifaces) + [Item(i.decl, i.state)]
  {
    var both, last := ifaces + [i], PropertiesIface(ifaces + [i], i.decl);
    UserAppend(ifaces, [i]);
    UserAppend(both, last);
    OneItem(i);
    OneItem(Iface(PROPERTIES_DECL, [], map[]));
    assert UserItems(both) + [] == UserItems(both);
    HasAppended(ifaces, i, PROPERTIES);
    if last == [] {
      assert both + [] == both;
      AppendBuilt(ifaces, i);
    } else {
      TableThenProperties(ifaces, i);
    }
  }

  lemma TableThenProperties(ifaces: seq<Iface>, i: Iface)
    requires Built(ifaces) && !Builtin(i.decl.name)
    ensures Built(ifaces + [i] + [Iface(PROPERTIES_DECL, [], map[])])
  {
    HasAppended(ifaces + [i], Iface(PROPERTIES_DECL, [], map[]), PROPERTIES);
  }

  lemma AcceptedCarries(n: Node, items: seq<Item>, d: Decl, state: map<Name, Variant>)
    requires Carries(n, items) && !Builtin(d.name)
    ensures Carries(Accepted(n, d, state), items + [Item(d, state)])
  {
    AppendBoth(n.ifaces, Iface(d, [], state));
  }

  lemma FreshCarries(n: Node)
    requires n.ifaces == [Iface(INTROSPECTABLE_DECL, [], map[])]
    ensures Carries(n, [])
  {
    OneItem(n.ifaces[0]);
    assert n.ifaces[0].decl.properties.None?;
  }

  lemma ReleasedCarries(n: Node, items: seq<Item>, name: Name)
    requires Carries(n, items) && UniqueNames(n.ifaces) && !Builtin(name) && Has(n.ifaces, name)
    ensures Carries(Released(n, name), Others(items, name))
  {
    var k := Find(n.ifaces, name);
    UserWithout(n.ifaces, k);
    var w := Without(n.ifaces, k);
    forall i | 0 <= i < |w| ensures w[i] == n.ifaces[if i < k then i else i + 1] {}
    HasWithout(n.ifaces, k, PROPERTIES);
  }

  lemma RevaluedCarries(n: Node, items: seq<Item>, iface: Name, prop: Name, value: Option<Variant>)
    requires Carries(n, items) && UniqueNames(n.ifaces) && Has(n.ifaces, iface)
    ensures Carries(WithState(n, Find(n.ifaces, iface), prop, value), Revalued(items, iface, prop, value))
  {
    var k := Find(n.ifaces, iface);
    var m := WithState(n, k, prop, value);
    SameNamesSameFinds(n.ifaces, m.ifaces, PROPERTIES);
    if Builtin(iface) {
      SameUsers(n.ifaces, m.ifaces);
      BuiltinUnnamed(n.ifaces, iface);
      RevaluedNone(items, iface, prop, value);
    } else {
      UserRevalued(n.ifaces, k, prop, value);
    }
  }

  lemma {:induction false} BuiltinUnnamed(ifaces: seq<Iface>, name: Name)
    requires Builtin(name)
    ensures !Named(UserItems(ifaces), name)
  {
    if ifaces != [] { BuiltinUnnamed(ifaces[1..], name); }
  }

  // ---------------------------------------------------------------------
  // Tables

  ghost predicate FollowsBut(objs: Table, b: Book, p: Path) {
    && (forall q :: q in objs && q != p ==> q in b && Carries(objs[q], b[q]))
    && (forall q :: q in b && q != p ==> q in objs)
  }

  lemma StoreFollows(objs: Table, b: Book, p: Path, n: Node, items: seq<Item>, r: Table)
    requires FollowsBut(objs, b, p) && Carries(n, items) && SameCores(objs[p := n], r)
    ensures Follows(r, b[p := items])
  {
    forall q | q in r ensures q in b[p := items] && Carries(r[q], b[p := items][q]) {
      assert SameCore(objs[p := n][q], r[q]);
    }
  }

  lemma InsertedFollows(objs: Table, b: Book, p: Path)
    requires Follows(objs, b) && Calm(objs) && p !in objs
    ensures FollowsBut(Inserted(objs, p), b, p)
  {
    InsertedCalm(objs, p);
    forall q | q in Inserted(objs, p) && q != p ensures q in objs && Inserted(objs, p)[q].ifaces == objs[q].ifaces {
      assert SameBody(objs[p := FRESH_NODE][q], Inserted(objs, p)[q]);
    }
  }

  lemma RemovedFollows(objs: Table, b: Book, p: Path, r: Table)
    requires FollowsBut(objs, b, p) && p in objs && SameCores(Removed(objs, p), r)
    ensures Follows(r, b - {p})
  {
    forall q | q in r ensures q in b && q != p && Carries(r[q], b[q]) {
      RemovedBody(objs, p, q);
      assert SameCore(Removed(objs, p)[q], r[q]);
    }
  }

  // ---------------------------------------------------------------------
  // Calls

  lemma TakesIffAccepts(b: Book, show: bool, p: Path, d: Decl, n: Node, items: seq<Item>)
    requires Carries(n, items) && items == Items(b, p) && !Builtin(d.name) && ValidPath(p) && ValidInterface(d.name)
    ensures Takes(b, show, p, d) <==> Accepts(show, n, d)
  {
    HasNamed(n.ifaces, d.name);
    SeenIffVisible(show, d);
  }

  lemma SeenIffVisible(show: bool, d: Decl)
    ensures Seen(show, d) <==> SomethingVisible(show, d)
  {
    var ps := Properties(d);
    assert ps == if d.properties.Some? then d.properties.value else [];
    if !show {
      assert forall e :: Hidden(show, e) <==> e;
    } else if d.methods != [] {
      assert !Hidden(show, d.methods[0].experimental);
    } else if d.signals != [] {
      assert !Hidden(show, d.signals[0].experimental);
    } else if ps != [] {
      assert !Hidden(show, ps[0].experimental);
    }
  }

  lemma RegisterFollows(s: Server, b: Book, p: Path, d: Decl, state: map<Name, Variant>)
    requires Sound(s) && Follows(s.objects, b) && !Reserved(p, d.name)
    ensures var r := Register(s, p, d, state);
            && Follows(r.server.objects, Written(b, s.showExperimental, RegisterCall(p, d, state)))
            && (r.ok <==> Takes(b, s.showExperimental, p, d))
  {
    if ValidPath(p) && ValidInterface(d.name) {
      assert p in s.objects ==> Counted(s.objects[p]);
      RegisterHasEffect(s, p, d, state);
      if p in s.objects {
        RegisterOldFollows(s, b, p, d, state, Register(s, p, d, state));
      } else {
        FreshRefCore(s, p);
        RegisterNewFollows(s, b, p, d, state, Register(s, p, d, state));
      }
    }
  }

  lemma RegisterOldFollows(s: Server, b: Book, p: Path, d: Decl, state: map<Name, Variant>, r: Outcome)
    requires Follows(s.objects, b) && !Builtin(d.name) && p in s.objects && ValidPath(p) && ValidInterface(d.name)
    requires RegisterEffect(s, p, d, state, r)
    ensures Follows(r.server.objects, Written(b, s.showExperimental, RegisterCall(p, d, state)))
    ensures r.ok <==> Takes(b, s.showExperimental, p, d)
  {
    var n := s.objects[p];
    TakesIffAccepts(b, s.showExperimental, p, d, n, b[p]);
    if r.ok {
      var m := n.(refcount := n.refcount + 1);
      AcceptedCarries(m, b[p], d, state);
      StoreFollows(s.objects, b, p, Accepted(m, d, state), b[p] + [Item(d, state)], r.server.objects);
    }
  }

  lemma RegisterNewFollows(s: Server, b: Book, p: Path, d: Decl, state: map<Name, Variant>, r: Outcome)
    requires Follows(s.objects, b) && Calm(s.objects) && !Builtin(d.name) && p !in s.objects && ValidPath(p) && ValidInterface(d.name)
    requires RegisterEffect(s, p, d, state, r) && FreshNode(s.objects, p).ifaces == [Iface(INTROSPECTABLE_DECL, [], map[])]
    ensures Follows(r.server.objects, Written(b, s.showExperimental, RegisterCall(p, d, state)))
    ensures r.ok <==> Takes(b, s.showExperimental, p, d)
  {
    var n := FreshNode(s.objects, p);
    FreshCarries(n);
    TakesIffAccepts(b, s.showExperimental, p, d, n, []);
    InsertedFollows(s.objects, b, p);
    if r.ok {
      AcceptedCarries(n, [], d, state);
      StoreFollows(Inserted(s.objects, p), b, p, Accepted(n, d, state), [] + [Item(d, state)], r.server.objects);
    } else {
      MadeAndUnmade(s.objects, b, p, r.server.objects);
    }
  }

  lemma MadeAndUnmade(objs: Table, b: Book, p: Path, r: Table)
    requires FollowsBut(Inserted(objs, p), b, p) && p !in b && SameCores(Removed(Inserted(objs, p), p), r)
    ensures Follows(r, b)
  {
    RemovedFollows(Inserted(objs, p), b, p, r);
    NothingTaken(b, p);
  }

  lemma NothingTaken(b: Book, p: Path)
    requires p !in b
    ensures b - {p} == b
  {
  }

  lemma UnregisterFollows(s: Server, b: Book, p: Path, name: Name)
    requires Sound(s) && Follows(s.objects, b) && !Reserved(p, name)
    ensures var r := Unregister(s, p, name);
            && Follows(r.server.objects, Written(b, s.showExperimental, UnregisterCall(p, name)))
            && (r.ok <==> Named(Items(b, p), name))
  {
    assert p in s.objects ==> Counted(s.objects[p]);
    UnregisterHasEffect(s, p, name);
    if p in s.objects {
      HasNamed(s.objects[p].ifaces, name);
      if Has(s.objects[p].ifaces, name) { TakenOff(s, b, p, name, Unregister(s, p, name)); }
    }
  }

  lemma TakenOff(s: Server, b: Book, p: Path, name: Name, r: Outcome)
    requires Follows(s.objects, b) && !Builtin(name) && p in s.objects && Has(s.objects[p].ifaces, name) && Named(b[p], name)
    requires UnregisterEffect(s, p, name, r) && Counted(s.objects[p])
    ensures Follows(r.server.objects, Written(b, s.showExperimental, UnregisterCall(p, name))) && r.ok
  {
    var n := s.objects[p];
    var left := Others(b[p], name);
    ReleasedCarries(n, b[p], name);
    UserSize(n.ifaces);
    UserSize(Released(n, name).ifaces);
    UserCountWithout(n.ifaces, Find(n.ifaces, name));
    if n.refcount > 1 {
      StoreFollows(s.objects, b, p, Released(n, name), left, r.server.objects);
    } else {
      RemovedFollows(s.objects, b, p, r.server.objects);
    }
  }

  lemma ChangeFollows(s: Server, b: Book, p: Path, iface: Name, prop: Name, value: Option<Variant>, flush: bool)
    requires Sound(s) && Follows(s.objects, b)
    ensures Follows(ChangeProperty(s, p, iface, prop, value, flush).objects,
                    Written(b, s.showExperimental, ChangeCall(p, iface, prop, value, flush)))
  {
    assert p in s.objects ==> Counted(s.objects[p]);
    ChangeHasEffect(s, p, iface, prop, value, flush);
    Rewritten(s, b, p, iface, prop, value, ChangeProperty(s, p, iface, prop, value, flush));
  }

  lemma Rewritten(s: Server, b: Book, p: Path, iface: Name, prop: Name, value: Option<Variant>, r: Server)
    requires Follows(s.objects, b) && (p in s.objects ==> UniqueNames(s.objects[p].ifaces)) && ChangeEffect(s, p, iface, prop, value, r)
    ensures Follows(r.objects, if p in b then b[p := Revalued(b[p], iface, prop, value)] else b)
  {
    if p in s.objects {
      var n := s.objects[p];
      if Has(n.ifaces, iface) {
        RevaluedCarries(n, b[p], iface, prop, value);
        StoreFollows(s.objects, b, p, WithState(n, Find(n.ifaces, iface), prop, value), Revalued(b[p], iface, prop, value), r.objects);
      } else {
        Unnamed(n.ifaces, iface);
        RevaluedNone(b[p], iface, prop, value);
        assert b[p := b[p]] == b;
      }
    }
  }

  lemma Unnamed(ifaces: seq<Iface>, name: Name)
    requires !Has(ifaces, name)
    ensures !Named(UserItems(ifaces), name)
  {
    if Builtin(name) { BuiltinUnnamed(ifaces, name); } else { HasNamed(ifaces, name); }
  }

  lemma ManagedCarries(n: Node, items: seq<Item>)
    requires Carries(n, items)
    ensures Carries(Managed(n), items + [Item(MANAGER_DECL, map[])])
  {
    UserAppend(n.ifaces, [Iface(MANAGER_DECL, [], map[])]);
    OneItem(Iface(MANAGER_DECL, [], map[]));
    AppendBuilt(n.ifaces, Iface(MANAGER_DECL, [], map[]));
  }

  lemma AttachFollows(s: Server, b: Book)
    requires Sound(s) && Follows(s.objects, b)
    ensures Follows(Attach(s).objects, Written(b, s.showExperimental, AttachCall))
  {
    AttachHasEffect(s);
    if ROOT !in s.objects { FreshRefCore(s, ROOT); }
    AttachedFollows(s.objects, b, Attach(s).objects);
  }

  lemma AttachedFollows(objs: Table, b: Book, r: Table)
    requires Follows(objs, b) && Calm(objs) && (ROOT in objs ==> AttachOld(objs, r))
    requires ROOT !in objs ==> AttachNew(objs, r) && FreshNode(objs, ROOT).ifaces == [Iface(INTROSPECTABLE_DECL, [], map[])]
    ensures Follows(r, b[ROOT := Items(b, ROOT) + [Item(MANAGER_DECL, map[])]])
  {
    if ROOT in objs { AttachOldFollows(objs, b, r); } else { AttachNewFollows(objs, b, r); }
  }

  lemma AttachOldFollows(objs: Table, b: Book, r: Table)
    requires Follows(objs, b) && ROOT in objs && AttachOld(objs, r)
    ensures Follows(r, b[ROOT := b[ROOT] + [Item(MANAGER_DECL, map[])]])
  {
    var n := objs[ROOT].(refcount := objs[ROOT].refcount + 1);
    ManagedCarries(n, b[ROOT]);
    StoreFollows(objs, b, ROOT, Managed(n), b[ROOT] + [Item(MANAGER_DECL, map[])], r);
  }

  lemma AttachNewFollows(objs: Table, b: Book, r: Table)
    requires Follows(objs, b) && Calm(objs) && ROOT !in objs && AttachNew(objs, r)
    requires FreshNode(objs, ROOT).ifaces == [Iface(INTROSPECTABLE_DECL, [], map[])]
    ensures Follows(r, b[ROOT := [] + [Item(MANAGER_DECL, map[])]])
  {
    FreshCarries(FreshNode(objs, ROOT));
    ManagedCarries(FreshNode(objs, ROOT), []);
    InsertedFollows(objs, b, ROOT);
    StoreFollows(Inserted(objs, ROOT), b, ROOT, Managed(FreshNode(objs, ROOT)), [] + [Item(MANAGER_DECL, map[])], r);
  }

  /** Every legal call does to the objects what it does to the ledger. */
  lemma PerformFollows(s: Server, b: Book, call: Call)
    requires Sound(s) && Legal(s, call) && Follows(s.objects, b)
    ensures Follows(Perform(s, call).objects, Written(b, s.showExperimental, call))
  {
    match call
    case RegisterCall(p, d, state) => RegisterFollows(s, b, p, d, state);
    case UnregisterCall(p, name) => UnregisterFollows(s, b, p, name);
    case ChangeCall(p, iface, prop, value, flush) => ChangeFollows(s, b, p, iface, prop, value, flush);
    case IntrospectCall(p) => if p in s.objects { IntrospectFollows(s, b, p); }
    case AttachCall => AttachFollows(s, b);
  }

  lemma IntrospectFollows(s: Server, b: Book, p: Path)
    requires Follows(s.objects, b) && p in s.objects
    ensures Follows(Introspect(s, p).objects, b)
  {
    forall q | q in s.objects ensures Carries(Introspect(s, p).objects[q], b[q]) {
      assert Introspect(s, p).objects[q].ifaces == s.objects[q].ifaces;
    }
  }

  lemma KeepsShow(s: Server, call: Call)
    ensures Perform(s, call).showExperimental == s.showExperimental
  {
    if call.AttachCall? { assert SameFlags(s, PathRef(s, ROOT)); }
  }

  /** In every legal run, in any order, the registered objects are the paths of the ledger, each carries the interfaces in its
      list, in order and with their values, and Introspectable, and Properties if one of them has a property table. */
  lemma {:induction false} RunsFollow(show: bool, calls: seq<Call>)
    requires LegalRun(Started(show), calls)
    ensures Follows(Run(Started(show), calls).objects, WrittenAll(show, calls))
    ensures Run(Started(show), calls).showExperimental == show
  {
    if calls != [] {
      var k := |calls| - 1;
      forall i | 0 <= i < k ensures Legal(Run(Started(show), calls[..k][..i]), calls[..k][i]) {
        assert calls[..k][..i] == calls[..i];
      }
      RunsFollow(show, calls[..k]);
      RunsAreSound(show, calls[..k]);
      PerformFollows(Run(Started(show), calls[..k]), WrittenAll(show, calls[..k]), calls[k]);
      KeepsShow(Run(Started(show), calls[..k]), calls[k]);
    }
  }
}
