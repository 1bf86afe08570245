/** What the server exports, and that every call's messages carry a view of the
    exports before the call to one of the exports after it.

    The calls are made in the callers' order with the manager attached, so every
    interface is announced as soon as it is registered.
 */
module Exports {
  import opened Bus
  import opened Views
  import opened ObjectModel
  import opened ObjectCore
  import opened ObjectLifetime
  import opened ObjectTree

  // ---------------------------------------------------------------------
  // Exported state

  predicate Exported(objs: Table, k: Key) {
    k.path in objs && k.path != [] && !Builtin(k.iface) && Has(objs[k.path].ifaces, k.iface)
  }

  function PropsOf(show: bool, i: Iface): Props {
    ToMap(Entries(show, Properties(i.decl), i.state))
  }

  function PropsAt(objs: Table, show: bool, k: Key): Props
    requires Exported(objs, k)
  {
    PropsOf(show, objs[k.path].ifaces[Find(objs[k.path].ifaces, k.iface)])
  }

  /** The view holds only exported interfaces, with their property values; if `exact`, all of them. */
  ghost predicate Tracks(v: View, objs: Table, show: bool, exact: bool) {
    && (forall k :: k in v ==> Exported(objs, k) && v[k] == PropsAt(objs, show, k))
    && (exact ==> forall k :: Exported(objs, k) ==> k in v)
  }

  lemma TracksSame(v: View, a: Table, b: Table, show: bool, exact: bool)
    requires Tracks(v, a, show, exact)
    requires forall k :: Exported(a, k) <==> Exported(b, k)
    requires forall k :: Exported(a, k) ==> PropsAt(a, show, k) == PropsAt(b, show, k)
    ensures Tracks(v, b, show, exact)
  {
  }

  ghost predicate NothingOn(n: Node) {
    forall i :: 0 <= i < |n.ifaces| ==> Builtin(n.ifaces[i].decl.name)
  }

  /** Objects with the same interfaces export the same; one with built-in interfaces only exports nothing. */
  lemma TracksIfaces(v: View, a: Table, b: Table, show: bool, exact: bool)
    requires Tracks(v, a, show, exact)
    requires forall p :: p in a && p in b ==> a[p].ifaces == b[p].ifaces
    requires forall p :: p in a && p !in b ==> NothingOn(a[p])
    requires forall p :: p in b && p !in a ==> NothingOn(b[p])
    ensures Tracks(v, b, show, exact)
  {
    TracksSame(v, a, b, show, exact);
  }

  // ---------------------------------------------------------------------
  // One interface comes, goes or changes

  lemma FindAppended(a: seq<Iface>, i: Iface, name: Name)
    requires !Has(a, i.decl.name)
    ensures Has(a + [i], name) <==> Has(a, name) || name == i.decl.name
    ensures Has(a + [i], name) ==>
              (a + [i])[Find(a + [i], name)] == if name == i.decl.name then i else a[Find(a, name)]
  {
    var b := a + [i];
    HasAppended(a, i, name);
    if name == i.decl.name {
      assert forall j :: 0 <= j < |a| ==> b[j].decl.name != name;
      FindAt(b, name, |a|);
    } else if Has(a, name) {
      assert forall j :: 0 <= j < Find(a, name) ==> b[j] == a[j];
      FindAt(b, name, Find(a, name));
    }
  }

  lemma AddTracks(v: View, objs: Table, p: Path, i: Iface, show: bool, exact: bool)
    requires Tracks(v, objs, show, exact) && p in objs && p != [] && !Has(objs[p].ifaces, i.decl.name)
    ensures var n := objs[p];
            Tracks(ApplyIface(v, p, IfaceEntry(show, i)), objs[p := n.(ifaces := n.ifaces + [i])], show, exact)
  {
    var n := objs[p];
    var t := objs[p := n.(ifaces := n.ifaces + [i])];
    var w := ApplyIface(v, p, IfaceEntry(show, i));
    assert Key(p, i.decl.name) !in v;
    assert map[] + PropsOf(show, i) == PropsOf(show, i);
    TracksAll(v, objs, show, exact);
    forall k ensures AgreeAt(w, t, show, exact, k) { AddedAgrees(v, objs, p, i, show, exact, t, w, k); }
    TracksAll(w, t, show, exact);
  }

  lemma AddedAgrees(v: View, objs: Table, p: Path, i: Iface, show: bool, exact: bool, t: Table, w: View, k: Key)
    requires AgreeAt(v, objs, show, exact, k) && p in objs && p != [] && !Has(objs[p].ifaces, i.decl.name)
    requires t == objs[p := objs[p].(ifaces := objs[p].ifaces + [i])]
    requires w == if Builtin(i.decl.name) then v else v[Key(p, i.decl.name) := PropsOf(show, i)]
    ensures AgreeAt(w, t, show, exact, k)
  {
    if k.path == p { FindAppended(objs[p].ifaces, i, k.iface); }
  }

  lemma RootTracks(v: View, objs: Table, n: Node, show: bool, exact: bool)
    requires Tracks(v, objs, show, exact) && [] in objs
    ensures Tracks(v, objs[[] := n], show, exact)
  {
    TracksSame(v, objs, objs[[] := n], show, exact);
  }

  lemma FindRemoved(a: seq<Iface>, k: nat, name: Name)
    requires UniqueNames(a) && k < |a|
    ensures Has(Without(a, k), name) <==> Has(a, name) && name != a[k].decl.name
    ensures Has(Without(a, k), name) ==> Without(a, k)[Find(Without(a, k), name)] == a[Find(a, name)]
  {
    HasWithout(a, k, name);
    var w := Without(a, k);
    if Has(w, name) {
      var j := Find(w, name);
      assert w[j] == a[if j < k then j else j + 1];
    }
  }

  /** The view and the table agree about one key. */
  ghost predicate AgreeAt(v: View, objs: Table, show: bool, exact: bool, k: Key) {
    (k in v ==> Exported(objs, k) && v[k] == PropsAt(objs, show, k)) && (exact && Exported(objs, k) ==> k in v)
  }

  lemma TracksAll(v: View, objs: Table, show: bool, exact: bool)
    ensures Tracks(v, objs, show, exact) <==> forall k :: AgreeAt(v, objs, show, exact, k)
  {
    if forall k :: AgreeAt(v, objs, show, exact, k) {
      forall k | k in v ensures Exported(objs, k) && v[k] == PropsAt(objs, show, k) { assert AgreeAt(v, objs, show, exact, k); }
      forall k | exact && Exported(objs, k) ensures k in v { assert AgreeAt(v, objs, show, exact, k); }
    }
  }

  lemma RemoveTracks(v: View, objs: Table, p: Path, name: Name, show: bool, exact: bool)
    requires Tracks(v, objs, show, exact) && p in objs && p != []
    requires UniqueNames(objs[p].ifaces) && Has(objs[p].ifaces, name)
    ensures var n := objs[p];
            Tracks(ApplyRemoved(v, p, [name]), objs[p := n.(ifaces := Without(n.ifaces, Find(n.ifaces, name)))], show, exact)
  {
    var n := objs[p];
    var t := objs[p := n.(ifaces := Without(n.ifaces, Find(n.ifaces, name)))];
    var w := v - {Key(p, name)};
    OneRemoved(v, p, name);
    TracksAll(v, objs, show, exact);
    forall k ensures AgreeAt(w, t, show, exact, k) { RemovedAgrees(v, objs, p, name, show, exact, t, k); }
    TracksAll(w, t, show, exact);
  }

  lemma RemovedAgrees(v: View, objs: Table, p: Path, name: Name, show: bool, exact: bool, t: Table, k: Key)
    requires AgreeAt(v, objs, show, exact, k) && p in objs && p != [] && UniqueNames(objs[p].ifaces) && Has(objs[p].ifaces, name)
    requires t == objs[p := objs[p].(ifaces := Without(objs[p].ifaces, Find(objs[p].ifaces, name)))]
    ensures AgreeAt(v - {Key(p, name)}, t, show, exact, k)
  {
    if k.path == p { FindRemoved(objs[p].ifaces, Find(objs[p].ifaces, name), k.iface); }
  }

  // ---------------------------------------------------------------------
  // Property values

  predicate Shown(show: bool, props: seq<Property>, name: Name) {
    FindProperty(show, props, name).Some? && FindProperty(show, props, name).value.readable
  }

  /** The table offers a value under the name: an entry that is visible and can be read. */
  predicate Offered(show: bool, props: seq<Property>, name: Name) {
    exists i :: 0 <= i < |props| && props[i].name == name && !Hidden(show, props[i].experimental) && props[i].readable
  }

  /** What the table offers is also what a search by name finds: no entry of the same name in front of one that is visible
      and can be read is hidden or cannot be read. */
  ghost predicate Answers(show: bool, props: seq<Property>) {
    forall name :: Offered(show, props, name) ==> Shown(show, props, name)
  }

  lemma OfferedCons(show: bool, props: seq<Property>, name: Name)
    requires props != []
    ensures Offered(show, props, name)
            <==> (props[0].name == name && !Hidden(show, props[0].experimental) && props[0].readable) || Offered(show, props[1..], name)
  {
    var tail := props[1..];
    assert forall i :: 0 <= i < |tail| ==> tail[i] == props[i + 1];
    if Offered(show, props, name) {
      var i :| 0 <= i < |props| && props[i].name == name && !Hidden(show, props[i].experimental) && props[i].readable;
      assert i > 0 ==> tail[i - 1] == props[i];
    }
  }

  lemma {:induction false} ShownIsOffered(show: bool, props: seq<Property>, name: Name)
    requires Shown(show, props, name)
    ensures Offered(show, props, name)
  {
    OfferedCons(show, props, name);
    if props[0].name != name { ShownIsOffered(show, props[1..], name); }
  }

  lemma {:induction false} FoundName(show: bool, props: seq<Property>, name: Name)
    ensures FindProperty(show, props, name).Some? ==> FindProperty(show, props, name).value.name == name
    ensures (forall i :: 0 <= i < |props| ==> props[i].name != name) ==> FindProperty(show, props, name).None?
  {
    if props != [] { FoundName(show, props[1..], name); }
  }

  lemma EntriesCons(show: bool, props: seq<Property>, state: map<Name, Variant>)
    requires props != []
    ensures var p := props[0]; var tail := ToMap(Entries(show, props[1..], state));
            ToMap(Entries(show, props, state))
            == if Hidden(show, p.experimental) || !p.readable || p.name !in state then tail
               else map[p.name := state[p.name]] + tail
  {
    var p := props[0];
    var tail := Entries(show, props[1..], state);
    if Hidden(show, p.experimental) || !p.readable || p.name !in state {
      assert [] + tail == tail;
    } else {
      ToMapConcat([Entry(p.name, state[p.name])], tail);
      OneEntry(Entry(p.name, state[p.name]));
    }
  }

  lemma {:induction false} EntriesAt(show: bool, props: seq<Property>, state: map<Name, Variant>, n: Name)
    ensures var m := ToMap(Entries(show, props, state));
            && (n in m <==> n in state && Offered(show, props, n))
            && (n in m ==> m[n] == state[n])
  {
    if props != [] {
      EntriesCons(show, props, state);
      EntriesAt(show, props[1..], state, n);
      OfferedCons(show, props, n);
    }
  }

  /** The values of the properties that can be read and exist. */
  function Seen(show: bool, props: seq<Property>, state: map<Name, Variant>): Props {
    map n | n in state && Offered(show, props, n) :: state[n]
  }

  /** What an interface exports. */
  lemma EntriesMap(show: bool, props: seq<Property>, state: map<Name, Variant>)
    ensures ToMap(Entries(show, props, state)) == Seen(show, props, state)
  {
    forall n ensures n in ToMap(Entries(show, props, state)) <==> n in Seen(show, props, state) {
      EntriesAt(show, props, state, n);
    }
    forall n | n in Seen(show, props, state) ensures ToMap(Entries(show, props, state))[n] == state[n] {
      EntriesAt(show, props, state, n);
    }
  }

  lemma SeenSet(show: bool, props: seq<Property>, state: map<Name, Variant>, name: Name, v: Variant)
    ensures Seen(show, props, state[name := v])
            == if Offered(show, props, name) then Seen(show, props, state)[name := v] else Seen(show, props, state)
  {
  }

  lemma SeenGone(show: bool, props: seq<Property>, state: map<Name, Variant>, name: Name)
    ensures Seen(show, props, state - {name}) == Seen(show, props, state) - {name}
    ensures !Offered(show, props, name) ==> Seen(show, props, state - {name}) == Seen(show, props, state)
  {
  }

  lemma OneChange(found: Property, state: map<Name, Variant>)
    ensures ToMap(ChangedEntries([found], state))
            == if found.readable && found.name in state then map[found.name := state[found.name]] else map[]
    ensures (set n | n in GoneNames([found], state))
            == if found.readable && found.name !in state then {found.name} else {}
  {
    var ps := [found];
    assert ps[1..] == [];
    assert ChangedEntries(ps[1..], state) == [] && GoneNames(ps[1..], state) == [];
    if found.readable && found.name in state {
      assert ChangedEntries(ps, state) == [Entry(found.name, state[found.name])];
      OneEntry(Entry(found.name, state[found.name]));
    }
  }

  /** The message about one property turns the old exported values into the new ones. */
  lemma ChangedValues(show: bool, props: seq<Property>, state: map<Name, Variant>, name: Name, value: Option<Variant>, found: Property)
    requires FindProperty(show, props, name) == Some(found) && (Offered(show, props, name) <==> found.readable)
    ensures var s' := SetState(state, name, value);
            ToMap(Entries(show, props, s'))
            == (ToMap(Entries(show, props, state)) + ToMap(ChangedEntries([found], s'))) - (set n | n in GoneNames([found], s'))
  {
    var s' := SetState(state, name, value);
    FoundName(show, props, name);
    EntriesMap(show, props, state);
    EntriesMap(show, props, s');
    OneChange(found, s');
    if value.Some? { SeenSet(show, props, state, name, value.value); } else { SeenGone(show, props, state, name); }
    ChangedMaps(Seen(show, props, state), Seen(show, props, s'), ToMap(ChangedEntries([found], s')),
                (set n | n in GoneNames([found], s')), name, value, found.readable);
  }

  lemma ChangedMaps(m: Props, m': Props, changed: Props, gone: set<Name>, name: Name, value: Option<Variant>, readable: bool)
    requires readable && value.Some? ==> m' == m[name := value.value] && changed == map[name := value.value] && gone == {}
    requires readable && value.None? ==> m' == m - {name} && changed == map[] && gone == {name}
    requires !readable ==> m' == m && changed == map[] && gone == {}
    ensures m' == (m + changed) - gone
  {
  }

  lemma UnseenValues(show: bool, props: seq<Property>, state: map<Name, Variant>, name: Name, value: Option<Variant>)
    requires !Offered(show, props, name)
    ensures ToMap(Entries(show, props, SetState(state, name, value))) == ToMap(Entries(show, props, state))
  {
    EntriesMap(show, props, state);
    EntriesMap(show, props, SetState(state, name, value));
    if value.Some? { SeenSet(show, props, state, name, value.value); } else { SeenGone(show, props, state, name); }
  }

  /** Whether what is sent about a change turns the old exported values into the new ones. */
  ghost predicate Told(show: bool, props: seq<Property>, state: map<Name, Variant>, name: Name, value: Option<Variant>) {
    var s' := SetState(state, name, value);
    var found := FindProperty(show, props, name);
    var was := ToMap(Entries(show, props, state));
    ToMap(Entries(show, props, s'))
    == if found.None? then was
       else (was + ToMap(ChangedEntries([found.value], s'))) - (set n | n in GoneNames([found.value], s'))
  }

  lemma AnsweredIsTold(show: bool, props: seq<Property>, state: map<Name, Variant>, name: Name, value: Option<Variant>)
    requires Offered(show, props, name) ==> Shown(show, props, name)
    ensures Told(show, props, state, name, value)
  {
    if Shown(show, props, name) { ShownIsOffered(show, props, name); }
    var found := FindProperty(show, props, name);
    if found.None? {
      UnseenValues(show, props, state, name, value);
    } else {
      ChangedValues(show, props, state, name, value, found.value);
    }
  }

  /** The value behind a property, if it has one. */
  function Current(state: map<Name, Variant>, name: Name): Option<Variant> {
    if name in state then Some(state[name]) else None
  }

  lemma UnansweredIsNotTold(show: bool, props: seq<Property>, state: map<Name, Variant>, name: Name, value: Option<Variant>)
    requires Offered(show, props, name) && !Shown(show, props, name) && value != Current(state, name)
    ensures !Told(show, props, state, name, value)
  {
    var s' := SetState(state, name, value);
    EntriesAt(show, props, state, name);
    EntriesAt(show, props, s', name);
    var found := FindProperty(show, props, name);
    if found.Some? { OneChange(found.value, s'); }
  }

  lemma SameValueIsTold(show: bool, props: seq<Property>, state: map<Name, Variant>, name: Name, value: Option<Variant>)
    requires !Shown(show, props, name) && value == Current(state, name)
    ensures Told(show, props, state, name, value)
  {
    assert SetState(state, name, value) == state;
    var found := FindProperty(show, props, name);
    if found.Some? { OneChange(found.value, state); }
  }

  /** What is sent about a change turns the old exported values into the new ones exactly when the property is found by
      its name if it is offered, or its value does not change. */
  lemma ToldIff(show: bool, props: seq<Property>, state: map<Name, Variant>, name: Name, value: Option<Variant>)
    ensures Told(show, props, state, name, value)
            <==> (Offered(show, props, name) ==> Shown(show, props, name) || value == Current(state, name))
  {
    if Offered(show, props, name) && !Shown(show, props, name) {
      if value == Current(state, name) {
        SameValueIsTold(show, props, state, name, value);
      } else {
        UnansweredIsNotTold(show, props, state, name, value);
      }
    } else {
      AnsweredIsTold(show, props, state, name, value);
    }
  }

  /** Every change is told right exactly when the table answers for what it offers. */
  lemma AnswersIff(show: bool, props: seq<Property>)
    ensures Answers(show, props) <==> forall state, name, value :: Told(show, props, state, name, value)
  {
    if Answers(show, props) {
      forall state, name, value ensures Told(show, props, state, name, value) {
        AnsweredIsTold(show, props, state, name, value);
      }
    } else {
      var name :| Offered(show, props, name) && !Shown(show, props, name);
      UnansweredIsNotTold(show, props, map[], name, Some(""));
    }
  }

  /** The node with a new state behind interface `f`. */
  function Restated(n: Node, f: nat, state: map<Name, Variant>): Node
    requires f < |n.ifaces|
  {
    n.(ifaces := n.ifaces[f := n.ifaces[f].(state := state)])
  }

  lemma RestatedExports(objs: Table, p: Path, f: nat, state: map<Name, Variant>, show: bool, k: Key)
    requires p in objs && f < |objs[p].ifaces| && UniqueNames(objs[p].ifaces)
    ensures var t := objs[p := Restated(objs[p], f, state)]; var i := objs[p].ifaces[f];
            && (Exported(t, k) <==> Exported(objs, k))
            && (Exported(t, k) ==>
                  PropsAt(t, show, k) == if k == Key(p, i.decl.name) then PropsOf(show, i.(state := state)) else PropsAt(objs, show, k))
  {
    var n := objs[p];
    SameNamesSameFinds(n.ifaces, Restated(n, f, state).ifaces, k.iface);
    FindAt(n.ifaces, n.ifaces[f].decl.name, f);
  }

  lemma StateTracks(v: View, objs: Table, p: Path, f: nat, state: map<Name, Variant>, show: bool, exact: bool, w: View)
    requires Tracks(v, objs, show, exact) && p in objs && f < |objs[p].ifaces| && UniqueNames(objs[p].ifaces)
    requires var i := objs[p].ifaces[f]; var k := Key(p, i.decl.name);
             w == if k in v then v[k := PropsOf(show, i.(state := state))] else v
    ensures Tracks(w, objs[p := Restated(objs[p], f, state)], show, exact)
  {
    var t := objs[p := Restated(objs[p], f, state)];
    forall k ensures k in w ==> Exported(t, k) && w[k] == PropsAt(t, show, k) {
      RestatedExports(objs, p, f, state, show, k);
    }
    forall k ensures exact && Exported(t, k) ==> k in w {
      RestatedExports(objs, p, f, state, show, k);
    }
  }

  // ---------------------------------------------------------------------
  // Operations with everything announced

  ghost predicate Paid(n: Node) {
    n.added == [] && n.removed == []
  }

  /** The manager is attached and nothing is owed. */
  ghost predicate Announced(s: Server) {
    s.attached && forall p :: p in s.objects ==> Paid(s.objects[p])
  }

  /** The messages sent from `s` to `r` take the view along. */
  ghost predicate Carries(s: Server, r: Server, v: View, exact: bool) {
    && s.out <= r.out && SameFlags(s, r)
    && Tracks(Drain(v, r.out[|s.out|..]), r.objects, s.showExperimental, exact)
  }

  lemma CarriesTransitive(s: Server, m: Server, r: Server, v: View, exact: bool)
    requires Carries(s, m, v, exact) && Carries(m, r, Drain(v, m.out[|s.out|..]), exact)
    ensures Carries(s, r, v, exact)
  {
    assert r.out[|s.out|..] == m.out[|s.out|..] + r.out[|m.out|..];
    DrainConcat(v, m.out[|s.out|..], r.out[|m.out|..]);
  }

  lemma CarriesSilently(s: Server, r: Server, v: View, exact: bool)
    requires r.out == s.out && SameFlags(s, r) && Tracks(v, r.objects, s.showExperimental, exact)
    ensures Carries(s, r, v, exact)
  {
    assert r.out[|s.out|..] == [];
  }

  lemma CarriesMessage(s: Server, r: Server, v: View, exact: bool, m: Message)
    requires r.out == s.out + [m] && SameFlags(s, r) && Tracks(Apply(v, m), r.objects, s.showExperimental, exact)
    ensures Carries(s, r, v, exact)
  {
    assert r.out[|s.out|..] == [m];
    OneMessage(v, m);
  }

  lemma UnpublishedLast(ifaces: seq<Iface>, i: Iface)
    requires !Has(ifaces, i.decl.name)
    ensures Unpublished(ifaces + [i], [i.decl.name]) == [i]
  {
    FindAppended(ifaces, i, i.decl.name);
    var names := [i.decl.name];
    assert Unpublished(ifaces + [i], names[1..]) == [];
  }

  /** A parent that owes nothing, if there is one. */
  ghost predicate ParentPaid(s: Server, p: Path)
    requires p in s.objects
  {
    var up := s.objects[p].links.parent;
    up.Some? && up.value in s.objects ==> s.objects[up.value].added == []
  }

  lemma EmitOne(s: Server, p: Path, n: Node, i: Iface)
    requires p in s.objects && s.attached && p != [] && ParentPaid(s, p) && s.objects[p].links.parent != Some(p)
    requires n.links == s.objects[p].links && !n.pendingProp && n.removed == []
    requires n.added == [i.decl.name] && Unpublished(n.ifaces, n.added) == [i]
    ensures AddPending(s, p, n)
            == s.(objects := s.objects[p := n.(added := [])],
                  out := s.out + [InterfacesAdded(p, [IfaceEntry(s.showExperimental, i)])])
  {
    var s1 := s.(objects := s.objects[p := n]);
    var es := IfaceEntries(s.showExperimental, [i]);
    assert es == [IfaceEntry(s.showExperimental, i)];
    assert EmitAdded(s1, p) == s1.(objects := s1.objects[p := n.(added := [])], out := s1.out + [InterfacesAdded(p, es)]);
    UpdateTwice(s.objects, p, n, n.(added := []));
  }

  /** Registering one interface of an object below "/" sends one announcement, of just that interface. */
  lemma AddExact(s: Server, p: Path, d: Decl, state: map<Name, Variant>)
    requires p in s.objects && Announced(s) && p != [] && s.objects[p].links.parent.Some? && s.objects[p].links.parent != Some(p)
    requires !s.objects[p].pendingProp && !Has(s.objects[p].ifaces, d.name) && SomethingVisible(s.showExperimental, d)
    ensures var i := Iface(d, [], state);
            AddInterface(s, p, d, state).server
            == s.(objects := s.objects[p := WithIface(s.objects[p], d, state)],
                  out := s.out + [InterfacesAdded(p, [IfaceEntry(s.showExperimental, i)])])
  {
    var n := s.objects[p];
    assert Paid(n);
    var up := n.links.parent.value;
    assert up in s.objects ==> Paid(s.objects[up]);
    var i := Iface(d, [], state);
    var n1 := WithIface(n, d, state);
    UnpublishedLast(n.ifaces, i);
    assert n1.added + [d.name] == [d.name];
    EmitOne(s, p, n1.(added := n1.added + [d.name]), i);
    assert n1.(added := n1.added + [d.name]).(added := []) == n1;
  }

  lemma AddCarries(s: Server, p: Path, d: Decl, state: map<Name, Variant>, v: View, exact: bool)
    requires p in s.objects && Announced(s) && p != [] && s.objects[p].links.parent.Some? && s.objects[p].links.parent != Some(p)
    requires !s.objects[p].pendingProp && !Has(s.objects[p].ifaces, d.name) && SomethingVisible(s.showExperimental, d)
    requires Tracks(v, s.objects, s.showExperimental, exact)
    ensures var r := AddInterface(s, p, d, state).server;
            Announced(r) && Carries(s, r, v, exact) && r.objects == s.objects[p := WithIface(s.objects[p], d, state)]
  {
    AddExact(s, p, d, state);
    var i := Iface(d, [], state);
    var e := IfaceEntry(s.showExperimental, i);
    AddTracks(v, s.objects, p, i, s.showExperimental, exact);
    OneIface(v, p, e);
    CarriesMessage(s, AddInterface(s, p, d, state).server, v, exact, InterfacesAdded(p, [e]));
    assert Paid(s.objects[p]);
  }

  lemma AddAtRoot(s: Server, d: Decl, state: map<Name, Variant>, v: View, exact: bool)
    requires [] in s.objects && Announced(s) && s.objects[[]].links.parent.None? && SomethingVisible(s.showExperimental, d)
    requires Tracks(v, s.objects, s.showExperimental, exact)
    ensures var r := AddInterface(s, [], d, state).server;
            Announced(r) && Carries(s, r, v, exact) && r.objects == s.objects[[] := WithIface(s.objects[[]], d, state)]
  {
    var n := WithIface(s.objects[[]], d, state);
    assert Paid(s.objects[[]]);
    RootTracks(v, s.objects, n, s.showExperimental, exact);
    CarriesSilently(s, AddInterface(s, [], d, state).server, v, exact);
  }

  /** Unregistering one interface of an object below "/" sends one message, naming just that interface. */
  lemma RemoveExact(s: Server, p: Path, name: Name)
    requires p in s.objects && s.attached && Paid(s.objects[p]) && p != [] && s.objects[p].links.parent.Some?
    requires Quiet(s.objects[p]) && Has(s.objects[p].ifaces, name)
    ensures var n := s.objects[p];
            RemoveInterface(s, p, name).server
            == s.(objects := s.objects[p := n.(ifaces := Without(n.ifaces, Find(n.ifaces, name)))],
                  out := s.out + [InterfacesRemoved(p, [name])])
  {
    var n := s.objects[p];
    var n1 := n.(ifaces := Without(n.ifaces, Find(n.ifaces, name)));
    assert s.out + [] == s.out;
    assert [name] + n1.removed == [name];
    SendGone(s, p, n1.(removed := [name]), name);
    assert n1.(removed := [name]).(removed := []) == n1;
  }

  lemma SendGone(s: Server, p: Path, n: Node, name: Name)
    requires p in s.objects && s.attached && p != []
    requires n.added == [] && n.removed == [name] && !n.pendingProp
    ensures AddPending(s, p, n)
            == s.(objects := s.objects[p := n.(removed := [])], out := s.out + [InterfacesRemoved(p, [name])])
  {
    UpdateTwice(s.objects, p, n, n.(removed := []));
  }

  lemma RemoveCarries(s: Server, p: Path, name: Name, v: View, exact: bool)
    requires p in s.objects && Announced(s) && p != [] && s.objects[p].links.parent.Some?
    requires Quiet(s.objects[p]) && Has(s.objects[p].ifaces, name) && UniqueNames(s.objects[p].ifaces)
    requires Tracks(v, s.objects, s.showExperimental, exact)
    ensures var r := RemoveInterface(s, p, name).server; var n := s.objects[p];
            && Announced(r) && Carries(s, r, v, exact)
            && r.objects == s.objects[p := n.(ifaces := Without(n.ifaces, Find(n.ifaces, name)))]
  {
    RemoveExact(s, p, name);
    RemoveTracks(v, s.objects, p, name, s.showExperimental, exact);
    CarriesMessage(s, RemoveInterface(s, p, name).server, v, exact, InterfacesRemoved(p, [name]));
    assert Paid(s.objects[p]);
  }

  lemma RemoveAtRoot(s: Server, name: Name, v: View, exact: bool)
    requires [] in s.objects && Announced(s) && s.objects[[]].links.parent.None?
    requires Quiet(s.objects[[]]) && Has(s.objects[[]].ifaces, name)
    requires Tracks(v, s.objects, s.showExperimental, exact)
    ensures var r := RemoveInterface(s, [], name).server; var n := s.objects[[]];
            && Announced(r) && Carries(s, r, v, exact)
            && r.objects == s.objects[[] := n.(ifaces := Without(n.ifaces, Find(n.ifaces, name)))]
  {
    var n := s.objects[[]];
    assert Paid(n);
    assert s.out + [] == s.out;
    RootTracks(v, s.objects, n.(ifaces := Without(n.ifaces, Find(n.ifaces, name))), s.showExperimental, exact);
    CarriesSilently(s, RemoveInterface(s, [], name).server, v, exact);
  }

  // ---------------------------------------------------------------------
  // Registering

  lemma RootAndParents(objs: Table, p: Path)
    requires Tree(objs) && [] in objs && p in objs
    ensures p == [] ==> objs[p].links.parent.None?
    ensures p != [] ==> objs[p].links.parent.Some? && objs[p].links.parent != Some(p)
  {
    assert TreeLinks(objs.Keys, p, objs[p].links);
    if p != [] { AboveIsNearest(objs.Keys, p, []); }
  }

  lemma SilentStore(s: Server, p: Path, n: Node, v: View, exact: bool)
    requires p in s.objects && Announced(s) && Tracks(v, s.objects, s.showExperimental, exact)
    requires n.ifaces == s.objects[p].ifaces && Paid(n)
    ensures var r := s.(objects := s.objects[p := n]); Announced(r) && Carries(s, r, v, exact)
  {
    var r := s.(objects := s.objects[p := n]);
    TracksIfaces(v, s.objects, r.objects, s.showExperimental, exact);
    CarriesSilently(s, r, v, exact);
  }

  lemma AddEither(s: Server, p: Path, d: Decl, state: map<Name, Variant>, v: View, exact: bool)
    requires p in s.objects && Announced(s) && Tree(s.objects) && [] in s.objects
    requires !s.objects[p].pendingProp && !Has(s.objects[p].ifaces, d.name) && SomethingVisible(s.showExperimental, d)
    requires Tracks(v, s.objects, s.showExperimental, exact)
    ensures var r := AddInterface(s, p, d, state).server;
            && Announced(r) && Carries(s, r, v, exact) && Tree(r.objects)
            && r.objects == s.objects[p := WithIface(s.objects[p], d, state)]
  {
    RootAndParents(s.objects, p);
    if p == [] { AddAtRoot(s, d, state, v, exact); } else { AddCarries(s, p, d, state, v, exact); }
    IfaceTree(s.objects, p, d, state, AddInterface(s, p, d, state).server.objects);
  }

  lemma IfaceTree(objs: Table, p: Path, d: Decl, state: map<Name, Variant>, r: Table)
    requires Tree(objs) && p in objs && r == objs[p := WithIface(objs[p], d, state)]
    ensures Tree(r)
  {
    TreeOfLinks(objs, r);
  }

  lemma PropertiesCarries(s: Server, p: Path, d: Decl, v: View, exact: bool)
    requires p in s.objects && Announced(s) && Tree(s.objects) && [] in s.objects && !s.objects[p].pendingProp
    requires Tracks(v, s.objects, s.showExperimental, exact)
    ensures var r := ClearCache(AddPropertiesInterface(s, p, d), p); Announced(r) && Carries(s, r, v, exact)
  {
    var a := AddPropertiesInterface(s, p, d);
    if d.properties.Some? && !Has(s.objects[p].ifaces, PROPERTIES) {
      assert !Hidden(s.showExperimental, PROPERTIES_DECL.methods[0].experimental);
      AddEither(s, p, PROPERTIES_DECL, map[], v, exact);
    } else {
      CarriesSilently(s, s, v, exact);
    }
    assert Paid(a.objects[p]);
    SilentStore(a, p, a.objects[p].(cache := Empty), Drain(v, a.out[|s.out|..]), exact);
    CarriesTransitive(s, a, ClearCache(a, p), v, exact);
  }

  lemma RegisterOnCarries(s: Server, p: Path, d: Decl, state: map<Name, Variant>, v: View, exact: bool)
    requires p in s.objects && Announced(s) && Tree(s.objects) && [] in s.objects && !s.objects[p].pendingProp
    requires Accepts(s.showExperimental, s.objects[p], d) && Tracks(v, s.objects, s.showExperimental, exact)
    ensures var r := RegisterOn(s, p, d, state).server; Announced(r) && Carries(s, r, v, exact)
  {
    AddEither(s, p, d, state, v, exact);
    var a := AddInterface(s, p, d, state).server;
    PropertiesCarries(a, p, d, Drain(v, a.out[|s.out|..]), exact);
    CarriesTransitive(s, a, ClearCache(AddPropertiesInterface(a, p, d), p), v, exact);
  }

  lemma AcceptCarries(s: Server, s1: Server, p: Path, d: Decl, state: map<Name, Variant>, v: View, exact: bool)
    requires p in s.objects && Announced(s) && Tree(s.objects) && [] in s.objects && !s.objects[p].pendingProp
    requires s1 == s.(objects := s.objects[p := s.objects[p].(refcount := s.objects[p].refcount + 1)])
    requires Accepts(s.showExperimental, s.objects[p], d) && Tracks(v, s.objects, s.showExperimental, exact)
    ensures var r := RegisterOn(s1, p, d, state).server; Announced(r) && Carries(s, r, v, exact)
  {
    assert Paid(s.objects[p]);
    SilentStore(s, p, s1.objects[p], v, exact);
    TreeOfLinks(s.objects, s1.objects);
    RegisterOnCarries(s1, p, d, state, Drain(v, s1.out[|s.out|..]), exact);
    CarriesTransitive(s, s1, RegisterOn(s1, p, d, state).server, v, exact);
  }

  /** A server in the middle of an orderly run that began by attaching the manager. */
  ghost predicate Exporting(s: Server) {
    Sound(s) && Tree(s.objects) && Announced(s)
  }

  lemma RegisterExistingCarries(s: Server, p: Path, d: Decl, state: map<Name, Variant>, v: View, exact: bool)
    requires Exporting(s) && p in s.objects && ValidPath(p) && ValidInterface(d.name)
    requires Tracks(v, s.objects, s.showExperimental, exact)
    ensures var r := Register(s, p, d, state).server; Announced(r) && Carries(s, r, v, exact)
  {
    assert Counted(s.objects[p]) && Quiet(s.objects[p]);
    if Accepts(s.showExperimental, s.objects[p], d) {
      RegisterUnfolds(s, p, d, state);
      AcceptReferencedCarries(s, p, d, state, v, exact);
    } else {
      RegisterRefused(s, p, d, state);
      CarriesSilently(s, s, v, exact);
    }
  }

  lemma AcceptReferencedCarries(s: Server, p: Path, d: Decl, state: map<Name, Variant>, v: View, exact: bool)
    requires p in s.objects && Announced(s) && Tree(s.objects) && [] in s.objects && !s.objects[p].pendingProp
    requires Accepts(s.showExperimental, s.objects[p], d) && Tracks(v, s.objects, s.showExperimental, exact)
    ensures var r := RegisterOn(Referenced(s, p), p, d, state).server; Announced(r) && Carries(s, r, v, exact)
  {
    AcceptCarries(s, Referenced(s, p), p, d, state, v, exact);
  }

  lemma InsertedCarries(s: Server, p: Path, s0: Server, v: View, exact: bool)
    requires Exporting(s) && p !in s.objects && s0 == s.(objects := Inserted(s.objects, p))
    requires Tracks(v, s.objects, s.showExperimental, exact) && forall q :: q in s.objects ==> !(p < q)
    ensures Announced(s0) && Carries(s, s0, v, exact) && Tree(s0.objects) && [] in s0.objects
    ensures s0.objects[p].ifaces == [] && !s0.objects[p].pendingProp && s0.objects[p].refcount == 1
  {
    InsertKeepsTree(s.objects, p);
    InsertedCalm(s.objects, p);
    var base := s.objects[p := FRESH_NODE];
    forall q | q in s0.objects ensures SameBody(base[q], s0.objects[q]) && Paid(s0.objects[q]) {
      assert SameBody(base[q], s0.objects[q]);
      assert q != p ==> Paid(s.objects[q]);
    }
    TracksIfaces(v, s.objects, s0.objects, s.showExperimental, exact);
    CarriesSilently(s, s0, v, exact);
  }

  lemma FreshCarries(s: Server, p: Path, v: View, exact: bool)
    requires Exporting(s) && p !in s.objects && Tracks(v, s.objects, s.showExperimental, exact)
    requires forall q :: q in s.objects ==> !(p < q)
    ensures var r := PathRef(s, p);
            && Announced(r) && Carries(s, r, v, exact) && Tree(r.objects) && [] in r.objects
            && r.objects[p].ifaces == [Iface(INTROSPECTABLE_DECL, [], map[])]
            && !r.objects[p].pendingProp && r.objects[p].refcount == 1
  {
    var s0 := s.(objects := Inserted(s.objects, p));
    InsertedCarries(s, p, s0, v, exact);
    FreshIface(s, p, s0, PathRef(s, p), v, exact);
  }

  lemma FreshIface(s: Server, p: Path, s0: Server, r: Server, v: View, exact: bool)
    requires Announced(s0) && Carries(s, s0, v, exact) && Tree(s0.objects) && [] in s0.objects && p in s0.objects
    requires s0.objects[p].ifaces == [] && !s0.objects[p].pendingProp && s0.objects[p].refcount == 1
    requires r == AddInterface(s0, p, INTROSPECTABLE_DECL, map[]).server
    ensures Announced(r) && Carries(s, r, v, exact) && Tree(r.objects) && [] in r.objects && p in r.objects
    ensures r.objects[p].ifaces == [Iface(INTROSPECTABLE_DECL, [], map[])] && !r.objects[p].pendingProp && r.objects[p].refcount == 1
  {
    assert !Hidden(s0.showExperimental, INTROSPECTABLE_DECL.methods[0].experimental);
    AddEither(s0, p, INTROSPECTABLE_DECL, map[], Drain(v, s0.out[|s.out|..]), exact);
    CarriesTransitive(s, s0, r, v, exact);
  }

  // ---------------------------------------------------------------------
  // Unregistering

  lemma DropCarries(s: Server, p: Path, v: View, exact: bool)
    requires p in s.objects && Announced(s) && NothingOn(s.objects[p]) && Tracks(v, s.objects, s.showExperimental, exact)
    ensures var r := s.(objects := Removed(s.objects, p)); Announced(r) && Carries(s, r, v, exact)
  {
    var r := s.(objects := Removed(s.objects, p));
    forall q | q in r.objects ensures SameBody(s.objects[q], r.objects[q]) && Paid(r.objects[q]) {
      RemovedBody(s.objects, p, q);
      assert Paid(s.objects[q]);
    }
    TracksIfaces(v, s.objects, r.objects, s.showExperimental, exact);
    CarriesSilently(s, r, v, exact);
  }

  /** An object about to go: below "/", calm, with distinct interface names and nothing exported. */
  ghost predicate Leaving(s: Server, p: Path) {
    && p in s.objects && p != [] && s.objects[p].links.parent.Some? && Announced(s)
    && Quiet(s.objects[p]) && UniqueNames(s.objects[p].ifaces) && NothingOn(s.objects[p])
  }

  lemma BuiltinGone(s: Server, p: Path, name: Name, v: View, exact: bool)
    requires Leaving(s, p) && Tracks(v, s.objects, s.showExperimental, exact)
    ensures var r := RemoveInterface(s, p, name).server; Leaving(r, p) && Carries(s, r, v, exact)
  {
    var n := s.objects[p];
    if Has(n.ifaces, name) {
      RemoveCarries(s, p, name, v, exact);
      WithoutUnique(n.ifaces, Find(n.ifaces, name));
    } else {
      CarriesSilently(s, s, v, exact);
    }
  }

  lemma LastUnrefCarries(s: Server, p: Path, v: View, exact: bool)
    requires Leaving(s, p) && s.objects[p].refcount == 1 && Tracks(v, s.objects, s.showExperimental, exact)
    ensures var r := PathUnref(s, p); Announced(r) && Carries(s, r, v, exact)
  {
    var s1 := s.(objects := s.objects[p := s.objects[p].(refcount := 0)]);
    assert Paid(s.objects[p]);
    SilentStore(s, p, s1.objects[p], v, exact);
    var v1 := Drain(v, s1.out[|s.out|..]);
    BuiltinGone(s1, p, INTROSPECTABLE, v1, exact);
    var s2 := RemoveInterface(s1, p, INTROSPECTABLE).server;
    CarriesTransitive(s, s1, s2, v, exact);
    BuiltinGone(s2, p, PROPERTIES, Drain(v, s2.out[|s.out|..]), exact);
    var s3 := RemoveInterface(s2, p, PROPERTIES).server;
    CarriesTransitive(s, s2, s3, v, exact);
    DropCarries(s3, p, Drain(v, s3.out[|s.out|..]), exact);
    CarriesTransitive(s, s3, PathUnref(s, p), v, exact);
  }

  lemma RegisterNewCarries(s: Server, p: Path, d: Decl, state: map<Name, Variant>, v: View, exact: bool)
    requires Exporting(s) && p !in s.objects && ValidPath(p) && ValidInterface(d.name)
    requires Tracks(v, s.objects, s.showExperimental, exact) && forall q :: q in s.objects ==> !(p < q)
    ensures var r := Register(s, p, d, state).server; Announced(r) && Carries(s, r, v, exact)
  {
    FreshCarries(s, p, v, exact);
    RegisterFreshCarries(s, PathRef(s, p), p, d, state, v, exact);
  }

  lemma RegisterFreshCarries(s: Server, s1: Server, p: Path, d: Decl, state: map<Name, Variant>, v: View, exact: bool)
    requires Carries(s, s1, v, exact) && Announced(s1) && Tree(s1.objects) && [] in s1.objects && p in s1.objects && p != []
    requires s1.objects[p].ifaces == [Iface(INTROSPECTABLE_DECL, [], map[])]
    requires !s1.objects[p].pendingProp && s1.objects[p].refcount == 1
    ensures var r := RegisterOn(s1, p, d, state).server; Announced(r) && Carries(s, r, v, exact)
  {
    var v1 := Drain(v, s1.out[|s.out|..]);
    if Accepts(s1.showExperimental, s1.objects[p], d) {
      RegisterOnCarries(s1, p, d, state, v1, exact);
    } else {
      RefusedFreshCarries(s1, p, d, state, v1, exact);
    }
    CarriesTransitive(s, s1, RegisterOn(s1, p, d, state).server, v, exact);
  }

  lemma RefusedFreshCarries(s: Server, p: Path, d: Decl, state: map<Name, Variant>, v: View, exact: bool)
    requires Announced(s) && Tree(s.objects) && [] in s.objects && p in s.objects && p != []
    requires s.objects[p].ifaces == [Iface(INTROSPECTABLE_DECL, [], map[])] && !s.objects[p].pendingProp && s.objects[p].refcount == 1
    requires Tracks(v, s.objects, s.showExperimental, exact) && !Accepts(s.showExperimental, s.objects[p], d)
    ensures var r := RegisterOn(s, p, d, state).server; Announced(r) && Carries(s, r, v, exact)
  {
    RegisterOnRefused(s, p, d, state);
    RootAndParents(s.objects, p);
    LastUnrefCarries(s, p, v, exact);
  }

  lemma {:induction false} NoUsersLeft(ifaces: seq<Iface>)
    requires UserCount(ifaces) == 0
    ensures forall i :: 0 <= i < |ifaces| ==> Builtin(ifaces[i].decl.name)
  {
    if ifaces != [] {
      NoUsersLeft(ifaces[1..]);
      forall i | 0 < i < |ifaces| ensures Builtin(ifaces[i].decl.name) { assert ifaces[i] == ifaces[1..][i - 1]; }
    }
  }

  lemma RemoveEither(s: Server, p: Path, name: Name, v: View, exact: bool)
    requires Exporting(s) && p in s.objects && Has(s.objects[p].ifaces, name)
    requires Tracks(v, s.objects, s.showExperimental, exact)
    ensures var r := RemoveInterface(s, p, name).server; var n := s.objects[p];
            && Announced(r) && Carries(s, r, v, exact)
            && r.objects == s.objects[p := n.(ifaces := Without(n.ifaces, Find(n.ifaces, name)))]
  {
    assert Counted(s.objects[p]) && Quiet(s.objects[p]);
    RootAndParents(s.objects, p);
    if p == [] { RemoveAtRoot(s, name, v, exact); } else { RemoveCarries(s, p, name, v, exact); }
  }

  lemma UnregisterOneCarries(s: Server, p: Path, name: Name, v: View, exact: bool)
    requires Exporting(s) && p in s.objects && Has(s.objects[p].ifaces, name) && s.objects[p].refcount > 1
    requires Tracks(v, s.objects, s.showExperimental, exact)
    ensures var r := Unregister(s, p, name).server; Announced(r) && Carries(s, r, v, exact)
  {
    RemoveEither(s, p, name, v, exact);
    UnregisterUnfolds(s, p, name);
    ReleaseCarries(s, RemoveInterface(s, p, name).server, p, v, exact);
  }

  lemma ReleaseCarries(s: Server, a: Server, p: Path, v: View, exact: bool)
    requires Carries(s, a, v, exact) && Announced(a) && p in a.objects && a.objects[p].refcount > 1
    ensures var r := PathUnref(ClearCache(a, p), p); Announced(r) && Carries(s, r, v, exact)
  {
    var w := Drain(v, a.out[|s.out|..]);
    var n := a.objects[p];
    assert Paid(n);
    UnrefShared(ClearCache(a, p), p);
    var m := n.(cache := Empty, refcount := n.refcount - 1);
    UpdateTwice(a.objects, p, n.(cache := Empty), m);
    SilentStore(a, p, m, w, exact);
    CarriesTransitive(s, a, PathUnref(ClearCache(a, p), p), v, exact);
  }

  lemma UnregisterLastCarries(s: Server, p: Path, name: Name, v: View, exact: bool)
    requires Exporting(s) && p in s.objects && Has(s.objects[p].ifaces, name) && s.objects[p].refcount == 1
    requires !Reserved(p, name) && Tracks(v, s.objects, s.showExperimental, exact)
    ensures var r := Unregister(s, p, name).server; Announced(r) && Carries(s, r, v, exact)
  {
    RemoveEither(s, p, name, v, exact);
    UnregisterUnfolds(s, p, name);
    LastLeaves(s, p, name, RemoveInterface(s, p, name).server);
    LastReleaseCarries(s, RemoveInterface(s, p, name).server, p, v, exact);
  }

  lemma LastLeaves(s: Server, p: Path, name: Name, a: Server)
    requires Exporting(s) && p in s.objects && Has(s.objects[p].ifaces, name) && s.objects[p].refcount == 1 && !Reserved(p, name)
    requires Announced(a) && a.objects == s.objects[p := s.objects[p].(ifaces := Without(s.objects[p].ifaces, Find(s.objects[p].ifaces, name)))]
    ensures Leaving(a, p)
  {
    var n := s.objects[p];
    assert Counted(n) && Quiet(n);
    if p == [] { OnlyUser(n.ifaces, name, OBJECT_MANAGER); }
    RootAndParents(s.objects, p);
    var k := Find(n.ifaces, name);
    UserCountWithout(n.ifaces, k);
    NoUsersLeft(Without(n.ifaces, k));
    WithoutUnique(n.ifaces, k);
  }

  lemma LastReleaseCarries(s: Server, a: Server, p: Path, v: View, exact: bool)
    requires Carries(s, a, v, exact) && Leaving(a, p) && a.objects[p].refcount == 1
    ensures var r := PathUnref(ClearCache(a, p), p); Announced(r) && Carries(s, r, v, exact)
  {
    assert Paid(a.objects[p]);
    var b := ClearCache(a, p);
    SilentStore(a, p, b.objects[p], Drain(v, a.out[|s.out|..]), exact);
    CarriesTransitive(s, a, b, v, exact);
    LastUnrefCarries(b, p, Drain(v, b.out[|s.out|..]), exact);
    CarriesTransitive(s, b, PathUnref(b, p), v, exact);
  }

  lemma UnregisterCarries(s: Server, p: Path, name: Name, v: View, exact: bool)
    requires Exporting(s) && !Reserved(p, name) && Tracks(v, s.objects, s.showExperimental, exact)
    ensures var r := Unregister(s, p, name).server; Announced(r) && Carries(s, r, v, exact)
  {
    if p !in s.objects || !Has(s.objects[p].ifaces, name) {
      UnregisterRefused(s, p, name);
      CarriesSilently(s, s, v, exact);
    } else {
      assert Counted(s.objects[p]);
      if s.objects[p].refcount > 1 {
        UnregisterOneCarries(s, p, name, v, exact);
      } else {
        UnregisterLastCarries(s, p, name, v, exact);
      }
    }
  }

  // ---------------------------------------------------------------------
  // Property changes

  lemma {:induction false} OnePending(p: Path, ifaces: seq<Iface>, k: nat)
    requires k < |ifaces| && forall i :: 0 <= i < |ifaces| && i != k ==> ifaces[i].pending == []
    ensures ChangeMessages(p, ifaces) == ChangeMessage(p, ifaces[k])
  {
    var rest := ifaces[1..];
    if k > 0 {
      assert forall i :: 0 <= i < |rest| && i != k - 1 ==> rest[i].pending == [];
      OnePending(p, rest, k - 1);
      assert ChangeMessage(p, ifaces[0]) == [];
      Alone(ChangeMessage(p, ifaces[k]));
    } else {
      NonePending(p, rest);
      Alone(ChangeMessage(p, ifaces[0]));
    }
  }

  lemma Alone(ms: seq<Message>)
    ensures ms + [] == ms && [] + ms == ms
  {
  }

  lemma {:induction false} NonePending(p: Path, ifaces: seq<Iface>)
    requires forall i :: 0 <= i < |ifaces| ==> ifaces[i].pending == []
    ensures ChangeMessages(p, ifaces) == []
  {
    if ifaces != [] { NonePending(p, ifaces[1..]); }
  }

  /** The one message about a property of an announced interface. */
  function PropertyMessage(p: Path, i: Iface, found: Property): Message {
    PropertiesChanged(p, i.decl.name, ChangedEntries([found], i.state), GoneNames([found], i.state))
  }

  lemma SendChange(s: Server, p: Path, k: nat, found: Property, flush: bool)
    requires p in s.objects && Paid(s.objects[p]) && Quiet(s.objects[p]) && k < |s.objects[p].ifaces|
    ensures var n := s.objects[p]; var q := Queued(n, k, found);
            (if flush then FlushProperties(s.(objects := s.objects[p := q]), p) else AddPending(s, p, q))
            == s.(out := s.out + [PropertyMessage(p, n.ifaces[k], found)])
  {
    var n := s.objects[p];
    var q := Queued(n, k, found);
    var i := q.ifaces[k];
    assert i.pending == [found];
    OnePending(p, q.ifaces, k);
    ReverseOne(found);
    assert ChangeMessage(p, i) == [PropertyMessage(p, n.ifaces[k], found)];
    assert Quieted(q.ifaces) == n.ifaces;
    assert q.(pendingProp := false, ifaces := n.ifaces) == n;
    UpdateTwice(s.objects, p, q, n);
    assert s.objects[p := n] == s.objects;
  }

  lemma ReverseOne(found: Property)
    ensures Reverse([found]) == [found]
  {
    var ps := [found];
    assert ps[1..] == [];
  }

  lemma ChangeExact(s: Server, p: Path, iface: Name, name: Name, flush: bool)
    requires Announced(s) && Calm(s.objects) && p in s.objects && Has(s.objects[p].ifaces, iface)
    ensures var i := s.objects[p].ifaces[Find(s.objects[p].ifaces, iface)];
            var found := FindProperty(s.showExperimental, Properties(i.decl), name);
            EmitChanged(s, p, iface, name, flush)
            == if found.None? then s else s.(out := s.out + [PropertyMessage(p, i, found.value)])
  {
    var n := s.objects[p];
    assert Paid(n) && Quiet(n);
    var k := Find(n.ifaces, iface);
    var found := FindProperty(s.showExperimental, Properties(n.ifaces[k].decl), name);
    if found.Some? {
      SendChange(s, p, k, found.value, flush);
    }
  }

  /** A change of a property that the table offers and that a search by its name does not find. */
  predicate Untold(s: Server, p: Path, iface: Name, name: Name, value: Option<Variant>) {
    Exported(s.objects, Key(p, iface)) &&
    var i := s.objects[p].ifaces[Find(s.objects[p].ifaces, iface)];
    var props := Properties(i.decl);
    Offered(s.showExperimental, props, name) && !Shown(s.showExperimental, props, name) && value != Current(i.state, name)
  }

  /** A change carries a view along exactly when it is told or the view does not know the interface. */
  lemma ChangeCarriesIff(s: Server, p: Path, iface: Name, name: Name, value: Option<Variant>, flush: bool, v: View, exact: bool)
    requires Exporting(s) && Tracks(v, s.objects, s.showExperimental, exact)
    ensures var r := ChangeProperty(s, p, iface, name, value, flush);
            && Announced(r) && s.out <= r.out && SameFlags(s, r)
            && (Carries(s, r, v, exact) <==> !(Untold(s, p, iface, name, value) && Key(p, iface) in v))
  {
    if p in s.objects && Has(s.objects[p].ifaces, iface) {
      var n := s.objects[p];
      assert Counted(n) && Quiet(n) && Paid(n);
      ChangeKnown(s, p, iface, name, value, flush, n, Find(n.ifaces, iface));
      KnownCarriesIff(s, p, iface, name, value, v, exact, Find(n.ifaces, iface), ChangeProperty(s, p, iface, name, value, flush));
    } else {
      CarriesSilently(s, s, v, exact);
    }
  }

  /** What is sent about a change of a known interface, and the new state. */
  ghost predicate Changed(s: Server, p: Path, f: nat, name: Name, value: Option<Variant>, r: Server)
    requires p in s.objects && f < |s.objects[p].ifaces|
  {
    var n := s.objects[p];
    var state := SetState(n.ifaces[f].state, name, value);
    var found := FindProperty(s.showExperimental, Properties(n.ifaces[f].decl), name);
    r == s.(objects := s.objects[p := Restated(n, f, state)],
            out := if found.None? then s.out else s.out + [PropertyMessage(p, n.ifaces[f].(state := state), found.value)])
  }

  lemma ChangeKnown(s: Server, p: Path, iface: Name, name: Name, value: Option<Variant>, flush: bool, n: Node, f: nat)
    requires Announced(s) && Calm(s.objects) && p in s.objects && n == s.objects[p] && Paid(n) && Quiet(n)
    requires Has(n.ifaces, iface) && f == Find(n.ifaces, iface)
    ensures Changed(s, p, f, name, value, ChangeProperty(s, p, iface, name, value, flush))
    ensures Announced(ChangeProperty(s, p, iface, name, value, flush))
  {
    var m := WithState(n, f, name, value);
    assert m == Restated(n, f, SetState(n.ifaces[f].state, name, value));
    assert Quiet(m) && Paid(m);
    SameNamesSameFinds(n.ifaces, m.ifaces, iface);
    ChangeExact(s.(objects := s.objects[p := m]), p, iface, name, flush);
  }

  lemma KnownCarriesIff(s: Server, p: Path, iface: Name, name: Name, value: Option<Variant>, v: View, exact: bool, f: nat, r: Server)
    requires Tracks(v, s.objects, s.showExperimental, exact) && p in s.objects && UniqueNames(s.objects[p].ifaces)
    requires Has(s.objects[p].ifaces, iface) && f == Find(s.objects[p].ifaces, iface) && Changed(s, p, f, name, value, r)
    ensures Carries(s, r, v, exact) <==> !(Untold(s, p, iface, name, value) && Key(p, iface) in v)
  {
    var i := s.objects[p].ifaces[f];
    ChangedTracks(s, p, f, name, value, v, exact, r);
    ToldIff(s.showExperimental, Properties(i.decl), i.state, name, value);
  }

  /** What a view becomes by the message about a change, if there is one. */
  function ToldView(v: View, k: Key, found: Option<Property>, state: map<Name, Variant>): View {
    if found.None? then v else ApplyChanged(v, k, ChangedEntries([found.value], state), GoneNames([found.value], state))
  }

  lemma ChangedTracks(s: Server, p: Path, f: nat, name: Name, value: Option<Variant>, v: View, exact: bool, r: Server)
    requires p in s.objects && f < |s.objects[p].ifaces| && UniqueNames(s.objects[p].ifaces)
    requires Tracks(v, s.objects, s.showExperimental, exact) && Changed(s, p, f, name, value, r)
    ensures var i := s.objects[p].ifaces[f];
            Carries(s, r, v, exact)
            <==> Key(p, i.decl.name) !in v || Told(s.showExperimental, Properties(i.decl), i.state, name, value)
  {
    var i := s.objects[p].ifaces[f];
    var state, k := SetState(i.state, name, value), Key(p, i.decl.name);
    var found := FindProperty(s.showExperimental, Properties(i.decl), name);
    ToldDrain(v, s.out, r.out, k, found, i.(state := state), p);
    ToldTracks(v, s.objects, p, f, name, value, s.showExperimental, exact);
  }

  lemma ToldDrain(v: View, out: seq<Message>, out': seq<Message>, k: Key, found: Option<Property>, i: Iface, p: Path)
    requires k == Key(p, i.decl.name)
    requires out' == if found.None? then out else out + [PropertyMessage(p, i, found.value)]
    ensures out <= out' && Drain(v, out'[|out|..]) == ToldView(v, k, found, i.state)
  {
    if found.None? {
      assert out'[|out|..] == [];
    } else {
      assert out'[|out|..] == [PropertyMessage(p, i, found.value)];
      OneMessage(v, PropertyMessage(p, i, found.value));
    }
  }

  lemma ToldTracks(v: View, objs: Table, p: Path, f: nat, name: Name, value: Option<Variant>, show: bool, exact: bool)
    requires p in objs && f < |objs[p].ifaces| && UniqueNames(objs[p].ifaces) && Tracks(v, objs, show, exact)
    ensures var i := objs[p].ifaces[f]; var k := Key(p, i.decl.name); var state := SetState(i.state, name, value);
            var w := ToldView(v, k, FindProperty(show, Properties(i.decl), name), state);
            Tracks(w, objs[p := Restated(objs[p], f, state)], show, exact)
            <==> k !in v || Told(show, Properties(i.decl), i.state, name, value)
  {
    var i := objs[p].ifaces[f];
    var k, state := Key(p, i.decl.name), SetState(i.state, name, value);
    var w := ToldView(v, k, FindProperty(show, Properties(i.decl), name), state);
    FindAt(objs[p].ifaces, i.decl.name, f);
    ToldViewIff(v, show, i, k, name, value, w);
    WithTracks(v, objs, p, f, state, show, exact, w, k);
  }

  /** A view that changed at most what it knows of one interface tracks the new state exactly if it knows that right. */
  lemma WithTracks(v: View, objs: Table, p: Path, f: nat, state: map<Name, Variant>, show: bool, exact: bool, w: View, k: Key)
    requires Tracks(v, objs, show, exact) && p in objs && f < |objs[p].ifaces| && UniqueNames(objs[p].ifaces)
    requires k == Key(p, objs[p].ifaces[f].decl.name) && if k in v then k in w && w == v[k := w[k]] else w == v
    ensures Tracks(w, objs[p := Restated(objs[p], f, state)], show, exact)
            <==> k !in v || w[k] == PropsOf(show, objs[p].ifaces[f].(state := state))
  {
    if k !in v || w[k] == PropsOf(show, objs[p].ifaces[f].(state := state)) {
      StateTracks(v, objs, p, f, state, show, exact, w);
    } else {
      NotTracked(w, objs, p, f, state, show, exact);
    }
  }

  lemma ToldViewIff(v: View, show: bool, i: Iface, k: Key, name: Name, value: Option<Variant>, w: View)
    requires k in v ==> v[k] == PropsOf(show, i)
    requires w == ToldView(v, k, FindProperty(show, Properties(i.decl), name), SetState(i.state, name, value))
    ensures if k in v then k in w && w == v[k := w[k]] else w == v
    ensures k in v ==>
              (Told(show, Properties(i.decl), i.state, name, value) <==> w[k] == PropsOf(show, i.(state := SetState(i.state, name, value))))
  {
    if k in v && FindProperty(show, Properties(i.decl), name).None? { assert v == v[k := v[k]]; }
  }

  lemma NotTracked(w: View, objs: Table, p: Path, f: nat, state: map<Name, Variant>, show: bool, exact: bool)
    requires p in objs && f < |objs[p].ifaces| && UniqueNames(objs[p].ifaces)
    requires var i := objs[p].ifaces[f]; var k := Key(p, i.decl.name); k in w && w[k] != PropsOf(show, i.(state := state))
    ensures !Tracks(w, objs[p := Restated(objs[p], f, state)], show, exact)
  {
    RestatedExports(objs, p, f, state, show, Key(p, objs[p].ifaces[f].decl.name));
  }
}
