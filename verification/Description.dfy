/** What an introspection text says of an object: its interfaces in order, of each the entries of its tables that are not
    hidden, in order, and the next elements of the registered paths below it.
 */
module Description {
  import opened Bus
  import opened ObjectModel
  import opened Picking

  ghost function MemberNames(ms: seq<Member>): seq<Name> {
    seq(|ms|, i requires 0 <= i < |ms| => ms[i].name)
  }

  ghost function MemberFlags(show: bool, ms: seq<Member>): seq<bool> {
    seq(|ms|, i requires 0 <= i < |ms| => show || !ms[i].experimental)
  }

  ghost function PropertyNames(ps: seq<Property>): seq<Name> {
    seq(|ps|, i requires 0 <= i < |ps| => ps[i].name)
  }

  ghost function PropertyFlags(show: bool, ps: seq<Property>): seq<bool> {
    seq(|ps|, i requires 0 <= i < |ps| => show || !ps[i].experimental)
  }

  ghost predicate DescribesMembers(show: bool, ms: seq<Member>, names: seq<Name>) {
    ListsExactly(names, MemberNames(ms), MemberFlags(show, ms))
  }

  ghost predicate DescribesProperties(show: bool, ps: seq<Property>, names: seq<Name>) {
    ListsExactly(names, PropertyNames(ps), PropertyFlags(show, ps))
  }

  ghost predicate DescribesIface(show: bool, d: Decl, doc: DocIface) {
    && doc.name == d.name && DescribesMembers(show, d.methods, doc.methods) && DescribesMembers(show, d.signals, doc.signals)
    && (if d.properties.None? then doc.properties == [] else DescribesProperties(show, d.properties.value, doc.properties))
  }

  ghost predicate Describes(objs: Table, show: bool, p: Path, doc: Doc)
    requires p in objs
  {
    && |doc.ifaces| == |objs[p].ifaces|
    && (forall i :: 0 <= i < |doc.ifaces| ==> DescribesIface(show, objs[p].ifaces[i].decl, doc.ifaces[i]))
    && (forall e :: e in doc.nodes <==> exists q :: q in objs && p + [e] <= q)
  }

  lemma {:induction false} MembersDescribed(show: bool, ms: seq<Member>)
    ensures DescribesMembers(show, ms, ShownMembers(show, ms))
  {
    if ms == [] {
      NothingListed<Name>();
    } else {
      var rest, shown := ms[1..], show || !ms[0].experimental;
      MembersDescribed(show, rest);
      ListsMore(ShownMembers(show, rest), MemberNames(rest), MemberFlags(show, rest), ms[0].name, shown);
      assert [ms[0].name] + MemberNames(rest) == MemberNames(ms) && [shown] + MemberFlags(show, rest) == MemberFlags(show, ms);
    }
  }

  lemma {:induction false} PropertiesDescribed(show: bool, ps: seq<Property>)
    ensures DescribesProperties(show, ps, ShownProperties(show, ps))
  {
    if ps == [] {
      NothingListed<Name>();
    } else {
      var rest, shown := ps[1..], show || !ps[0].experimental;
      PropertiesDescribed(show, rest);
      ListsMore(ShownProperties(show, rest), PropertyNames(rest), PropertyFlags(show, rest), ps[0].name, shown);
      assert [ps[0].name] + PropertyNames(rest) == PropertyNames(ps) && [shown] + PropertyFlags(show, rest) == PropertyFlags(show, ps);
    }
  }

  lemma {:induction false} IfacesDescribed(show: bool, ifaces: seq<Iface>)
    ensures |DocIfaces(show, ifaces)| == |ifaces|
    ensures forall i :: 0 <= i < |ifaces| ==> DescribesIface(show, ifaces[i].decl, DocIfaces(show, ifaces)[i])
  {
    if ifaces != [] {
      var d := ifaces[0].decl;
      IfacesDescribed(show, ifaces[1..]);
      MembersDescribed(show, d.methods);
      MembersDescribed(show, d.signals);
      PropertiesDescribed(show, Properties(d));
    }
  }

  /** The generated text describes the object. */
  lemma GenerateDescribes(objs: Table, show: bool, p: Path)
    requires p in objs
    ensures Describes(objs, show, p, Generate(objs, show, p))
  {
    IfacesDescribed(show, objs[p].ifaces);
    forall e ensures e in NextElements(objs, p) <==> exists q :: q in objs && p + [e] <= q {
      if q :| q in objs && p + [e] <= q {
        assert q[|p|] == (p + [e])[|p|] && p < q;
      }
      if e in NextElements(objs, p) {
        var q :| q in objs && p < q && q[|p|] == e;
        assert p + [e] <= q;
      }
    }
  }

  /** What a text says of the three interfaces that the server itself adds. */
  lemma BuiltinsDescribed(show: bool)
    ensures DocIfaces(show, [Iface(INTROSPECTABLE_DECL, [], map[])])
            == [DocIface("org.freedesktop.DBus.Introspectable", ["Introspect"], [], [])]
    ensures DocIfaces(show, [Iface(PROPERTIES_DECL, [], map[])])
            == [DocIface("org.freedesktop.DBus.Properties", ["Get", "Set", "GetAll"], ["PropertiesChanged"], [])]
    ensures DocIfaces(show, [Iface(MANAGER_DECL, [], map[])])
            == [DocIface("org.freedesktop.DBus.ObjectManager", ["GetManagedObjects"], ["InterfacesAdded", "InterfacesRemoved"], [])]
  {
    OneDescribed(show, INTROSPECTABLE_DECL);
    OneDescribed(show, PROPERTIES_DECL);
    OneDescribed(show, MANAGER_DECL);
    OneShown(show, "Introspect");
    OneShown(show, "GetManagedObjects");
    OneShown(show, "PropertiesChanged");
    TwoShown(show, "InterfacesAdded", "InterfacesRemoved");
    ThreeShown(show, "Get", "Set", "GetAll");
  }

  lemma OneDescribed(show: bool, d: Decl)
    requires d.properties.None?
    ensures DocIfaces(show, [Iface(d, [], map[])]) == [DocIface(d.name, ShownMembers(show, d.methods), ShownMembers(show, d.signals), [])]
  {
    var one := [Iface(d, [], map[])];
    assert one[1..] == [];
  }

  lemma OneShown(show: bool, name: Name)
    ensures ShownMembers(show, [Member(name, false)]) == [name]
  {
    var one := [Member(name, false)];
    assert one[1..] == [];
  }

  lemma TwoShown(show: bool, a: Name, b: Name)
    ensures ShownMembers(show, [Member(a, false), Member(b, false)]) == [a, b]
  {
    var two := [Member(a, false), Member(b, false)];
    assert two[1..] == [Member(b, false)];
    OneShown(show, b);
  }

  lemma ThreeShown(show: bool, a: Name, b: Name, c: Name)
    ensures ShownMembers(show, [Member(a, false), Member(b, false), Member(c, false)]) == [a, b, c]
  {
    var three := [Member(a, false), Member(b, false), Member(c, false)];
    assert three[1..] == [Member(b, false), Member(c, false)];
    TwoShown(show, b, c);
  }
}
