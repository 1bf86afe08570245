/** A run of the object server with a client in which the client is not told of a change: the property table has a hidden
    entry in front of a visible one of the same name.
 */
module MissedChange {
  import opened Bus
  import opened Views
  import opened ObjectModel
  import opened ObjectCore
  import opened ObjectLifetime
  import opened ObjectTree
  import opened Exports
  import opened Mirror

  /** The manager is attached and "/" is the only object. */
  ghost predicate Fresh(s: Server, show: bool) {
    s == Attach(Started(show)) && Exporting(s) && s.showExperimental == show && s.objects.Keys == {ROOT}
  }

  lemma FreshStart(show: bool)
    ensures Fresh(Attach(Started(show)), show)
  {
    AttachedExports(show);
    AttachHasEffect(Started(show));
    OnlyRoot(Started(show), Attach(Started(show)));
  }

  lemma OnlyRoot(s: Server, r: Server)
    requires s.objects == map[] && AttachEffect(s, r)
    ensures r.objects.Keys == {ROOT}
  {
  }

  /** The interface as it is after its registration. */
  ghost predicate Stands(s: Server, x: Path, d: Decl) {
    Exported(s.objects, Key(x, d.name)) && s.objects[x].ifaces[Find(s.objects[x].ifaces, d.name)] == Iface(d, [], map[])
  }

  lemma AcceptedStands(n: Node, d: Decl)
    requires n.ifaces == [Iface(INTROSPECTABLE_DECL, [], map[])] && d.name != INTROSPECTABLE
    ensures var m := Accepted(n, d, map[]); Has(m.ifaces, d.name) && m.ifaces[Find(m.ifaces, d.name)] == Iface(d, [], map[])
  {
    var m := Accepted(n, d, map[]);
    assert m.ifaces[1] == Iface(d, [], map[]) && m.ifaces[0].decl.name == INTROSPECTABLE;
    FindAt(m.ifaces, d.name, 1);
  }

  lemma RegisteredStands(s: Server, x: Path, d: Decl)
    requires Sound(s) && x !in s.objects && ValidPath(x) && x != [] && ValidInterface(d.name)
    requires !Builtin(d.name) && SomethingVisible(s.showExperimental, d)
    ensures Stands(Register(s, x, d, map[]).server, x, d)
  {
    FreshRefCore(s, x);
    RegisterHasEffect(s, x, d, map[]);
    var n := FreshNode(s.objects, x);
    AcceptedStands(n, d);
    assert n.ifaces[0].decl.name == INTROSPECTABLE;
    var r := Register(s, x, d, map[]).server;
    assert SameCore(Inserted(s.objects, x)[x := Accepted(n, d, map[])][x], r.objects[x]);
  }

  /** The client connects after the registration, asks for all objects and handles the answer. */
  function Asking(): seq<Step> {
    [Ask, Answer, Deliver]
  }

  lemma Asked(s: System) returns (m: System)
    requires Mirrored(s) && !s.calling && s.channel == [] && [] in s.server.objects
    ensures m == Steps(s, Asking()) && EnabledSteps(s, Asking()) && Mirrored(m) && m.answered && m.server == s.server
  {
    var s1 := Next(s, Ask);
    var s2 := Next(s1, Answer);
    AskedThrough(s, s1, s2);
    m := Next(s2, Deliver);
    ThreeSteps(s, s1, s2, m, Ask, Answer, Deliver);
  }

  lemma ThreeSteps(s: System, s1: System, s2: System, s3: System, a: Step, b: Step, c: Step)
    requires Enabled(s, a) && s1 == Next(s, a) && Enabled(s1, b) && s2 == Next(s1, b) && Enabled(s2, c) && s3 == Next(s2, c)
    ensures EnabledSteps(s, [a, b, c]) && Steps(s, [a, b, c]) == s3
  {
    NoSteps(s);
    AndThen(s, [], a, s, s1, [a]);
    AndThen(s, [a], b, s1, s2, [a, b]);
    AndThen(s, [a, b], c, s2, s3, [a, b, c]);
  }

  lemma NoSteps(s: System)
    ensures EnabledSteps(s, []) && Steps(s, []) == s
  {
  }

  lemma AndThen(s: System, steps: seq<Step>, step: Step, m: System, r: System, more: seq<Step>)
    requires EnabledSteps(s, steps) && m == Steps(s, steps) && Enabled(m, step) && r == Next(m, step) && more == steps + [step]
    ensures EnabledSteps(s, more) && Steps(s, more) == r
  {
    OneMoreStep(s, steps, step);
  }

  lemma AskedThrough(s: System, s1: System, s2: System)
    requires Mirrored(s) && !s.calling && s.channel == [] && [] in s.server.objects && s1 == Next(s, Ask) && s2 == Next(s1, Answer)
    ensures Enabled(s, Ask) && Enabled(s1, Answer) && Enabled(s2, Deliver)
    ensures Mirrored(Next(s2, Deliver)) && s2.answered && s2.server == s.server
  {
    NextMirroredIff(s, Ask);
    NextMirroredIff(s1, Answer);
    NextMirroredIff(s2, Deliver);
  }

  lemma OneMoreStep(s: System, steps: seq<Step>, step: Step)
    requires EnabledSteps(s, steps) && Enabled(Steps(s, steps), step)
    ensures EnabledSteps(s, steps + [step]) && Steps(s, steps + [step]) == Next(Steps(s, steps), step)
  {
    var more := steps + [step];
    assert more[..|steps|] == steps;
    forall i | 0 <= i < |more| ensures Enabled(Steps(s, more[..i]), more[i]) {
      if i < |steps| { assert more[..i] == steps[..i]; }
    }
  }

  lemma OneCall(s: Server, call: Call)
    requires Legal(s, call) && Orderly(s, call)
    ensures OrderlyRun(s, [call]) && Run(s, [call]) == Perform(s, call)
  {
    var calls := [call];
    assert calls[..0] == [] && Run(s, []) == s;
  }

  /** A change of a property that the table offers and that a search by its name does not find: afterwards a client that
      has asked for all objects will not know what the server exports. */
  lemma ChangeIsMissed(show: bool, x: Path, d: Decl, name: Name, value: Variant, flush: bool)
    requires x != [] && ValidPath(x) && ValidInterface(d.name) && !Builtin(d.name)
    requires Offered(show, Properties(d), name) && !Shown(show, Properties(d), name)
    ensures var calls := [RegisterCall(x, d, map[])];
            var steps := Asking() + [ServerCall(ChangeCall(x, d.name, name, Some(value), flush))];
            var s := Steps(Connected(show, calls), steps);
            && OrderlyRun(Attach(Started(show)), calls) && EnabledSteps(Connected(show, calls), steps)
            && s.answered && !Tracks(Knows(s), s.server.objects, show, true)
  {
    var call := RegisterCall(x, d, map[]);
    var s0 := Attach(Started(show));
    FreshStart(show);
    OneCall(s0, call);
    RunsExport(show, [call]);
    RegisteredStands(s0, x, d);
    Missed(Connected(show, [call]), show, x, d, name, value, flush);
  }

  lemma Missed(s: System, show: bool, x: Path, d: Decl, name: Name, value: Variant, flush: bool)
    requires s == System(s.server, [], C.Client([], []), false, false, false)
    requires Exporting(s.server) && s.server.showExperimental == show && Stands(s.server, x, d)
    requires Offered(show, Properties(d), name) && !Shown(show, Properties(d), name)
    ensures var steps := Asking() + [ServerCall(ChangeCall(x, d.name, name, Some(value), flush))]; var r := Steps(s, steps);
            EnabledSteps(s, steps) && r.answered && !Tracks(Knows(r), r.server.objects, show, true)
  {
    ConnectedMirrors(s);
    var m := Asked(s);
    MissedNext(m, show, x, d, name, value, flush);
    OneMoreStep(s, Asking(), ServerCall(ChangeCall(x, d.name, name, Some(value), flush)));
  }

  lemma ConnectedMirrors(s: System)
    requires s == System(s.server, [], C.Client([], []), false, false, false) && Exporting(s.server)
    ensures Mirrored(s) && [] in s.server.objects
  {
    ListingIsExact(s.server);
  }

  lemma MissedNext(m: System, show: bool, x: Path, d: Decl, name: Name, value: Variant, flush: bool)
    requires Mirrored(m) && m.answered && m.server.showExperimental == show && Stands(m.server, x, d)
    requires Offered(show, Properties(d), name) && !Shown(show, Properties(d), name)
    ensures var step := ServerCall(ChangeCall(x, d.name, name, Some(value), flush)); var r := Next(m, step);
            Enabled(m, step) && r.answered && !Tracks(Knows(r), r.server.objects, show, true)
  {
    var step := ServerCall(ChangeCall(x, d.name, name, Some(value), flush));
    assert Untold(m.server, x, d.name, name, Some(value));
    assert Key(x, d.name) in Knows(m);
    NextMirroredIff(m, step);
    PerformCarriesIff(m.server, step.call, Knows(m), true);
  }

  // ---- a table like that ----

  const TABLE := Decl("a.b", [], [], Some([Property("p", true, true), Property("p", false, true)]))

  lemma HiddenEntryFirst(x: Path, value: Variant, flush: bool)
    requires x != [] && ValidPath(x)
    ensures var calls := [RegisterCall(x, TABLE, map[])];
            var steps := Asking() + [ServerCall(ChangeCall(x, TABLE.name, "p", Some(value), flush))];
            var s := Steps(Connected(false, calls), steps);
            && OrderlyRun(Attach(Started(false)), calls) && EnabledSteps(Connected(false, calls), steps)
            && s.answered && !Tracks(Knows(s), s.server.objects, false, true)
  {
    var props := Properties(TABLE);
    assert props[1].name == "p" && !Hidden(false, props[1].experimental) && props[1].readable;
    assert FindProperty(false, props, "p").None?;
    ChangeIsMissed(false, x, TABLE, "p", value, flush);
  }
}
