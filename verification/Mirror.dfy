/** The object server and a client of it, connected by a first-in first-out
    channel: whatever the two sides do and however deliveries are delayed, what
    the client knows once the messages under way are handled is part of what the
    server exports, and from the first answer to GetManagedObjects on it is all
    of it.
 */
module Mirror {
  import opened Bus
  import opened Views
  import opened ObjectModel
  import opened ObjectCore
  import opened ObjectLifetime
  import opened ObjectTree
  import opened Exports
  import C = ClientModel
  import ClientTraces

  // ---------------------------------------------------------------------
  // Calls keep the server exporting

  lemma IntrospectCarries(s: Server, p: Path, v: View, exact: bool)
    requires Exporting(s) && p in s.objects && Tracks(v, s.objects, s.showExperimental, exact)
    ensures var r := Introspect(s, p); Announced(r) && Carries(s, r, v, exact)
  {
    CarriesSilently(s, s, v, exact);
    if s.objects[p].cache.Empty? {
      var n := s.objects[p].(cache := Text(Generate(s.objects, s.showExperimental, p)));
      assert Paid(s.objects[p]);
      SilentStore(s, p, n, v, exact);
    }
  }

  /** The call changes a property behind the back of a view that knows its interface. */
  ghost predicate Misses(s: Server, call: Call, v: View) {
    call.ChangeCall? && Untold(s, call.path, call.iface, call.prop, call.value) && Key(call.path, call.iface) in v
  }

  lemma CallCarries(s: Server, call: Call, v: View, exact: bool)
    requires Exporting(s) && Legal(s, call) && Orderly(s, call) && !call.IntrospectCall?
    requires Tracks(v, s.objects, s.showExperimental, exact)
    ensures var r := Perform(s, call);
            && Announced(r) && s.out <= r.out && SameFlags(s, r)
            && (Carries(s, r, v, exact) <==> !Misses(s, call, v))
  {
    match call
    case RegisterCall(p, d, state) =>
      if !ValidPath(p) || !ValidInterface(d.name) {
        CarriesSilently(s, s, v, exact);
      } else if p in s.objects {
        RegisterExistingCarries(s, p, d, state, v, exact);
      } else {
        RegisterNewCarries(s, p, d, state, v, exact);
      }
    case UnregisterCall(p, name) => UnregisterCarries(s, p, name, v, exact);
    case ChangeCall(p, iface, prop, value, flush) => ChangeCarriesIff(s, p, iface, prop, value, flush, v, exact);
  }

  /** Every orderly call leaves the server exporting, and its messages carry a view of the exports before it to one of
      the exports after it, complete views to complete ones, exactly when it is not such a change. */
  lemma PerformCarriesIff(s: Server, call: Call, v: View, exact: bool)
    requires Exporting(s) && Legal(s, call) && Orderly(s, call)
    requires Tracks(v, s.objects, s.showExperimental, exact)
    ensures var r := Perform(s, call);
            && Exporting(r) && s.out <= r.out && SameFlags(s, r)
            && (Carries(s, r, v, exact) <==> !Misses(s, call, v))
  {
    PerformSound(s, call);
    PerformTree(s, call);
    if call.IntrospectCall? {
      if call.path in s.objects { IntrospectCarries(s, call.path, v, exact); } else { CarriesSilently(s, s, v, exact); }
    } else {
      CallCarries(s, call, v, exact);
    }
  }

  // ---------------------------------------------------------------------
  // The answer to GetManagedObjects

  ghost predicate Covers(v: View, p: Path, ifaces: seq<Iface>) {
    forall i :: 0 <= i < |ifaces| && !Builtin(ifaces[i].decl.name) ==> Key(p, ifaces[i].decl.name) in v
  }

  lemma CoversMore(v: View, w: View, p: Path, ifaces: seq<Iface>)
    requires Covers(v, p, ifaces) && v.Keys <= w.Keys
    ensures Covers(w, p, ifaces)
  {
  }

  lemma PutTracks(v: View, objs: Table, p: Path, i: Iface, show: bool)
    requires Tracks(v, objs, show, false) && p in objs && p != [] && UniqueNames(objs[p].ifaces) && i in objs[p].ifaces
    ensures var w := ApplyIface(v, p, IfaceEntry(show, i));
            && Tracks(w, objs, show, false) && v.Keys <= w.Keys
            && (!Builtin(i.decl.name) ==> Key(p, i.decl.name) in w)
  {
    var f :| 0 <= f < |objs[p].ifaces| && objs[p].ifaces[f] == i;
    FindAt(objs[p].ifaces, i.decl.name, f);
    var m := PropsOf(show, i);
    assert m + m == m && map[] + m == m;
    if !Builtin(i.decl.name) { LearnedTracks(v, objs, Key(p, i.decl.name), m, show); }
  }

  lemma LearnedTracks(v: View, objs: Table, k: Key, m: Props, show: bool)
    requires Tracks(v, objs, show, false) && Exported(objs, k) && m == PropsAt(objs, show, k)
    ensures Tracks(v[k := m], objs, show, false)
  {
  }

  /** `w` still tracks, knows no less than `v`, and knows the interfaces listed for `p`. */
  ghost predicate Learned(v: View, w: View, objs: Table, show: bool, p: Path, ifaces: seq<Iface>) {
    Tracks(w, objs, show, false) && v.Keys <= w.Keys && Covers(w, p, ifaces)
  }

  lemma LearnOne(v: View, u: View, objs: Table, p: Path, ifaces: seq<Iface>, i: Iface, show: bool)
    requires Learned(v, u, objs, show, p, ifaces)
    requires p in objs && p != [] && UniqueNames(objs[p].ifaces) && i in objs[p].ifaces
    ensures Learned(v, ApplyIface(u, p, IfaceEntry(show, i)), objs, show, p, ifaces + [i])
  {
    PutTracks(u, objs, p, i, show);
    var w := ApplyIface(u, p, IfaceEntry(show, i));
    CoversMore(u, w, p, ifaces);
  }

  lemma {:induction false} IfacesTrack(v: View, objs: Table, p: Path, ifaces: seq<Iface>, show: bool)
    requires Tracks(v, objs, show, false) && p in objs && p != [] && UniqueNames(objs[p].ifaces)
    requires forall i :: 0 <= i < |ifaces| ==> ifaces[i] in objs[p].ifaces
    ensures Learned(v, ApplyIfaces(v, p, IfaceEntries(show, ifaces)), objs, show, p, ifaces)
  {
    if ifaces != [] {
      var n := |ifaces| - 1;
      var front, last := ifaces[..n], ifaces[n];
      IfacesTrack(v, objs, p, front, show);
      LearnOne(v, ApplyIfaces(v, p, IfaceEntries(show, front)), objs, p, front, last, show);
      LastEntry(v, p, ifaces, show);
    }
  }

  lemma LastEntry(v: View, p: Path, ifaces: seq<Iface>, show: bool)
    requires ifaces != []
    ensures var front, last := ifaces[..|ifaces| - 1], ifaces[|ifaces| - 1];
            && ApplyIfaces(v, p, IfaceEntries(show, ifaces))
               == ApplyIface(ApplyIfaces(v, p, IfaceEntries(show, front)), p, IfaceEntry(show, last))
            && front + [last] == ifaces
  {
    var front, last := ifaces[..|ifaces| - 1], ifaces[|ifaces| - 1];
    assert front + [last] == ifaces;
    EntriesAppend(show, front, last);
    IfacesAppend(v, p, IfaceEntries(show, front), IfaceEntry(show, last));
  }

  lemma EntriesAppend(show: bool, ifaces: seq<Iface>, i: Iface)
    ensures IfaceEntries(show, ifaces + [i]) == IfaceEntries(show, ifaces) + [IfaceEntry(show, i)]
  {
  }

  lemma IfacesAppend(v: View, p: Path, es: seq<IfaceProps>, e: IfaceProps)
    ensures ApplyIfaces(v, p, es + [e]) == ApplyIface(ApplyIfaces(v, p, es), p, e)
  {
    assert (es + [e])[..|es|] == es;
  }

  ghost predicate EntryOf(s: Server, e: ObjectEntry) {
    && e.path in s.objects && e.path != []
    && e.ifaces == IfaceEntries(s.showExperimental, s.objects[e.path].ifaces)
  }

  ghost predicate CoversAll(v: View, s: Server, m: seq<ObjectEntry>) {
    forall i :: 0 <= i < |m| ==> EntryOf(s, m[i]) && Covers(v, m[i].path, s.objects[m[i].path].ifaces)
  }

  lemma {:induction false} ObjectsTrack(v: View, s: Server, m: seq<ObjectEntry>)
    requires Tracks(v, s.objects, s.showExperimental, false) && AllCounted(s.objects)
    requires forall i :: 0 <= i < |m| ==> EntryOf(s, m[i])
    ensures Tracks(ApplyObjects(v, m), s.objects, s.showExperimental, false) && CoversAll(ApplyObjects(v, m), s, m)
  {
    if m != [] {
      var n := |m| - 1;
      ObjectsTrack(v, s, m[..n]);
      assert Counted(s.objects[m[n].path]);
      assert EntryOf(s, m[n]);
      LearnObject(ApplyObjects(v, m[..n]), s, m, n);
    }
  }

  lemma LearnObject(u: View, s: Server, m: seq<ObjectEntry>, n: nat)
    requires n == |m| - 1 && forall i :: 0 <= i < |m| ==> EntryOf(s, m[i])
    requires Tracks(u, s.objects, s.showExperimental, false) && CoversAll(u, s, m[..n])
    requires EntryOf(s, m[n]) && UniqueNames(s.objects[m[n].path].ifaces)
    ensures var w := ApplyIfaces(u, m[n].path, m[n].ifaces);
            Tracks(w, s.objects, s.showExperimental, false) && CoversAll(w, s, m)
  {
    var p := m[n].path;
    var w := ApplyIfaces(u, p, m[n].ifaces);
    IfacesTrack(u, s.objects, p, s.objects[p].ifaces, s.showExperimental);
    forall i | 0 <= i < |m| ensures EntryOf(s, m[i]) && Covers(w, m[i].path, s.objects[m[i].path].ifaces) {
      if i < n {
        assert m[i] == m[..n][i];
        CoversMore(u, w, m[i].path, s.objects[m[i].path].ifaces);
      }
    }
  }

  /** The answer completes any view of the exports. */
  lemma AnswerTracks(s: Server, v: View)
    requires Exporting(s) && Tracks(v, s.objects, s.showExperimental, false)
    ensures [] in s.objects && Tracks(Apply(v, GetManagedObjects(s)), s.objects, s.showExperimental, true)
  {
    ListingIsExact(s);
    AnswerFrom(s, v, GetManagedObjects(s).objects);
  }

  lemma AnswerFrom(s: Server, v: View, m: seq<ObjectEntry>)
    requires Tracks(v, s.objects, s.showExperimental, false) && AllCounted(s.objects) && ExactListing(s, m)
    ensures Tracks(ApplyObjects(v, m), s.objects, s.showExperimental, true)
  {
    forall i | 0 <= i < |m| ensures EntryOf(s, m[i]) { }
    ObjectsTrack(v, s, m);
    AllCovered(ApplyObjects(v, m), s, m);
  }

  lemma AllCovered(w: View, s: Server, m: seq<ObjectEntry>)
    requires (forall i :: 0 <= i < |m| ==> EntryOf(s, m[i])) && CoversAll(w, s, m)
    requires Tracks(w, s.objects, s.showExperimental, false) && ExactListing(s, m)
    ensures Tracks(w, s.objects, s.showExperimental, true)
  {
    forall k | Exported(s.objects, k) ensures k in w {
      var i :| 0 <= i < |m| && m[i].path == k.path;
      assert Covers(w, m[i].path, s.objects[m[i].path].ifaces);
      assert s.objects[k.path].ifaces[Find(s.objects[k.path].ifaces, k.iface)].decl.name == k.iface;
    }
  }

  // ---------------------------------------------------------------------
  // The system

  /** `channel` holds the messages sent and not yet handled, oldest first; `calling` from the client's
      request until it handles the answer, `asked` until the server answers, `answered` ever after. */
  datatype System = System(
    server: Server, channel: seq<Message>, client: C.Client, calling: bool, asked: bool, answered: bool)

  datatype Step = ServerCall(call: Call) | Ask | Answer | Deliver

  ghost predicate Enabled(s: System, step: Step) {
    match step
    case ServerCall(call) => Legal(s.server, call) && Orderly(s.server, call)
    case Ask => !s.calling
    case Answer => s.asked && [] in s.server.objects
    case Deliver => s.channel != []
  }

  function Sent(before: Server, after: Server): seq<Message> {
    if |before.out| <= |after.out| then after.out[|before.out|..] else []
  }

  /** One step of the server, of the client, or of the bus. */
  function Next(s: System, step: Step): System {
    match step
    case ServerCall(call) =>
      var r := Perform(s.server, call);
      s.(server := r, channel := s.channel + Sent(s.server, r))
    case Ask => s.(calling := true, asked := true)
    case Answer =>
      if [] !in s.server.objects then s
      else s.(channel := s.channel + [GetManagedObjects(s.server)], asked := false, answered := true)
    case Deliver =>
      if s.channel == [] then s
      else
        var m := s.channel[0];
        s.(channel := s.channel[1..], client := C.Handle(s.client, m),
           calling := s.calling && !m.ManagedObjects?)
  }

  function Steps(s: System, steps: seq<Step>): System {
    if steps == [] then s else Next(Steps(s, steps[..|steps| - 1]), steps[|steps| - 1])
  }

  ghost predicate EnabledSteps(s: System, steps: seq<Step>) {
    forall i :: 0 <= i < |steps| ==> Enabled(Steps(s, steps[..i]), steps[i])
  }

  /** What the client will know once it has handled what is under way. */
  function Knows(s: System): View {
    Drain(C.ViewOf(s.client.proxies), s.channel)
  }

  ghost predicate Mirrored(s: System) {
    && Exporting(s.server)
    && ClientTraces.Consistent(s.client)
    && Tracks(Knows(s), s.server.objects, s.server.showExperimental, s.answered)
  }

  /** The step is a change of which the client is not told although it will know the interface. */
  ghost predicate Missing(s: System, step: Step) {
    step.ServerCall? && Misses(s.server, step.call, Knows(s))
  }

  lemma CallMirrored(s: System, call: Call)
    requires Mirrored(s) && Legal(s.server, call) && Orderly(s.server, call)
    ensures Mirrored(Next(s, ServerCall(call))) <==> !Missing(s, ServerCall(call))
  {
    var r := Perform(s.server, call);
    PerformCarriesIff(s.server, call, Knows(s), s.answered);
    DrainConcat(C.ViewOf(s.client.proxies), s.channel, Sent(s.server, r));
  }

  lemma TracksLess(v: View, objs: Table, show: bool, exact: bool)
    requires Tracks(v, objs, show, exact)
    ensures Tracks(v, objs, show, false)
  {
  }

  lemma AnswerMirrored(s: System)
    requires Mirrored(s) && [] in s.server.objects
    ensures Mirrored(Next(s, Answer))
  {
    TracksLess(Knows(s), s.server.objects, s.server.showExperimental, s.answered);
    AnswerTracks(s.server, Knows(s));
    DrainConcat(C.ViewOf(s.client.proxies), s.channel, [GetManagedObjects(s.server)]);
    OneMessage(Knows(s), GetManagedObjects(s.server));
  }

  lemma DeliverMirrored(s: System)
    requires Mirrored(s) && s.channel != []
    ensures Mirrored(Next(s, Deliver)) && Knows(Next(s, Deliver)) == Knows(s)
  {
    ClientTraces.HandleRefines(s.client, s.channel[0]);
    DrainFirst(C.ViewOf(s.client.proxies), s.channel);
  }

  lemma DrainFirst(v: View, ms: seq<Message>)
    requires ms != []
    ensures Drain(v, ms) == Drain(Apply(v, ms[0]), ms[1..])
  {
  }

  /** Every step of either side, in any interleaving, keeps the client a mirror of the server exactly when it is not such
      a change. */
  lemma NextMirroredIff(s: System, step: Step)
    requires Mirrored(s) && Enabled(s, step)
    ensures Mirrored(Next(s, step)) <==> !Missing(s, step)
  {
    match step
    case ServerCall(call) => CallMirrored(s, call);
    case Ask =>
    case Answer => AnswerMirrored(s);
    case Deliver => DeliverMirrored(s);
  }

  lemma EnabledPrefix(s: System, steps: seq<Step>, k: nat)
    requires EnabledSteps(s, steps) && k < |steps|
    ensures EnabledSteps(s, steps[..k]) && Enabled(Steps(s, steps[..k]), steps[k])
  {
    forall i | 0 <= i < k ensures Enabled(Steps(s, steps[..k][..i]), steps[..k][i]) {
      assert steps[..k][..i] == steps[..i];
    }
  }

  lemma {:induction false} StepsMirrored(s: System, steps: seq<Step>)
    requires Mirrored(s) && EnabledSteps(s, steps) && ToldSteps(s, steps)
    ensures Mirrored(Steps(s, steps))
  {
    if steps != [] {
      var k := |steps| - 1;
      EnabledPrefix(s, steps, k);
      ToldPrefix(s, steps, k);
      StepsMirrored(s, steps[..k]);
      NextMirroredIff(Steps(s, steps[..k]), steps[k]);
    }
  }

  /** No step is a change of which the client is not told. */
  ghost predicate ToldSteps(s: System, steps: seq<Step>) {
    forall i :: 0 <= i < |steps| ==> !Missing(Steps(s, steps[..i]), steps[i])
  }

  lemma {:induction false} ToldPrefix(s: System, steps: seq<Step>, k: nat)
    requires ToldSteps(s, steps) && k < |steps|
    ensures ToldSteps(s, steps[..k]) && !Missing(Steps(s, steps[..k]), steps[k])
  {
    var front := steps[..k];
    forall i | 0 <= i < |front| ensures !Missing(Steps(s, front[..i]), front[i]) {
      SamePrefix(steps, k, i);
    }
  }

  lemma SamePrefix(steps: seq<Step>, k: nat, i: nat)
    requires i < k <= |steps|
    ensures steps[..k][..i] == steps[..i] && steps[..k][i] == steps[i]
  {
  }

  // ---------------------------------------------------------------------
  // The theorem

  lemma AttachedExports(show: bool)
    ensures Exporting(Attach(Started(show))) && Attach(Started(show)).showExperimental == show
  {
    var s := Started(show);
    assert Sound(s);
    AttachSound(s);
    AttachHasEffect(s);
    AttachTree(s, Attach(s));
    AttachedIsPaid(s);
  }

  lemma AttachedIsPaid(s: Server)
    requires s.objects == map[]
    ensures Announced(Attach(s))
  {
    var made := s.objects[ROOT := FRESH_NODE];
    assert Inserted(s.objects, ROOT) == made;
    assert PathRef(s, ROOT).objects == made[ROOT := WithIface(FRESH_NODE, INTROSPECTABLE_DECL, map[])] by {
      assert !Hidden(s.showExperimental, INTROSPECTABLE_DECL.methods[0].experimental);
    }
    assert !Hidden(s.showExperimental, MANAGER_DECL.methods[0].experimental);
  }

  lemma OrderlyPrefix(calls: seq<Call>, s: Server, k: nat)
    requires OrderlyRun(s, calls) && k <= |calls|
    ensures OrderlyRun(s, calls[..k])
  {
    forall i | 0 <= i < k ensures Legal(Run(s, calls[..k][..i]), calls[..k][i]) && Orderly(Run(s, calls[..k][..i]), calls[..k][i]) {
      assert calls[..k][..i] == calls[..i];
    }
  }

  lemma {:induction false} RunsExport(show: bool, calls: seq<Call>)
    requires OrderlyRun(Attach(Started(show)), calls)
    ensures Exporting(Run(Attach(Started(show)), calls)) && Run(Attach(Started(show)), calls).showExperimental == show
  {
    AttachedExports(show);
    if calls != [] {
      var k := |calls| - 1;
      OrderlyPrefix(calls, Attach(Started(show)), k);
      RunsExport(show, calls[..k]);
      ExportsNext(Run(Attach(Started(show)), calls[..k]), calls[k]);
    }
  }

  lemma ExportsNext(s: Server, call: Call)
    requires Exporting(s) && Legal(s, call) && Orderly(s, call)
    ensures Exporting(Perform(s, call)) && Perform(s, call).showExperimental == s.showExperimental
  {
    PerformCarriesIff(s, call, map[], false);
  }

  /** A client that starts against a server in any state of an orderly run. */
  function Connected(show: bool, calls: seq<Call>): System {
    System(Run(Attach(Started(show)), calls), [], C.Client([], []), false, false, false)
  }

  /** Over a first-in first-out channel, for every interleaving of the server's calls, the request and its
      answer, and deliveries, as long as no property is changed of which the client is not told: what the client will know
      after the messages under way is part of what the server exports, and once an answer has been sent it is exactly
      that. The first change of which it is not told ends this. */
  lemma MirrorTheorem(show: bool, calls: seq<Call>, steps: seq<Step>)
    requires OrderlyRun(Attach(Started(show)), calls)
    requires EnabledSteps(Connected(show, calls), steps) && ToldSteps(Connected(show, calls), steps)
    ensures var s := Steps(Connected(show, calls), steps); var objs := s.server.objects;
            && (forall k :: k in Knows(s) ==> Exported(objs, k) && Knows(s)[k] == PropsAt(objs, s.server.showExperimental, k))
            && (s.answered ==> forall k :: Exported(objs, k) ==> k in Knows(s))
            && (s.channel == [] ==> Knows(s) == C.ViewOf(s.client.proxies))
            && (forall step :: Enabled(s, step) ==> (Mirrored(Next(s, step)) <==> !Missing(s, step)))
  {
    RunsExport(show, calls);
    StepsMirrored(Connected(show, calls), steps);
    MirrorsNow(Steps(Connected(show, calls), steps));
  }

  lemma MirrorsNow(s: System)
    requires Mirrored(s)
    ensures forall k :: k in Knows(s) ==> Exported(s.server.objects, k) && Knows(s)[k] == PropsAt(s.server.objects, s.server.showExperimental, k)
    ensures s.answered ==> forall k :: Exported(s.server.objects, k) ==> k in Knows(s)
    ensures s.channel == [] ==> Knows(s) == C.ViewOf(s.client.proxies)
    ensures forall step :: Enabled(s, step) ==> (Mirrored(Next(s, step)) <==> !Missing(s, step))
  {
    forall step | Enabled(s, step) ensures Mirrored(Next(s, step)) <==> !Missing(s, step) {
      NextMirroredIff(s, step);
    }
  }
}
