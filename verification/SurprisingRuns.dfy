/** Runs of the object server, from its start, in which it does not do what one would expect. The paths x, xy and xyz
    stand for "/x", "/x/y" and "/x/y/z" with any elements, and d for any interface with something to register.
 */
module SurprisingRuns {
  import opened Bus
  import opened ObjectModel
  import opened ObjectCore
  import opened ObjectLifetime
  import opened ObjectTree
  import opened Introspection
  import opened Publication
  import opened Refusal
  import opened Dangling

  function Add(p: Path, d: Decl): Call {
    RegisterCall(p, d, map[])
  }

  function Take(p: Path, d: Decl): Call {
    UnregisterCall(p, d.name)
  }

  predicate Usable(show: bool, d: Decl) {
    ValidInterface(d.name) && !Builtin(d.name) && d.name != OBJECT_MANAGER && SomethingVisible(show, d)
  }

  /** "/x" and "/x/y". */
  predicate Two(x: Path, xy: Path) {
    x != [] && xy != [] && Parent(x) == [] && Parent(xy) == x && ValidPath(xy)
  }

  predicate Three(x: Path, xy: Path, xyz: Path) {
    Two(x, xy) && xyz != [] && Parent(xyz) == xy && ValidPath(xyz)
  }

  lemma TwoIs(x: Path, xy: Path)
    requires Two(x, xy)
    ensures |x| == 1 && |xy| == 2 && x < xy && ValidPath(x)
  {
    assert forall i :: 0 <= i < |x| ==> x[i] == xy[i];
  }

  /** The object carries d and no other interface of its users. */
  ghost predicate One(objs: Table, p: Path, d: Decl) {
    p in objs && Has(objs[p].ifaces, d.name) && objs[p].refcount == 1
  }

  // ---- what the calls of these runs do ----

  ghost predicate AddStep(s: Server, p: Path, d: Decl, r: Server) {
    && SameLinks(Inserted(s.objects, p), r.objects) && r.attached == s.attached
    && One(r.objects, p, d) && (forall q :: One(s.objects, q, d) ==> One(r.objects, q, d))
    && (Tree(s.objects) ==> (Tree(r.objects) <==> !SomethingBelow(s.objects, p)))
    && (Orderable(s) && !SomethingBelow(s.objects, p) && (p == [] || [] in s.objects) ==> Orderable(r))
  }

  ghost predicate TakeStep(s: Server, p: Path, d: Decl, r: Server)
    requires p in s.objects
  {
    && SameLinks(Removed(s.objects, p), r.objects)
    && (forall q :: One(s.objects, q, d) && q != p ==> One(r.objects, q, d))
    && (Tree(s.objects) && s.objects[p].links.children != [] && s.objects[p].links.parent.Some? ==> !Tree(r.objects))
  }

  ghost predicate AttachStep(s: Server, r: Server) {
    && r.attached && [] in r.objects
    && (Tree(s.objects) ==> (Tree(r.objects) <==> [] in s.objects || s.objects == map[]))
    && ([] in s.objects && s.objects[[]].links.parent.None? ==>
          r.objects.Keys == s.objects.Keys && forall q :: q in s.objects && q != [] ==> r.objects[q] == s.objects[q])
    && (Orderable(s) && [] in s.objects ==> Orderable(r))
    && ([] !in s.objects && NoDangling(s.objects) ==>
          r.objects.Keys == s.objects.Keys + {ROOT} && r.objects[ROOT].links == Links(None, []))
    && ([] in s.objects && Coherent(s.objects, s.showExperimental, []) && s.objects[[]].cache != Empty
        ==> !Coherent(r.objects, r.showExperimental, []))
  }

  ghost predicate CoherentAll(s: Server) {
    CoherentOff(s.objects, s.showExperimental, {})
  }

  /** What one call does, as far as it matters here. */
  ghost predicate Did(s: Server, c: Call, d: Decl, r: Server) {
    && Sound(s) && Sound(r) && r.showExperimental == s.showExperimental
    && (c.RegisterCall? && c == Add(c.path, d) && c.path !in s.objects && ValidPath(c.path) ==> AddStep(s, c.path, d, r))
    && (c.UnregisterCall? && c == Take(c.path, d) && One(s.objects, c.path, d) ==> TakeStep(s, c.path, d, r))
    && (c.AttachCall? ==> AttachStep(s, r))
    && (c.IntrospectCall? && c.path in s.objects ==> c.path in r.objects && r.objects[c.path].cache != Empty)
    && (!c.AttachCall? && CoherentAll(s) ==> CoherentAll(r))
  }

  lemma AddedTable(objs: Table, p: Path, d: Decl, m: Node, r: Table)
    requires Calm(objs) && p !in objs && p in Inserted(objs, p) && m.links == Inserted(objs, p)[p].links
    requires SameCores(Inserted(objs, p)[p := m], r) && Has(m.ifaces, d.name) && m.refcount == 1
    ensures SameLinks(Inserted(objs, p), r) && One(r, p, d) && forall q :: One(objs, q, d) ==> One(r, q, d)
  {
    var t := Inserted(objs, p)[p := m];
    CoresHaveLinks(t, r);
    InsertedCalm(objs, p);
    assert SameCore(t[p], r[p]);
    forall q | One(objs, q, d) ensures One(r, q, d) {
      assert SameBody(objs[p := FRESH_NODE][q], Inserted(objs, p)[q]);
      assert SameCore(t[q], r[q]);
    }
  }

  lemma Added(s: Server, p: Path, d: Decl)
    requires Sound(s) && p !in s.objects && ValidPath(p) && Usable(s.showExperimental, d)
    ensures var r := Register(s, p, d, map[]);
            && r.ok && SameLinks(Inserted(s.objects, p), r.server.objects)
            && One(r.server.objects, p, d) && (forall q :: One(s.objects, q, d) ==> One(r.server.objects, q, d))
  {
    var n := FreshNode(s.objects, p);
    FreshTakes(s, p, d, n);
    RegisterNew(s, p, d, map[]);
    FreshLinks(s.objects, p);
    AddedTable(s.objects, p, d, Accepted(n, d, map[]), Register(s, p, d, map[]).server.objects);
  }

  lemma FreshTakes(s: Server, p: Path, d: Decl, n: Node)
    requires Sound(s) && p !in s.objects && Usable(s.showExperimental, d) && n == FreshNode(s.objects, p)
    ensures Accepts(s.showExperimental, n, d) && Has(Accepted(n, d, map[]).ifaces, d.name) && n.refcount == 1
  {
    FreshRefCore(s, p);
    assert n.ifaces[0].decl.name == INTROSPECTABLE;
    assert Accepted(n, d, map[]).ifaces[1].decl.name == d.name;
  }

  lemma AddDid(s: Server, p: Path, d: Decl)
    requires Sound(s) && p !in s.objects && ValidPath(p) && Usable(s.showExperimental, d)
    ensures AddStep(s, p, d, Register(s, p, d, map[]).server)
  {
    Added(s, p, d);
    if Tree(s.objects) { RegisterTreeIff(s, p, d, map[]); }
    if Orderable(s) && !SomethingBelow(s.objects, p) && (p == [] || [] in s.objects) { RegisterOrderable(s, p, d, map[]); }
  }

  lemma TakeDid(s: Server, p: Path, d: Decl)
    requires Sound(s) && One(s.objects, p, d)
    ensures TakeStep(s, p, d, Unregister(s, p, d.name).server)
  {
    UnregisterHasEffect(s, p, d.name);
    var r := Unregister(s, p, d.name);
    CoresHaveLinks(Removed(s.objects, p), r.server.objects);
    forall q | One(s.objects, q, d) && q != p ensures One(r.server.objects, q, d) {
      RemovedBody(s.objects, p, q);
      assert SameCore(Removed(s.objects, p)[q], r.server.objects[q]);
    }
    if Tree(s.objects) { UnregisterTreeIff(s, p, d.name); }
  }

  lemma AttachTouchesRoot(s: Server)
    requires [] in s.objects && s.objects[[]].links.parent.None?
    ensures Attach(s).attached && Attach(s).objects.Keys == s.objects.Keys
    ensures forall q :: q in s.objects && q != [] ==> Attach(s).objects[q] == s.objects[q]
  {
    assert !Hidden(s.showExperimental, MANAGER_DECL.methods[0].experimental);
  }

  lemma AttachNewRoot(s: Server)
    requires Sound(s) && ROOT !in s.objects && NoDangling(s.objects)
    ensures Attach(s).objects.Keys == s.objects.Keys + {ROOT} && Attach(s).objects[ROOT].links == Links(None, [])
  {
    AttachHasEffect(s);
    NothingListed(s.objects, ROOT);
    InsertedLinks(s.objects, ROOT);
    FreshLinks(s.objects, ROOT);
    var t := Inserted(s.objects, ROOT)[ROOT := Managed(FreshNode(s.objects, ROOT))];
    assert SameCore(t[ROOT], Attach(s).objects[ROOT]);
  }

  lemma AttachDid(s: Server)
    requires Sound(s)
    ensures AttachStep(s, Attach(s))
  {
    AttachHasEffect(s);
    if Tree(s.objects) { AttachTreeIff(s); }
    if [] in s.objects && s.objects[[]].links.parent.None? { AttachTouchesRoot(s); }
    if [] !in s.objects && NoDangling(s.objects) { AttachNewRoot(s); }
    if Orderable(s) && [] in s.objects { AttachOrderable(s); }
    if [] in s.objects && Coherent(s.objects, s.showExperimental, []) { AttachRootIff(s); }
  }

  lemma FlagsKept(s: Server, c: Call)
    ensures Perform(s, c).showExperimental == s.showExperimental
    ensures c != AttachCall ==> Perform(s, c).attached == s.attached
  {
  }

  lemma CallDid(s: Server, c: Call, d: Decl)
    requires Sound(s) && Legal(s, c) && Usable(s.showExperimental, d)
    ensures Did(s, c, d, Perform(s, c))
  {
    CallKeeps(s, c);
    match c
    case RegisterCall(p, _, _) => if c == Add(p, d) && p !in s.objects && ValidPath(p) { AddDid(s, p, d); }
    case UnregisterCall(p, _) => if c == Take(p, d) && One(s.objects, p, d) { TakeDid(s, p, d); }
    case AttachCall => AttachDid(s);
    case IntrospectCall(_) => OtherDid(s, c, d);
    case ChangeCall(_, _, _, _, _) => OtherDid(s, c, d);
  }

  lemma OtherDid(s: Server, c: Call, d: Decl)
    requires Sound(s) && Legal(s, c) && (c.IntrospectCall? || c.ChangeCall?)
    ensures Did(s, c, d, Perform(s, c))
  {
    CallKeeps(s, c);
  }

  lemma CallKeeps(s: Server, c: Call)
    requires Sound(s) && Legal(s, c)
    ensures var r := Perform(s, c);
            Sound(r) && r.showExperimental == s.showExperimental && (!c.AttachCall? && CoherentAll(s) ==> CoherentAll(r))
  {
    PerformSound(s, c);
    FlagsKept(s, c);
    if !c.AttachCall? && CoherentAll(s) { PerformCoherent(s, c, {}); }
  }

  // ---- the states of a run ----

  ghost predicate StepAt(calls: seq<Call>, d: Decl, st: seq<Server>, i: nat)
    requires |st| == |calls| + 1 && i < |calls|
  {
    Did(st[i], calls[i], d, st[i + 1])
  }

  ghost predicate States(show: bool, calls: seq<Call>, d: Decl, st: seq<Server>) {
    && |st| == |calls| + 1 && st[0] == Started(show) && st[|calls|].showExperimental == show && Sound(st[|calls|])
    && forall i :: 0 <= i < |calls| ==> StepAt(calls, d, st, i)
  }

  /** Calls that are legal in any state, and perhaps the attaching of the manager at the end. */
  ghost predicate Simple(show: bool, calls: seq<Call>) {
    forall i :: 0 <= i < |calls| ==> if i < |calls| - 1 then Plain(show, calls[i]) else Plain(show, calls[i]) || calls[i] == AttachCall
  }

  ghost predicate Plain(show: bool, c: Call) {
    c != AttachCall && Legal(Started(show), c)
  }

  lemma {:induction false} RunStates(show: bool, calls: seq<Call>, d: Decl) returns (st: seq<Server>)
    requires Simple(show, calls) && Usable(show, d)
    ensures LegalRun(Started(show), calls) && States(show, calls, d, st) && st[|calls|] == Run(Started(show), calls)
    ensures (calls == [] || calls[|calls| - 1] != AttachCall) ==> !st[|calls|].attached
  {
    if calls == [] {
      st := [Started(show)];
    } else {
      var k := |calls| - 1;
      SimpleFront(show, calls);
      st := RunStates(show, calls[..k], d);
      var r := NextState(show, calls, d, st[k]);
      LegalLonger(show, calls);
      st := LongerStates(show, calls, d, st, r);
    }
  }

  lemma SimpleFront(show: bool, calls: seq<Call>)
    requires Simple(show, calls) && calls != []
    ensures var k := |calls| - 1;
            && Simple(show, calls[..k]) && (calls[..k] == [] || calls[..k][k - 1] != AttachCall)
            && (Plain(show, calls[k]) || calls[k] == AttachCall)
  {
    var k := |calls| - 1;
    forall i | 0 <= i < k ensures Plain(show, calls[..k][i]) { assert calls[..k][i] == calls[i]; }
  }

  lemma NextState(show: bool, calls: seq<Call>, d: Decl, s: Server) returns (r: Server)
    requires calls != [] && s == Run(Started(show), calls[..|calls| - 1]) && Sound(s) && !s.attached
    requires s.showExperimental == show && Usable(show, d)
    requires Plain(show, calls[|calls| - 1]) || calls[|calls| - 1] == AttachCall
    ensures r == Run(Started(show), calls) && Did(s, calls[|calls| - 1], d, r) && Legal(s, calls[|calls| - 1])
    ensures calls[|calls| - 1] != AttachCall ==> !r.attached
  {
    r := Run(Started(show), calls);
    FlagsKept(s, calls[|calls| - 1]);
    CallDid(s, calls[|calls| - 1], d);
  }

  lemma LegalLonger(show: bool, calls: seq<Call>)
    requires calls != [] && LegalRun(Started(show), calls[..|calls| - 1])
    requires Legal(Run(Started(show), calls[..|calls| - 1]), calls[|calls| - 1])
    ensures LegalRun(Started(show), calls)
  {
    var front := calls[..|calls| - 1];
    forall i | 0 <= i < |calls| ensures Legal(Run(Started(show), calls[..i]), calls[i]) {
      if i < |front| { assert front[..i] == calls[..i]; }
    }
  }

  lemma LongerStates(show: bool, calls: seq<Call>, d: Decl, st: seq<Server>, r: Server) returns (st': seq<Server>)
    requires calls != [] && States(show, calls[..|calls| - 1], d, st) && Did(st[|calls| - 1], calls[|calls| - 1], d, r)
    ensures States(show, calls, d, st') && st'[|calls|] == r
  {
    st' := st + [r];
    var front := calls[..|calls| - 1];
    forall i | 0 <= i < |calls| ensures StepAt(calls, d, st', i) {
      if i < |front| { assert StepAt(front, d, st, i); }
    }
  }

  lemma AddAt(show: bool, calls: seq<Call>, d: Decl, st: seq<Server>, i: nat, p: Path)
    requires States(show, calls, d, st) && i < |calls| && calls[i] == Add(p, d) && p !in st[i].objects && ValidPath(p)
    ensures AddStep(st[i], p, d, st[i + 1])
  {
    assert StepAt(calls, d, st, i);
  }

  lemma TakeAt(show: bool, calls: seq<Call>, d: Decl, st: seq<Server>, i: nat, p: Path)
    requires States(show, calls, d, st) && i < |calls| && calls[i] == Take(p, d) && One(st[i].objects, p, d)
    ensures TakeStep(st[i], p, d, st[i + 1])
  {
    assert StepAt(calls, d, st, i);
  }

  lemma AttachAt(show: bool, calls: seq<Call>, d: Decl, st: seq<Server>, i: nat)
    requires States(show, calls, d, st) && i < |calls| && calls[i] == AttachCall
    ensures AttachStep(st[i], st[i + 1])
  {
    assert StepAt(calls, d, st, i);
  }

  // ---- the tree ----

  lemma OnlyRoot(objs: Table, p: Path)
    requires objs.Keys == {ROOT} && p != []
    ensures !SomethingBelow(objs, p)
  {
  }

  lemma First(s: Server, r: Server, p: Path, d: Decl)
    requires s.objects == map[] && !s.attached && AddStep(s, p, d, r)
    ensures r.objects.Keys == {p} && Tree(r.objects) && One(r.objects, p, d) && !r.attached && (p == ROOT ==> Orderable(r))
  {
  }

  lemma Second(s: Server, r: Server, p: Path, d: Decl)
    requires s.objects.Keys == {ROOT} && Tree(s.objects) && One(s.objects, ROOT, d) && Orderable(s) && !s.attached
    requires p != [] && AddStep(s, p, d, r)
    ensures r.objects.Keys == {ROOT, p} && Tree(r.objects) && Orderable(r) && !r.attached
    ensures One(r.objects, ROOT, d) && One(r.objects, p, d)
  {
    OnlyRoot(s.objects, p);
  }

  /** One call into the run. */
  lemma AfterOne(show: bool, calls: seq<Call>, d: Decl, st: seq<Server>, s: Server, r: Server, p: Path)
    requires States(show, calls, d, st) && |calls| >= 1 && s == st[0] && r == st[1] && calls[0] == Add(p, d) && ValidPath(p)
    ensures r.objects.Keys == {p} && Tree(r.objects) && One(r.objects, p, d) && !r.attached
    ensures p == ROOT ==> Orderable(r)
  {
    AddAt(show, calls, d, st, 0, p);
    First(s, r, p, d);
  }

  lemma NextAfterRoot(show: bool, calls: seq<Call>, d: Decl, st: seq<Server>, s: Server, r: Server, p: Path)
    requires States(show, calls, d, st) && |calls| >= 2 && s == st[1] && r == st[2] && calls[1] == Add(p, d) && ValidPath(p) && p != []
    requires s.objects.Keys == {ROOT} && Tree(s.objects) && One(s.objects, ROOT, d) && Orderable(s) && !s.attached
    ensures r.objects.Keys == {ROOT, p} && Tree(r.objects) && Orderable(r) && !r.attached
    ensures One(r.objects, ROOT, d) && One(r.objects, p, d)
  {
    AddAt(show, calls, d, st, 1, p);
    Second(s, r, p, d);
  }

  /** Two calls into the run: "/" and another path. */
  lemma AfterTwo(show: bool, calls: seq<Call>, d: Decl, st: seq<Server>, p: Path)
    requires States(show, calls, d, st) && |calls| >= 2 && calls[0] == Add(ROOT, d) && calls[1] == Add(p, d)
    requires ValidPath(p) && p != []
    ensures st[2].objects.Keys == {ROOT, p} && Tree(st[2].objects) && Orderable(st[2]) && !st[2].attached
    ensures One(st[2].objects, ROOT, d) && One(st[2].objects, p, d)
  {
    AfterOne(show, calls, d, st, st[0], st[1], ROOT);
    NextAfterRoot(show, calls, d, st, st[1], st[2], p);
  }

  /** Registering "/x" above "/x/y" breaks the tree. */
  lemma RegisteringAboveBreaksTree(show: bool, d: Decl, x: Path, xy: Path)
    requires Usable(show, d) && Two(x, xy)
    ensures var calls := [Add(ROOT, d), Add(xy, d), Add(x, d)];
            LegalRun(Started(show), calls) && !Tree(Run(Started(show), calls).objects)
  {
    var calls := [Add(ROOT, d), Add(xy, d), Add(x, d)];
    var s := AddedAbove(show, calls, d, x, xy);
  }

  lemma AddedAbove(show: bool, calls: seq<Call>, d: Decl, x: Path, xy: Path) returns (s: Server)
    requires Simple(show, calls) && Usable(show, d) && |calls| == 3 && Two(x, xy)
    requires calls[0] == Add(ROOT, d) && calls[1] == Add(xy, d) && calls[2] == Add(x, d)
    ensures LegalRun(Started(show), calls) && s == Run(Started(show), calls)
    ensures !Tree(s.objects)
  {
    TwoIs(x, xy);
    var st := RunStates(show, calls, d);
    s := st[3];
    AfterTwo(show, calls, d, st, xy);
    AboveBreaksAt(show, calls, d, st, st[2], s, x, xy);
  }

  lemma AboveBreaksAt(show: bool, calls: seq<Call>, d: Decl, st: seq<Server>, s: Server, r: Server, x: Path, xy: Path)
    requires States(show, calls, d, st) && |calls| == 3 && s == st[2] && r == st[3] && calls[2] == Add(x, d) && Two(x, xy)
    requires Tree(s.objects) && xy in s.objects && x !in s.objects
    ensures !Tree(r.objects)
  {
    TwoIs(x, xy);
    AddAt(show, calls, d, st, 2, x);
    AboveBreaks(s, r, d, x, xy);
  }

  lemma AboveBreaks(s: Server, r: Server, d: Decl, x: Path, xy: Path)
    requires Two(x, xy) && Tree(s.objects) && xy in s.objects && AddStep(s, x, d, r)
    ensures !Tree(r.objects)
  {
    TwoIs(x, xy);
    assert SomethingBelow(s.objects, x);
  }

  /** Unregistering "/x" between "/" and "/x/y" breaks the tree. */
  lemma UnregisteringBetweenBreaksTree(show: bool, d: Decl, x: Path, xy: Path)
    requires Usable(show, d) && Two(x, xy)
    ensures var calls := [Add(ROOT, d), Add(x, d), Add(xy, d), Take(x, d)];
            LegalRun(Started(show), calls) && !Tree(Run(Started(show), calls).objects)
  {
    var calls := [Add(ROOT, d), Add(x, d), Add(xy, d), Take(x, d)];
    var s := TakenAway(show, calls, d, x, xy);
  }

  lemma TakenAway(show: bool, calls: seq<Call>, d: Decl, x: Path, xy: Path) returns (s: Server)
    requires Simple(show, calls) && Usable(show, d) && |calls| == 4 && Two(x, xy)
    requires calls[0] == Add(ROOT, d) && calls[1] == Add(x, d) && calls[2] == Add(xy, d) && calls[3] == Take(x, d)
    ensures LegalRun(Started(show), calls) && s == Run(Started(show), calls)
    ensures !Tree(s.objects)
  {
    TwoIs(x, xy);
    var st := RunStates(show, calls, d);
    s := st[4];
    AfterTwo(show, calls, d, st, x);
    BetweenAt(show, calls, d, st, st[2], st[3], x, xy);
    TakenAt(show, calls, d, st, st[3], s, x);
  }

  lemma TakenAt(show: bool, calls: seq<Call>, d: Decl, st: seq<Server>, s: Server, r: Server, x: Path)
    requires States(show, calls, d, st) && |calls| == 4 && s == st[3] && r == st[4] && calls[3] == Take(x, d) && One(s.objects, x, d)
    requires Tree(s.objects) && s.objects[x].links.children != [] && s.objects[x].links.parent.Some?
    ensures !Tree(r.objects)
  {
    TakeAt(show, calls, d, st, 3, x);
  }

  lemma BetweenAt(show: bool, calls: seq<Call>, d: Decl, st: seq<Server>, s: Server, r: Server, x: Path, xy: Path)
    requires States(show, calls, d, st) && |calls| == 4 && s == st[2] && r == st[3] && Two(x, xy) && calls[2] == Add(xy, d)
    requires Tree(s.objects) && s.objects.Keys == {ROOT, x} && One(s.objects, x, d)
    ensures One(r.objects, x, d) && Tree(r.objects)
    ensures r.objects[x].links.children != [] && r.objects[x].links.parent.Some?
  {
    TwoIs(x, xy);
    AddAt(show, calls, d, st, 2, xy);
    Between(s, r, d, x, xy);
  }

  lemma Between(s: Server, m: Server, d: Decl, x: Path, xy: Path)
    requires Two(x, xy) && Tree(s.objects) && s.objects.Keys == {ROOT, x} && One(s.objects, x, d) && AddStep(s, xy, d, m)
    ensures One(m.objects, x, d) && Tree(m.objects) && m.objects[x].links.children != [] && m.objects[x].links.parent.Some?
  {
    TwoIs(x, xy);
    assert !SomethingBelow(s.objects, xy);
    assert TreeLinks(m.objects.Keys, x, m.objects[x].links);
    assert ChildOf(m.objects.Keys, xy, x);
  }

  /** Attaching the manager above "/x" breaks the tree. */
  lemma AttachingAboveBreaksTree(show: bool, d: Decl, x: Path)
    requires Usable(show, d) && x != [] && ValidPath(x)
    ensures var calls := [Add(x, d), AttachCall];
            LegalRun(Started(show), calls) && !Tree(Run(Started(show), calls).objects)
  {
    var calls := [Add(x, d), AttachCall];
    var s := RootAbove(show, calls, d, x);
  }

  lemma RootAbove(show: bool, calls: seq<Call>, d: Decl, x: Path) returns (s: Server)
    requires Simple(show, calls) && Usable(show, d) && |calls| == 2 && calls[0] == Add(x, d) && calls[1] == AttachCall
    requires x != [] && ValidPath(x)
    ensures LegalRun(Started(show), calls) && s == Run(Started(show), calls)
    ensures !Tree(s.objects)
  {
    var st := RunStates(show, calls, d);
    s := st[2];
    AfterOne(show, calls, d, st, st[0], st[1], x);
    RootBreaksAt(show, calls, d, st, st[1], s, x);
  }

  lemma RootBreaksAt(show: bool, calls: seq<Call>, d: Decl, st: seq<Server>, s: Server, r: Server, x: Path)
    requires States(show, calls, d, st) && |calls| == 2 && s == st[1] && r == st[2] && calls[1] == AttachCall
    requires Tree(s.objects) && s.objects.Keys == {x} && x != []
    ensures !Tree(r.objects)
  {
    AttachAt(show, calls, d, st, 1);
  }

  // ---- the text of "/" ----

  /** Attaching the manager after "/" was introspected leaves a text without the manager. */
  lemma AttachingLeavesOldText(show: bool, d: Decl)
    requires Usable(show, d)
    ensures var calls := [Add(ROOT, d), IntrospectCall(ROOT), AttachCall]; var s := Run(Started(show), calls);
            LegalRun(Started(show), calls) && [] in s.objects && !Coherent(s.objects, show, [])
  {
    var calls := [Add(ROOT, d), IntrospectCall(ROOT), AttachCall];
    var s := TextKept(show, calls, d);
  }

  lemma TextKept(show: bool, calls: seq<Call>, d: Decl) returns (s: Server)
    requires Simple(show, calls) && Usable(show, d) && |calls| == 3
    requires calls[0] == Add(ROOT, d) && calls[1] == IntrospectCall(ROOT) && calls[2] == AttachCall
    ensures LegalRun(Started(show), calls) && s == Run(Started(show), calls)
    ensures [] in s.objects && !Coherent(s.objects, show, [])
  {
    var st := RunStates(show, calls, d);
    s := st[3];
    FirstText(show, calls, d, st);
    OldTextAt(show, calls, d, st, st[2], s);
  }

  lemma OldTextAt(show: bool, calls: seq<Call>, d: Decl, st: seq<Server>, s: Server, r: Server)
    requires States(show, calls, d, st) && |calls| == 3 && s == st[2] && r == st[3] && calls[2] == AttachCall
    requires CoherentAll(s) && [] in s.objects && s.objects[[]].cache != Empty
    ensures [] in r.objects && !Coherent(r.objects, show, [])
  {
    AttachAt(show, calls, d, st, 2);
    OldText(s, r);
  }

  lemma FirstText(show: bool, calls: seq<Call>, d: Decl, st: seq<Server>)
    requires States(show, calls, d, st) && |calls| == 3 && calls[0] == Add(ROOT, d) && calls[1] == IntrospectCall(ROOT)
    ensures CoherentAll(st[2]) && [] in st[2].objects && st[2].objects[[]].cache != Empty
  {
    AddAt(show, calls, d, st, 0, ROOT);
    assert StepAt(calls, d, st, 0) && StepAt(calls, d, st, 1);
    assert CoherentAll(st[0]);
  }

  lemma OldText(s: Server, r: Server)
    requires AttachStep(s, r) && CoherentAll(s) && [] in s.objects && s.objects[[]].cache != Empty
    ensures [] in r.objects && !Coherent(r.objects, r.showExperimental, [])
  {
    assert Coherent(s.objects, s.showExperimental, []);
  }

  // ---- a refusal that leaves a trace ----

  /** Registering e at "/x/y" is refused, and yet "/x" is announced, which nothing takes back. */
  ghost predicate RefusalShows(s: Server, x: Path, xy: Path, e: Decl) {
    var r := Register(s, xy, e, map[]);
    && !r.ok && !NoTrace(s, r.server, xy)
    && x in s.objects && Announcement(s.showExperimental, x, s.objects[x]) in r.server.out
  }

  /** A refused registration that leaves a trace. */
  lemma RefusalAnnouncesParent(show: bool, d: Decl, x: Path, xy: Path, e: Decl)
    requires Usable(show, d) && Two(x, xy) && ValidInterface(e.name) && !SomethingVisible(show, e)
    ensures var calls := [Add(ROOT, d), Add(x, d), AttachCall];
            LegalRun(Started(show), calls) && RefusalShows(Run(Started(show), calls), x, xy, e)
  {
    var calls := [Add(ROOT, d), Add(x, d), AttachCall];
    var s := NotAnnounced(show, calls, d, x, xy, e);
  }

  /** "/x" was registered before the manager: it is not announced yet. */
  lemma NotAnnounced(show: bool, calls: seq<Call>, d: Decl, x: Path, xy: Path, e: Decl) returns (s: Server)
    requires Simple(show, calls) && Usable(show, d) && |calls| == 3 && Two(x, xy)
    requires calls[0] == Add(ROOT, d) && calls[1] == Add(x, d) && calls[2] == AttachCall
    requires ValidInterface(e.name) && !SomethingVisible(show, e)
    ensures LegalRun(Started(show), calls) && s == Run(Started(show), calls)
    ensures RefusalShows(s, x, xy, e)
  {
    TwoIs(x, xy);
    var st := RunStates(show, calls, d);
    s := st[3];
    AfterTwo(show, calls, d, st, x);
    StillOwedAt(show, calls, d, st, st[2], s, x);
    AnnouncesX(s, x, xy, e);
  }

  lemma StillOwedAt(show: bool, calls: seq<Call>, d: Decl, st: seq<Server>, s: Server, r: Server, x: Path)
    requires States(show, calls, d, st) && |calls| == 3 && s == st[2] && r == st[3] && calls[2] == AttachCall
    requires s.objects.Keys == {ROOT, x} && x != [] && Tree(s.objects) && Orderable(s) && !s.attached
    ensures var s := r; Orderable(s) && s.attached && s.objects.Keys == {ROOT, x} && s.objects[x].added != []
  {
    AttachAt(show, calls, d, st, 2);
    RootHasNoParent(s.objects, []);
  }

  lemma AnnouncesX(s: Server, x: Path, xy: Path, e: Decl)
    requires Sound(s) && Orderable(s) && s.attached && s.objects.Keys == {ROOT, x} && s.objects[x].added != [] && Two(x, xy)
    requires ValidInterface(e.name) && !SomethingVisible(s.showExperimental, e)
    ensures RefusalShows(s, x, xy, e)
  {
    TwoIs(x, xy);
    RegisterNewRefused(s, xy, e, map[]);
    TracesX(s, x, xy, e);
    RefusedInOrder(s, xy, e, map[]);
    OwedX(s.objects, s.showExperimental, x, xy);
  }

  lemma TracesX(s: Server, x: Path, xy: Path, e: Decl)
    requires Sound(s) && Tree(s.objects) && s.attached && s.objects.Keys == {ROOT, x} && s.objects[x].added != [] && Two(x, xy)
    requires ValidInterface(e.name) && !Register(s, xy, e, map[]).ok
    ensures !NoTrace(s, Register(s, xy, e, map[]).server, xy)
  {
    TwoIs(x, xy);
    TreeDoesNotDangle(s.objects);
    NothingListed(s.objects, xy);
    assert OwesNext(s, xy);
    RefusalLeavesNoTraceIff(s, xy, e, map[]);
  }

  lemma OwedX(objs: Table, show: bool, x: Path, xy: Path)
    requires x in objs && objs[x].added != [] && Two(x, xy)
    ensures Announcement(show, x, objs[x]) in OwedOn(objs, show, xy)
  {
    assert Announcement(show, x, objs[x]) in OwedOn(objs, show, x);
  }

  /** Registering e at "/x/y" is refused, and yet "/x" is a child of "/" afterwards, which it was not before. */
  ghost predicate RefusalLinks(s: Server, x: Path, xy: Path, e: Decl) {
    var r := Register(s, xy, e, map[]);
    && !r.ok && !NoTrace(s, r.server, xy) && ROOT in s.objects && ROOT in r.server.objects
    && x !in s.objects[ROOT].links.children && x in r.server.objects[ROOT].links.children
  }

  /** When "/x" was there before the manager was attached, "/" does not list it, and the walk of a refused attempt makes up
      for it. */
  lemma RefusalLinksParent(show: bool, d: Decl, x: Path, xy: Path, e: Decl)
    requires Usable(show, d) && Two(x, xy) && ValidInterface(e.name) && !SomethingVisible(show, e)
    ensures var calls := [Add(x, d), AttachCall];
            LegalRun(Started(show), calls) && RefusalLinks(Run(Started(show), calls), x, xy, e)
  {
    var calls := [Add(x, d), AttachCall];
    TwoIs(x, xy);
    var s := UnlistedX(show, calls, d, x);
    RefusedThere(show, calls, s, x, xy, e);
  }

  lemma UnlistedX(show: bool, calls: seq<Call>, d: Decl, x: Path) returns (s: Server)
    requires Simple(show, calls) && Usable(show, d) && |calls| == 2 && calls[0] == Add(x, d) && calls[1] == AttachCall
    requires x != [] && ValidPath(x)
    ensures LegalRun(Started(show), calls) && s == Run(Started(show), calls) && s.showExperimental == show
    ensures s.objects.Keys == {ROOT, x} && s.objects[ROOT].links == Links(None, [])
  {
    var st := RunStates(show, calls, d);
    s := st[2];
    XAndRoot(show, calls, d, st, s, x);
  }

  lemma XAndRoot(show: bool, calls: seq<Call>, d: Decl, st: seq<Server>, r: Server, x: Path)
    requires States(show, calls, d, st) && |calls| == 2 && r == st[2] && calls[0] == Add(x, d) && calls[1] == AttachCall
    requires x != [] && ValidPath(x)
    ensures r.objects.Keys == {ROOT, x} && r.objects[ROOT].links == Links(None, []) && r.showExperimental == show
  {
    AfterOne(show, calls, d, st, st[0], st[1], x);
    NewRootAt(show, calls, d, st, st[1], r, x);
  }

  lemma RefusedThere(show: bool, calls: seq<Call>, s: Server, x: Path, xy: Path, e: Decl)
    requires LegalRun(Started(show), calls) && s == Run(Started(show), calls) && s.showExperimental == show
    requires forall i :: 0 <= i < |calls| ==> !calls[i].UnregisterCall?
    requires s.objects.Keys == {ROOT, x} && s.objects[ROOT].links == Links(None, []) && Two(x, xy)
    requires ValidInterface(e.name) && !SomethingVisible(show, e)
    ensures RefusalLinks(s, x, xy, e)
  {
    NothingTaken(show, calls);
    RunsLeadSomewhere(show, calls);
    LinksX(s, x, xy, e);
  }

  lemma NothingTaken(show: bool, calls: seq<Call>)
    requires LegalRun(Started(show), calls) && forall i :: 0 <= i < |calls| ==> !calls[i].UnregisterCall?
    ensures LetGoRun(Started(show), calls)
  {
  }

  lemma NewRootAt(show: bool, calls: seq<Call>, d: Decl, st: seq<Server>, s: Server, r: Server, x: Path)
    requires States(show, calls, d, st) && |calls| == 2 && s == st[1] && r == st[2] && calls[1] == AttachCall
    requires Tree(s.objects) && s.objects.Keys == {x} && x != []
    ensures r.objects.Keys == {ROOT, x} && r.objects[ROOT].links == Links(None, [])
  {
    TreeDoesNotDangle(s.objects);
    AttachAt(show, calls, d, st, 1);
  }

  lemma LinksX(s: Server, x: Path, xy: Path, e: Decl)
    requires Sound(s) && NoDangling(s.objects) && s.objects.Keys == {ROOT, x} && s.objects[ROOT].links == Links(None, []) && Two(x, xy)
    requires ValidInterface(e.name) && !SomethingVisible(s.showExperimental, e)
    ensures RefusalLinks(s, x, xy, e)
  {
    TwoIs(x, xy);
    NothingListed(s.objects, xy);
    RegisterNewRefused(s, xy, e, map[]);
    NotSettled(s.objects, x);
    RefusalLeavesNoTraceIff(s, xy, e, map[]);
    RefusedNewPath(s, xy, e, map[]);
  }

  lemma NotSettled(objs: Table, x: Path)
    requires objs.Keys == {ROOT, x} && objs[ROOT].links == Links(None, []) && |x| == 1
    ensures !Settled(objs, x) && x in Invalidate(objs, x).objects[ROOT].links.children
  {
    assert Above(objs.Keys, x) == Some(ROOT);
    WalkStep(objs, x);
    LinkLists(Invalidate(objs, ROOT).objects, ROOT, x);
  }

  // ---- a link to an object that is gone ----

  /** The links of the four objects on the way to "/x/y/z" when "/x" came after "/x/y". */
  ghost predicate Tangled(objs: Table, x: Path, xy: Path, xyz: Path) {
    && objs.Keys == {ROOT, x, xy, xyz}
    && objs[ROOT].links == Links(None, [x, xy]) && objs[x].links == Links(Some(ROOT), [xy])
    && objs[xy].links == Links(Some(x), [xyz]) && objs[xyz].links == Links(Some(xy), [])
  }

  /** The links when "/x" has just come. */
  ghost predicate Late(objs: Table, x: Path, xy: Path) {
    && objs.Keys == {ROOT, xy, x} && objs[ROOT].links == Links(None, [x, xy])
    && objs[x].links == Links(Some(ROOT), []) && objs[xy].links == Links(Some(ROOT), [])
  }

  /** "/" lists "/x/y", which is gone. */
  ghost predicate Stale(objs: Table, xy: Path) {
    ROOT in objs && xy !in objs && xy in objs[ROOT].links.children && !NoDangling(objs)
  }

  ghost predicate Untangled(objs: Table, x: Path, xy: Path) {
    && objs.Keys == {ROOT, x, xy} && objs[ROOT].links == Links(None, [x, xy])
    && objs[x].links == Links(Some(ROOT), [xy]) && objs[xy].links == Links(Some(x), [])
  }

  lemma SomeChild(children: seq<Path>)
    requires children != []
    ensures exists c :: c in children
  {
    assert children[0] in children;
  }

  lemma OnlyChild(children: seq<Path>, c: Path)
    requires NoDuplicates(children) && forall p :: p in children <==> p == c
    ensures children == [c]
  {
    assert c in children;
    assert forall i :: 0 <= i < |children| ==> children[i] in children;
    if |children| > 1 { Repeated(children); }
  }

  lemma Repeated(children: seq<Path>)
    requires |children| > 1 && children[0] == children[1]
    ensures !NoDuplicates(children)
  {
  }

  lemma RootAndXY(objs: Table, x: Path, xy: Path)
    requires Tree(objs) && objs.Keys == {ROOT, xy} && Two(x, xy)
    ensures objs[ROOT].links == Links(None, [xy]) && objs[xy].links == Links(Some(ROOT), [])
  {
    TwoIs(x, xy);
    assert TreeLinks(objs.Keys, ROOT, objs[ROOT].links) && TreeLinks(objs.Keys, xy, objs[xy].links);
    assert ChildOf(objs.Keys, xy, ROOT);
    OnlyChild(objs[ROOT].links.children, xy);
    if objs[xy].links.children != [] { SomeChild(objs[xy].links.children); }
  }

  lemma AfterX(objs: Table, x: Path, xy: Path)
    requires Tree(objs) && objs.Keys == {ROOT, xy} && Two(x, xy)
    ensures Late(Inserted(objs, x), x, xy)
  {
    TwoIs(x, xy);
    RootAndXY(objs, x, xy);
    TreeInserted(objs, x);
    assert Above(objs.Keys, x) == Some(ROOT);
    assert [x] + [xy] == [x, xy];
  }

  lemma WalkedXY(objs: Table, x: Path, xy: Path)
    requires Late(objs, x, xy) && Two(x, xy)
    ensures var w := Invalidate(objs, xy).objects;
            && w[ROOT].links == Links(None, [x, xy]) && w[x].links == Links(Some(ROOT), [xy])
            && w[xy].links == Links(Some(x), [])
  {
    TwoIs(x, xy);
    assert Settled(objs, ROOT) && Settled(objs, x);
    InvalidateSettled(objs, x);
    WalkStep(objs, xy);
    LinkNew(Invalidate(objs, x).objects, x, xy);
    assert [xy] + [] == [xy];
  }

  lemma AfterXYZ(objs: Table, x: Path, xy: Path, xyz: Path)
    requires Late(objs, x, xy) && Three(x, xy, xyz)
    ensures Tangled(Inserted(objs, xyz), x, xy, xyz)
  {
    TwoIs(x, xy);
    WalkedXY(objs, x, xy);
    InsertedLinks(objs, xyz);
    assert Above(objs.Keys, xyz) == Some(xy);
    assert [xyz] + [] == [xyz];
  }

  lemma TangledIsSettled(objs: Table, x: Path, xy: Path, xyz: Path)
    requires Tangled(objs, x, xy, xyz) && Three(x, xy, xyz)
    ensures Settled(objs, xyz)
  {
    TwoIs(x, xy);
    assert Settled(objs, ROOT) && Settled(objs, x) && Settled(objs, xy);
  }

  lemma WithoutXYZ(objs: Table, x: Path, xy: Path, xyz: Path)
    requires Tangled(objs, x, xy, xyz) && Three(x, xy, xyz)
    ensures Untangled(Removed(objs, xyz), x, xy)
  {
    TwoIs(x, xy);
    TangledIsSettled(objs, x, xy, xyz);
    RemovedLinks(objs, xyz);
    assert RemoveFirst([xyz], xyz) == [];
    assert Removed(objs, xyz).Keys == {ROOT, x, xy};
  }

  lemma StaleXY(objs: Table, x: Path, xy: Path)
    requires Untangled(objs, x, xy) && Two(x, xy)
    ensures var t := Removed(objs, xy); ROOT in t && xy !in t && xy in t[ROOT].links.children
  {
    UntangledIsSettled(objs, x, xy);
    RemovedLinks(objs, xy);
    assert xy in [x, xy];
  }

  lemma UntangledIsSettled(objs: Table, x: Path, xy: Path)
    requires Untangled(objs, x, xy) && Two(x, xy)
    ensures Settled(objs, xy)
  {
    TwoIs(x, xy);
    assert Settled(objs, ROOT) && Settled(objs, x);
  }

  /** "/x" registered after "/x/y", then "/x/y/z", and from there on everything in order: "/x/y/z" and then "/x/y"
      unregistered. "/x/y" stays on the child list of "/". In the C code the next listing follows that entry to memory that
      was freed; here it is skipped, and registering "/x/y" again makes it good. */
  lemma StaleChildStays(show: bool, d: Decl, x: Path, xy: Path, xyz: Path)
    requires Usable(show, d) && Three(x, xy, xyz)
    ensures var calls := [Add(ROOT, d), Add(xy, d), Add(x, d), Add(xyz, d), Take(xyz, d), Take(xy, d)];
            LegalRun(Started(show), calls) && Stale(Run(Started(show), calls).objects, xy)
  {
    var calls := [Add(ROOT, d), Add(xy, d), Add(x, d), Add(xyz, d), Take(xyz, d), Take(xy, d)];
    var s := BecomesStale(show, calls, d, x, xy, xyz);
  }

  lemma BecomesStale(show: bool, calls: seq<Call>, d: Decl, x: Path, xy: Path, xyz: Path) returns (s: Server)
    requires Simple(show, calls) && Usable(show, d) && |calls| == 6 && Three(x, xy, xyz)
    requires calls[0] == Add(ROOT, d) && calls[1] == Add(xy, d) && calls[2] == Add(x, d) && calls[3] == Add(xyz, d)
    requires calls[4] == Take(xyz, d) && calls[5] == Take(xy, d)
    ensures LegalRun(Started(show), calls) && s == Run(Started(show), calls)
    ensures Stale(s.objects, xy)
  {
    TwoIs(x, xy);
    var st := RunStates(show, calls, d);
    s := st[6];
    AfterTwo(show, calls, d, st, xy);
    LateAt(show, calls, d, st, st[2], st[3], x, xy);
    TangledAt(show, calls, d, st, st[3], st[4], x, xy, xyz);
    UntangledAt(show, calls, d, st, st[4], st[5], x, xy, xyz);
    StaleAt(show, calls, d, st, st[5], s, x, xy);
  }

  lemma TangledAt(show: bool, calls: seq<Call>, d: Decl, st: seq<Server>, s: Server, r: Server, x: Path, xy: Path, xyz: Path)
    requires States(show, calls, d, st) && |calls| == 6 && s == st[3] && r == st[4] && Three(x, xy, xyz) && calls[3] == Add(xyz, d)
    requires Late(s.objects, x, xy) && One(s.objects, xy, d)
    ensures Tangled(r.objects, x, xy, xyz) && One(r.objects, xy, d) && One(r.objects, xyz, d)
  {
    TwoIs(x, xy);
    AddAt(show, calls, d, st, 3, xyz);
    TangledAfter(s, r, d, x, xy, xyz);
  }

  lemma TangledAfter(s: Server, r: Server, d: Decl, x: Path, xy: Path, xyz: Path)
    requires AddStep(s, xyz, d, r) && Late(s.objects, x, xy) && One(s.objects, xy, d) && Three(x, xy, xyz)
    ensures Tangled(r.objects, x, xy, xyz) && One(r.objects, xy, d) && One(r.objects, xyz, d)
  {
    AfterXYZ(s.objects, x, xy, xyz);
    TangledLinks(Inserted(s.objects, xyz), r.objects, x, xy, xyz);
  }

  lemma TangledLinks(a: Table, b: Table, x: Path, xy: Path, xyz: Path)
    requires SameLinks(a, b) && Tangled(a, x, xy, xyz)
    ensures Tangled(b, x, xy, xyz)
  {
  }

  lemma LateAt(show: bool, calls: seq<Call>, d: Decl, st: seq<Server>, s: Server, r: Server, x: Path, xy: Path)
    requires States(show, calls, d, st) && |calls| == 6 && s == st[2] && r == st[3] && Two(x, xy) && calls[2] == Add(x, d)
    requires Tree(s.objects) && s.objects.Keys == {ROOT, xy} && One(s.objects, xy, d)
    ensures Late(r.objects, x, xy) && One(r.objects, xy, d)
  {
    TwoIs(x, xy);
    AddAt(show, calls, d, st, 2, x);
    AfterX(s.objects, x, xy);
    LateLinks(Inserted(s.objects, x), r.objects, x, xy);
  }

  lemma LateLinks(a: Table, b: Table, x: Path, xy: Path)
    requires SameLinks(a, b) && Late(a, x, xy)
    ensures Late(b, x, xy)
  {
  }

  lemma UntangledAt(show: bool, calls: seq<Call>, d: Decl, st: seq<Server>, s: Server, r: Server, x: Path, xy: Path, xyz: Path)
    requires States(show, calls, d, st) && |calls| == 6 && s == st[4] && r == st[5] && Three(x, xy, xyz) && calls[4] == Take(xyz, d)
    requires Tangled(s.objects, x, xy, xyz) && One(s.objects, xy, d) && One(s.objects, xyz, d)
    ensures Untangled(r.objects, x, xy) && One(r.objects, xy, d)
  {
    TwoIs(x, xy);
    TakeAt(show, calls, d, st, 4, xyz);
    WithoutXYZ(s.objects, x, xy, xyz);
    UntangledLinks(Removed(s.objects, xyz), r.objects, x, xy);
  }

  lemma UntangledLinks(a: Table, b: Table, x: Path, xy: Path)
    requires SameLinks(a, b) && Untangled(a, x, xy)
    ensures Untangled(b, x, xy)
  {
  }

  lemma StaleAt(show: bool, calls: seq<Call>, d: Decl, st: seq<Server>, s: Server, r: Server, x: Path, xy: Path)
    requires States(show, calls, d, st) && |calls| == 6 && s == st[5] && r == st[6] && Two(x, xy) && calls[5] == Take(xy, d)
    requires Untangled(s.objects, x, xy) && One(s.objects, xy, d)
    ensures Stale(r.objects, xy)
  {
    TakeAt(show, calls, d, st, 5, xy);
    StaleXY(s.objects, x, xy);
    StaleLinks(Removed(s.objects, xy), r.objects, xy);
  }

  lemma StaleLinks(a: Table, b: Table, xy: Path)
    requires SameLinks(a, b) && ROOT in a && xy !in a && xy in a[ROOT].links.children
    ensures Stale(b, xy)
  {
    assert !Leads(b.Keys, b[ROOT].links);
  }
}
