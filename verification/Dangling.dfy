/** Links to objects that are gone, in any order of calls: registering never makes one, and unregistering makes one exactly
    when the last interface of an object goes that is held from somewhere else.
 */
module Dangling {
  import opened Bus
  import opened ObjectModel
  import opened ObjectCore
  import opened ObjectLifetime
  import opened ObjectTree
  import opened UpwardLinks

  lemma LinkLeads(objs: Table, d: Path, c: Path)
    requires NoDangling(objs) && d in objs && |d| < |c|
    ensures NoDangling(Link(objs, d, c))
  {
    var r := Link(objs, d, c);
    forall p | p in r ensures Leads(r.Keys, r[p].links) {
      assert Leads(objs.Keys, objs[p].links);
    }
  }

  lemma {:induction false} InvalidateLeads(objs: Table, c: Path)
    requires NoDangling(objs)
    ensures NoDangling(Invalidate(objs, c).objects)
    decreases |c|
  {
    if c != [] {
      InvalidateLeads(objs, Parent(c));
      var up := Invalidate(objs, Parent(c));
      var data := if Parent(c) in objs then Some(Parent(c)) else up.data;
      if data.Some? { LinkLeads(up.objects, data.value, c); }
    }
  }

  lemma InsertedLeads(objs: Table, p: Path)
    requires NoDangling(objs)
    ensures NoDangling(Inserted(objs, p))
  {
    var base := objs[p := FRESH_NODE];
    forall q | q in base ensures Leads(base.Keys, base[q].links) {
      assert q != p ==> Leads(objs.Keys, objs[q].links);
    }
    InvalidateLeads(base, p);
  }

  lemma LeadsSame(a: Table, b: Table)
    requires SameLinks(a, b)
    ensures NoDangling(a) <==> NoDangling(b)
  {
    forall p | p in a ensures Leads(a.Keys, a[p].links) <==> Leads(b.Keys, b[p].links) {
      assert a[p].links == b[p].links;
    }
  }

  /** Someone other than its parent lists `p`, or someone it does not list has it as parent. */
  ghost predicate HeldBy(objs: Table, p: Path, q: Path)
    requires p in objs && q in objs
  {
    || (objs[p].links.parent != Some(q) && p in objs[q].links.children)
    || (objs[q].links.parent == Some(p) && q !in objs[p].links.children)
  }

  /** Held from elsewhere, once the walk up from the path has completed the links on its way. */
  ghost predicate Held(objs: Table, p: Path)
    requires p in objs
  {
    SomeoneHolds(Invalidate(objs, p).objects, p)
  }

  ghost predicate SomeoneHolds(objs: Table, p: Path)
    requires p in objs
  {
    exists q :: q in objs && q != p && HeldBy(objs, p, q)
  }

  lemma DropLeads(objs: Table, p: Path, q: Path)
    requires NoDangling(objs) && Upward(objs) && p in objs && q in objs && q != p
    ensures var t := Drop(objs, p); Leads(t.Keys, t[q].links) <==> !HeldBy(objs, p, q)
  {
    DropLinks(objs, p);
    assert Leads(objs.Keys, objs[q].links) && Leads(objs.Keys, objs[p].links);
    assert Points(objs[p].links, p) && Points(objs[q].links, q);
    LinksWithout(objs.Keys, objs[q].links, objs[p].links, p, q);
  }

  /** The links of q when p goes, whose links were `gone`. */
  lemma LinksWithout(keys: set<Path>, l: Links, gone: Links, p: Path, q: Path)
    requires p in keys && q in keys && q != p && Leads(keys, l) && Leads(keys, gone) && Points(gone, p) && NoDuplicates(l.children)
    ensures Leads(keys - {p}, Links(if q in gone.children then gone.parent else l.parent,
                                    if gone.parent == Some(q) then RemoveFirst(l.children, p) else l.children))
            <==> !((gone.parent != Some(q) && p in l.children) || (l.parent == Some(p) && q !in gone.children))
  {
    RemoveFirstOfUnique(l.children, p);
  }

  /** Removing a path leaves a link to it exactly when it is held from elsewhere. */
  lemma RemoveDanglesIff(objs: Table, p: Path)
    requires NoDangling(objs) && Upward(objs) && p in objs
    ensures NoDangling(Removed(objs, p)) <==> !Held(objs, p)
  {
    var mid := Invalidate(objs, p).objects;
    InvalidateLeads(objs, p);
    InvalidateUpward(objs, p);
    forall q | q in mid && q != p ensures Leads(Drop(mid, p).Keys, Drop(mid, p)[q].links) <==> !HeldBy(mid, p, q) {
      DropLeads(mid, p, q);
    }
  }

  lemma NothingListed(objs: Table, p: Path)
    requires NoDangling(objs) && p !in objs
    ensures Unlisted(objs, p)
  {
    forall q | q in objs ensures p !in objs[q].links.children { assert Leads(objs.Keys, objs[q].links); }
  }

  /** A path that is tried and given up leaves the links as the walk above it makes them. */
  lemma TriedLeads(objs: Table, p: Path)
    requires NoDangling(objs) && p !in objs
    ensures NoDangling(Removed(Inserted(objs, p), p))
  {
    NothingListed(objs, p);
    InsertRemoveWalks(objs, p);
    if p != [] { InvalidateLeads(objs, Parent(p)); }
    LeadsSame(Walked(objs, p), Removed(Inserted(objs, p), p));
  }

  // ---- calls and runs ----

  lemma StoredLeads(t: Table, p: Path, n: Node, r: Table)
    requires NoDangling(t) && p in t && n.links == t[p].links && SameCores(t[p := n], r)
    ensures NoDangling(r)
  {
    CoresHaveLinks(t[p := n], r);
    LeadsSame(t, r);
  }

  lemma CoresLead(t: Table, r: Table)
    requires SameCores(t, r)
    ensures NoDangling(t) <==> NoDangling(r)
  {
    CoresHaveLinks(t, r);
    LeadsSame(t, r);
  }

  /** Registering an interface, at any path and in any order, never makes a dangling link. */
  lemma RegisterLeads(s: Server, p: Path, d: Decl, state: map<Name, Variant>)
    requires Sound(s) && NoDangling(s.objects)
    ensures NoDangling(Register(s, p, d, state).server.objects)
  {
    assert p in s.objects ==> Counted(s.objects[p]);
    RegisterHasEffect(s, p, d, state);
    RegisterEffectLeads(s, p, d, state, Register(s, p, d, state));
  }

  lemma RegisterEffectLeads(s: Server, p: Path, d: Decl, state: map<Name, Variant>, r: Outcome)
    requires NoDangling(s.objects) && RegisterEffect(s, p, d, state, r)
    ensures NoDangling(r.server.objects)
  {
    if !ValidPath(p) || !ValidInterface(d.name) {
    } else if p in s.objects {
      var n := s.objects[p];
      if Accepts(s.showExperimental, n, d) {
        StoredLeads(s.objects, p, Accepted(n.(refcount := n.refcount + 1), d, state), r.server.objects);
      }
    } else if Accepts(s.showExperimental, FreshNode(s.objects, p), d) {
      InsertedLeads(s.objects, p);
      FreshLinks(s.objects, p);
      StoredLeads(Inserted(s.objects, p), p, Accepted(FreshNode(s.objects, p), d, state), r.server.objects);
    } else {
      TriedLeads(s.objects, p);
      CoresLead(Removed(Inserted(s.objects, p), p), r.server.objects);
    }
  }

  /** Unregistering an interface leaves a dangling link exactly when it was the last of an object held from elsewhere. */
  lemma UnregisterDanglesIff(s: Server, p: Path, name: Name)
    requires Sound(s) && NoDangling(s.objects) && Upward(s.objects)
    ensures var r := Unregister(s, p, name);
            && (r.ok ==> p in s.objects)
            && (NoDangling(r.server.objects) <==> !(r.ok && s.objects[p].refcount == 1 && Held(s.objects, p)))
  {
    assert p in s.objects ==> Counted(s.objects[p]);
    UnregisterHasEffect(s, p, name);
    UnregisterEffectDangles(s, p, name, Unregister(s, p, name));
  }

  lemma UnregisterEffectDangles(s: Server, p: Path, name: Name, r: Outcome)
    requires NoDangling(s.objects) && Upward(s.objects) && UnregisterEffect(s, p, name, r)
    requires p in s.objects ==> s.objects[p].refcount >= 1
    ensures r.ok ==> p in s.objects
    ensures NoDangling(r.server.objects) <==> !(r.ok && s.objects[p].refcount == 1 && Held(s.objects, p))
  {
    if p in s.objects && Has(s.objects[p].ifaces, name) {
      if s.objects[p].refcount > 1 {
        StoredLeads(s.objects, p, Released(s.objects[p], name), r.server.objects);
      } else {
        RemoveDanglesIff(s.objects, p);
        CoresLead(Removed(s.objects, p), r.server.objects);
      }
    }
  }

  lemma AttachLeads(s: Server)
    requires Sound(s) && NoDangling(s.objects)
    ensures NoDangling(Attach(s).objects)
  {
    AttachHasEffect(s);
    AttachEffectLeads(s, Attach(s));
  }

  lemma AttachEffectLeads(s: Server, r: Server)
    requires NoDangling(s.objects) && AttachEffect(s, r)
    ensures NoDangling(r.objects)
  {
    if ROOT in s.objects {
      var n := s.objects[ROOT];
      StoredLeads(s.objects, ROOT, Managed(n.(refcount := n.refcount + 1)), r.objects);
    } else {
      InsertedLeads(s.objects, ROOT);
      FreshLinks(s.objects, ROOT);
      StoredLeads(Inserted(s.objects, ROOT), ROOT, Managed(FreshNode(s.objects, ROOT)), r.objects);
    }
  }

  /** The call does not take the last interface from an object that is held from elsewhere. */
  ghost predicate LetsGo(s: Server, call: Call) {
    !(call.UnregisterCall? && call.path in s.objects && Has(s.objects[call.path].ifaces, call.name)
      && s.objects[call.path].refcount == 1 && Held(s.objects, call.path))
  }

  /** Every legal call in any order keeps links good, but for the one case. */
  lemma PerformDanglesIff(s: Server, call: Call)
    requires Sound(s) && NoDangling(s.objects) && Upward(s.objects) && Legal(s, call)
    ensures NoDangling(Perform(s, call).objects) <==> LetsGo(s, call)
  {
    match call
    case RegisterCall(p, d, state) => RegisterLeads(s, p, d, state);
    case UnregisterCall(p, name) => TakingDanglesIff(s, p, name);
    case ChangeCall(p, iface, prop, value, flush) => ChangeLeads(s, p, iface, prop, value, flush);
    case IntrospectCall(p) => if p in s.objects { IntrospectLeads(s, p); }
    case AttachCall => AttachLeads(s);
  }

  lemma IntrospectLeads(s: Server, p: Path)
    requires NoDangling(s.objects) && p in s.objects
    ensures NoDangling(Introspect(s, p).objects)
  {
    LeadsSame(s.objects, Introspect(s, p).objects);
  }

  lemma TakingDanglesIff(s: Server, p: Path, name: Name)
    requires Sound(s) && NoDangling(s.objects) && Upward(s.objects)
    ensures NoDangling(Unregister(s, p, name).server.objects) <==> LetsGo(s, UnregisterCall(p, name))
  {
    UnregisterDanglesIff(s, p, name);
    UnregisterOk(s, p, name);
  }

  lemma UnregisterOk(s: Server, p: Path, name: Name)
    requires Sound(s)
    ensures Unregister(s, p, name).ok <==> p in s.objects && Has(s.objects[p].ifaces, name)
  {
    assert p in s.objects ==> Counted(s.objects[p]);
    UnregisterHasEffect(s, p, name);
  }

  lemma ChangeLeads(s: Server, p: Path, iface: Name, prop: Name, value: Option<Variant>, flush: bool)
    requires Sound(s) && NoDangling(s.objects)
    ensures NoDangling(ChangeProperty(s, p, iface, prop, value, flush).objects)
  {
    ChangeHasEffect(s, p, iface, prop, value, flush);
    if p in s.objects && Has(s.objects[p].ifaces, iface) {
      var n := WithState(s.objects[p], Find(s.objects[p].ifaces, iface), prop, value);
      StoredLeads(s.objects, p, n, ChangeProperty(s, p, iface, prop, value, flush).objects);
    }
  }

  ghost predicate LetGoRun(s: Server, calls: seq<Call>) {
    LegalRun(s, calls) && forall i :: 0 <= i < |calls| ==> LetsGo(Run(s, calls[..i]), calls[i])
  }

  lemma LetGoPrefix(s: Server, calls: seq<Call>, k: nat)
    requires LetGoRun(s, calls) && k <= |calls|
    ensures LetGoRun(s, calls[..k])
  {
    forall i | 0 <= i < k
      ensures Legal(Run(s, calls[..k][..i]), calls[..k][i]) && LetsGo(Run(s, calls[..k][..i]), calls[..k][i])
    {
      assert calls[..k][..i] == calls[..i];
    }
  }

  /** In every legal run, in any order, in which no object goes that is held from elsewhere, no link ever leads to an object
      that is gone; and the first such removal makes one that does. */
  lemma {:induction false} RunsLeadSomewhere(show: bool, calls: seq<Call>)
    requires LetGoRun(Started(show), calls)
    ensures var s := Run(Started(show), calls);
            && Sound(s) && Upward(s.objects) && NoDangling(s.objects)
            && forall call :: Legal(s, call) ==> (NoDangling(Perform(s, call).objects) <==> LetsGo(s, call))
  {
    RunsPointUpward(show, calls);
    var s := Run(Started(show), calls);
    if calls != [] {
      var k := |calls| - 1;
      LetGoPrefix(Started(show), calls, k);
      RunsLeadSomewhere(show, calls[..k]);
    }
    forall call | Legal(s, call) ensures NoDangling(Perform(s, call).objects) <==> LetsGo(s, call) {
      PerformDanglesIff(s, call);
    }
  }
}
