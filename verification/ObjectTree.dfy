/** The tree of exported objects: parent pointers, child lists, and the listing
    that GetManagedObjects walks.
 */
module ObjectTree {
  import opened Bus
  import opened ObjectModel
  import opened ObjectCore
  import opened ObjectLifetime

  /** The nearest proper ancestor of `p` among the registered paths. */
  function Above(keys: set<Path>, p: Path): (a: Option<Path>)
    ensures a.Some? ==> a.value in keys && |a.value| < |p|
    decreases |p|
  {
    if p == [] then None
    else if Parent(p) in keys then Some(Parent(p))
    else Above(keys, Parent(p))
  }

  lemma ParentIsPrefix(p: Path, x: Path)
    requires p != []
    ensures Parent(p) == x || x < Parent(p) ==> x < p
  {
  }

  lemma ProperPrefix(p: Path, a: Path)
    requires p <= a && p != a
    ensures p < a
  {
    assert a[..|p|] == p;
    assert a == a[..|p|] + a[|p|..];
  }

  lemma PrefixOfParent(q: Path, p: Path)
    requires q < p
    ensures q <= Parent(p)
  {
  }

  /** `Above` is the longest registered proper prefix. */
  lemma {:induction false} AboveIsNearest(keys: set<Path>, p: Path, q: Path)
    requires q in keys && q < p
    ensures Above(keys, p).Some? && q <= Above(keys, p).value
    decreases |p|
  {
    PrefixOfParent(q, p);
    if Parent(p) !in keys {
      ProperPrefix(q, Parent(p));
      AboveIsNearest(keys, Parent(p), q);
    }
  }

  lemma {:induction false} AboveIsPrefix(keys: set<Path>, p: Path)
    ensures Above(keys, p).Some? ==> Above(keys, p).value < p
    decreases |p|
  {
    if p != [] && Parent(p) !in keys {
      AboveIsPrefix(keys, Parent(p));
    }
  }

  ghost predicate NoDuplicates<T>(xs: seq<T>) {
    forall i, j :: 0 <= i < j < |xs| ==> xs[i] != xs[j]
  }

  predicate ChildOf(keys: set<Path>, c: Path, p: Path) {
    c in keys && Above(keys, c) == Some(p)
  }

  ghost predicate TreeLinks(keys: set<Path>, p: Path, links: Links) {
    && links.parent == Above(keys, p)
    && NoDuplicates(links.children)
    && (forall c :: c in links.children <==> ChildOf(keys, c, p))
  }

  ghost predicate SameLinks(a: Table, b: Table) {
    a.Keys == b.Keys && forall p :: p in a ==> a[p].links == b[p].links
  }

  /** Parent pointers lead to the nearest registered ancestor, and a child list holds, once each, exactly
      the objects whose parent pointer leads here. */
  ghost predicate Tree(objs: Table) {
    forall p :: p in objs ==> TreeLinks(objs.Keys, p, objs[p].links)
  }

  /** Whether an object has a given path depends only on the paths above it. */
  lemma {:induction false} AboveOfKeys(a: set<Path>, b: set<Path>, p: Path, x: Path)
    requires a == b + {x} && !(x < p)
    ensures Above(a, p) == Above(b, p)
    decreases |p|
  {
    if p != [] {
      ParentIsPrefix(p, x);
      if Parent(p) !in a {
        AboveOfKeys(a, b, Parent(p), x);
      }
    }
  }

  lemma TreeOfLinks(a: Table, b: Table)
    requires SameLinks(a, b) && Tree(a)
    ensures Tree(b)
  {
  }

  lemma CoresHaveLinks(a: Table, b: Table)
    requires SameCores(a, b)
    ensures SameLinks(a, b)
  {
    forall p | p in a ensures a[p].links == b[p].links {
      assert SameCore(a[p], b[p]);
    }
  }

  // ---------------------------------------------------------------------
  // Invalidating a settled path only clears cached texts

  /** Every registered path on the way to `c` is already in the child list above it. */
  ghost predicate Settled(objs: Table, c: Path)
    decreases |c|
  {
    c == [] ||
    (Settled(objs, Parent(c)) &&
     (c in objs && Above(objs.Keys, c).Some? ==> c in objs[Above(objs.Keys, c).value].links.children))
  }

  lemma LinkSettled(objs: Table, d: Path, c: Path)
    requires d in objs && |d| < |c| && (c in objs ==> c in objs[d].links.children)
    ensures SameLinks(objs, Link(objs, d, c))
  {
  }

  lemma {:induction false} WalkFinds(objs: Table, c: Path)
    ensures Invalidate(objs, c).data == Above(objs.Keys, c)
    decreases |c|
  {
    if c != [] { WalkFinds(objs, Parent(c)); }
  }

  /** One step of the walk: the rest of the way up, and then the last link. */
  lemma {:induction false} WalkStep(objs: Table, c: Path)
    requires c != []
    ensures var up := Invalidate(objs, Parent(c)).objects; var d := Above(objs.Keys, c);
            && (d.Some? ==> d.value in up && |d.value| < |c|)
            && Invalidate(objs, c).objects == if d.None? then up else Link(up, d.value, c)
  {
    WalkFinds(objs, c);
  }

  lemma {:induction false} InvalidateSettled(objs: Table, c: Path)
    requires Settled(objs, c)
    ensures SameLinks(objs, Invalidate(objs, c).objects)
    decreases |c|
  {
    if c != [] {
      InvalidateSettled(objs, Parent(c));
      WalkStep(objs, c);
      var d := Above(objs.Keys, c);
      if d.Some? { LinkSettled(Invalidate(objs, Parent(c)).objects, d.value, c); }
    }
  }

  /** No child list gets shorter. */
  ghost predicate ListsGrow(a: Table, b: Table) {
    a.Keys == b.Keys && forall q :: q in a ==> |a[q].links.children| <= |b[q].links.children|
  }

  lemma LinkGrows(objs: Table, d: Path, c: Path)
    requires d in objs && |d| < |c|
    ensures ListsGrow(objs, Link(objs, d, c))
  {
  }

  /** An unsettled path gets onto a list on which it was not. */
  lemma {:induction false} UnsettledGrows(objs: Table, c: Path) returns (q: Path)
    requires !Settled(objs, c)
    ensures q in objs && |objs[q].links.children| < |Invalidate(objs, c).objects[q].links.children|
    decreases |c|
  {
    var up := Invalidate(objs, Parent(c)).objects;
    var d := Above(objs.Keys, c);
    WalkStep(objs, c);
    if Settled(objs, Parent(c)) {
      InvalidateSettled(objs, Parent(c));
      assert objs[d.value].links == up[d.value].links;
      LinkNew(up, d.value, c);
      q := d.value;
    } else {
      q := UnsettledGrows(objs, Parent(c));
      if d.Some? { LinkGrows(up, d.value, c); }
    }
  }

  /** The walk leaves every link as it was exactly when every registered path on the way is listed above it. */
  lemma WalkKeepsLinksIff(objs: Table, c: Path)
    ensures SameLinks(objs, Invalidate(objs, c).objects) <==> Settled(objs, c)
  {
    if Settled(objs, c) {
      InvalidateSettled(objs, c);
    } else {
      var q := UnsettledGrows(objs, c);
      assert objs[q].links != Invalidate(objs, c).objects[q].links;
    }
  }

  lemma LinkKeepsListed(objs: Table, d: Path, c: Path, a: Path, b: Path)
    requires d in objs && |d| < |c| && a in objs && b in objs[a].links.children
    ensures b in Link(objs, d, c)[a].links.children
  {
  }

  lemma {:induction false} LinkKeepsSettled(objs: Table, d: Path, c: Path, b: Path)
    requires Settled(objs, b) && d in objs && |d| < |c|
    ensures Settled(Link(objs, d, c), b)
    decreases |b|
  {
    if b != [] {
      LinkKeepsSettled(objs, d, c, Parent(b));
      var a := Above(objs.Keys, b);
      if b in objs && a.Some? { LinkKeepsListed(objs, d, c, a.value, b); }
    }
  }

  lemma LinkLists(objs: Table, d: Path, c: Path)
    requires d in objs && |d| < |c| && c in objs
    ensures c in Link(objs, d, c)[d].links.children
  {
  }

  /** After the walk every registered path on the way is listed above it. */
  lemma {:induction false} WalkSettles(objs: Table, c: Path)
    ensures Settled(Invalidate(objs, c).objects, c)
    decreases |c|
  {
    if c != [] {
      var up := Invalidate(objs, Parent(c)).objects;
      var d := Above(objs.Keys, c);
      WalkSettles(objs, Parent(c));
      WalkStep(objs, c);
      if d.Some? {
        LinkKeepsSettled(up, d.value, c, Parent(c));
        if c in objs { LinkLists(up, d.value, c); }
      }
    }
  }

  lemma {:induction false} TreeSettled(objs: Table, c: Path)
    requires Tree(objs)
    ensures Settled(objs, c)
    decreases |c|
  {
    if c != [] {
      TreeSettled(objs, Parent(c));
      var a := Above(objs.Keys, c);
      if c in objs && a.Some? {
        assert TreeLinks(objs.Keys, a.value, objs[a.value].links);
        assert ChildOf(objs.Keys, c, a.value);
      }
    }
  }

  // ---------------------------------------------------------------------
  // Registering a path

  /** The table after the walk up from a path, which does not touch the path itself. */
  function Walked(objs: Table, p: Path): (r: Table)
    ensures r.Keys == objs.Keys
  {
    if p == [] then objs else Invalidate(objs, Parent(p)).objects
  }

  lemma LinkUnder(objs: Table, p: Path, n: Node, d: Path, c: Path)
    requires p !in objs && d in objs && |d| < |c| && c != p
    ensures Link(objs[p := n], d, c) == Link(objs, d, c)[p := n]
  {
  }

  lemma {:induction false} WalkUnder(objs: Table, p: Path, n: Node, c: Path)
    requires p !in objs && |c| < |p|
    ensures Invalidate(objs[p := n], c).objects == Invalidate(objs, c).objects[p := n]
    decreases |c|
  {
    if c != [] {
      WalkUnder(objs, p, n, Parent(c));
      WalkStep(objs, c);
      WalkStep(objs[p := n], c);
      AboveOfKeys(objs[p := n].Keys, objs.Keys, c, p);
      var d := Above(objs.Keys, c);
      if d.Some? { LinkUnder(Invalidate(objs, Parent(c)).objects, p, n, d.value, c); }
    }
  }

  /** No object lists the path. */
  ghost predicate Unlisted(objs: Table, p: Path) {
    forall q :: q in objs ==> p !in objs[q].links.children
  }

  lemma {:induction false} WalkUnlisted(objs: Table, p: Path, c: Path)
    requires Unlisted(objs, p) && |c| < |p|
    ensures Unlisted(Invalidate(objs, c).objects, p)
    decreases |c|
  {
    if c != [] {
      WalkUnlisted(objs, p, Parent(c));
      WalkStep(objs, c);
    }
  }

  lemma LinkNew(objs: Table, d: Path, c: Path)
    requires d in objs && |d| < |c| && c in objs && c !in objs[d].links.children
    ensures var t := Link(objs, d, c);
            && t[c].links == Links(Some(d), objs[c].links.children)
            && t[d].links == Links(objs[d].links.parent, [c] + objs[d].links.children)
            && forall q :: q in objs && q != c && q != d ==> t[q].links == objs[q].links
  {
  }

  function Prepended(links: Links, p: Path): Links {
    Links(links.parent, [p] + links.children)
  }

  /** The links after `p` is registered: `p` is the first child of the object above it. */
  ghost predicate LinkedIn(objs: Table, p: Path, a: Option<Path>, t: Table) {
    && p in t && t.Keys == objs.Keys + {p}
    && t[p].links == Links(a, [])
    && forall q :: q in objs ==> t[q].links == if a == Some(q) then Prepended(objs[q].links, p) else objs[q].links
  }

  /** Registering a path that no object lists: the walk above it, and then its own link. */
  lemma {:induction false} InsertedLinks(objs: Table, p: Path)
    requires p !in objs && Unlisted(objs, p)
    ensures LinkedIn(Walked(objs, p), p, Above(objs.Keys, p), Inserted(objs, p))
  {
    var base := objs[p := FRESH_NODE];
    if p != [] {
      var a := Above(objs.Keys, p);
      WalkUnder(objs, p, FRESH_NODE, Parent(p));
      WalkUnlisted(objs, p, Parent(p));
      WalkStep(base, p);
      AboveOfKeys(base.Keys, objs.Keys, p, p);
      if a.Some? { LinkNew(Walked(objs, p)[p := FRESH_NODE], a.value, p); }
    }
  }

  lemma TreeWalked(objs: Table, p: Path)
    requires Tree(objs)
    ensures SameLinks(objs, Walked(objs, p))
  {
    if p != [] {
      TreeSettled(objs, Parent(p));
      InvalidateSettled(objs, Parent(p));
    }
  }

  lemma TreeInserted(objs: Table, p: Path)
    requires Tree(objs) && p !in objs
    ensures LinkedIn(objs, p, Above(objs.Keys, p), Inserted(objs, p))
  {
    forall q | q in objs ensures p !in objs[q].links.children { NotYetChild(objs, q, p); }
    InsertedLinks(objs, p);
    TreeWalked(objs, p);
    LinkedInOfLinks(objs, Walked(objs, p), p, Above(objs.Keys, p), Inserted(objs, p));
  }

  lemma LinkedInOfLinks(objs: Table, w: Table, p: Path, a: Option<Path>, t: Table)
    requires SameLinks(objs, w) && LinkedIn(w, p, a, t)
    ensures LinkedIn(objs, p, a, t)
  {
  }

  lemma NotYetChild(objs: Table, a: Path, p: Path)
    requires Tree(objs) && a in objs && p !in objs
    ensures p !in objs[a].links.children
  {
    assert TreeLinks(objs.Keys, a, objs[a].links);
    assert !ChildOf(objs.Keys, p, a);
  }

  lemma InsertKeepsTree(objs: Table, p: Path)
    requires Tree(objs) && p !in objs && forall q :: q in objs ==> !(p < q)
    ensures Tree(Inserted(objs, p))
  {
    var t := Inserted(objs, p);
    TreeInserted(objs, p);
    var a := Above(objs.Keys, p);
    AboveOfKeys(t.Keys, objs.Keys, p, p);
    forall q | q in t ensures TreeLinks(t.Keys, q, t[q].links) {
      if q != p {
        assert TreeLinks(objs.Keys, q, objs[q].links);
        AboveOfKeys(t.Keys, objs.Keys, q, p);
        assert !ChildOf(objs.Keys, p, q);
      }
      forall c ensures c in t[q].links.children <==> ChildOf(t.Keys, c, q) {
        if c in objs { AboveOfKeys(t.Keys, objs.Keys, c, p); }
        assert q != p ==> (c in objs[q].links.children <==> ChildOf(objs.Keys, c, q));
      }
    }
  }

  /** A path registered above `q` is not where the parent pointer of `q`, or of something between them, leads. */
  lemma {:induction false} InsertAboveBreaksTree(objs: Table, p: Path, q: Path)
    requires Tree(objs) && p !in objs && q in objs && p < q
    ensures !Tree(Inserted(objs, p))
    decreases |q|
  {
    var t := Inserted(objs, p);
    TreeInserted(objs, p);
    AboveIsNearest(t.Keys, q, p);
    AboveIsPrefix(t.Keys, q);
    var a := Above(t.Keys, q).value;
    if a != p {
      ProperPrefix(p, a);
      InsertAboveBreaksTree(objs, p, a);
    } else {
      assert TreeLinks(objs.Keys, q, objs[q].links);
      assert t[q].links.parent == objs[q].links.parent;
      assert !TreeLinks(t.Keys, q, t[q].links);
    }
  }

  /** Registering a new path keeps the tree in order exactly when nothing below it is registered yet. */
  lemma InsertTreeIff(objs: Table, p: Path)
    requires Tree(objs) && p !in objs
    ensures Tree(Inserted(objs, p)) <==> forall q :: q in objs ==> !(p < q)
  {
    if q :| q in objs && p < q {
      InsertAboveBreaksTree(objs, p, q);
    } else {
      InsertKeepsTree(objs, p);
    }
  }

  // ---------------------------------------------------------------------
  // Removing a path

  /** The links after `p` goes: its children point above it, but no list takes them. */
  ghost predicate LinkedOut(objs: Table, p: Path, t: Table)
    requires p in objs
  {
    var gone := objs[p].links;
    && t.Keys == objs.Keys - {p}
    && forall q :: q in t ==>
         t[q].links == Links(if q in gone.children then gone.parent else objs[q].links.parent,
                             if gone.parent == Some(q) then RemoveFirst(objs[q].links.children, p) else objs[q].links.children)
  }

  lemma DropLinks(objs: Table, p: Path)
    requires p in objs
    ensures LinkedOut(objs, p, Drop(objs, p))
  {
  }

  lemma LinkedOutOfLinks(a: Table, b: Table, p: Path, t: Table)
    requires SameLinks(a, b) && p in a && LinkedOut(b, p, t)
    ensures LinkedOut(a, p, t)
  {
    assert a[p].links == b[p].links;
    forall q | q in t ensures a[q].links == b[q].links {
    }
  }

  lemma RemovedLinks(objs: Table, p: Path)
    requires p in objs && Settled(objs, p)
    ensures LinkedOut(objs, p, Removed(objs, p))
  {
    InvalidateSettled(objs, p);
    var mid := Invalidate(objs, p).objects;
    DropLinks(mid, p);
    LinkedOutOfLinks(objs, mid, p, Drop(mid, p));
  }

  /** Whatever is registered below `p` is below one of its children. */
  lemma {:induction false} ChildOnTheWay(objs: Table, p: Path, q: Path) returns (c: Path)
    requires Tree(objs) && p in objs && q in objs && p < q
    ensures c in objs[p].links.children && c <= q && c in objs
    decreases |q|
  {
    AboveIsNearest(objs.Keys, q, p);
    AboveIsPrefix(objs.Keys, q);
    var a := Above(objs.Keys, q).value;
    assert TreeLinks(objs.Keys, p, objs[p].links);
    if a == p {
      c := q;
      assert ChildOf(objs.Keys, q, p);
    } else {
      ProperPrefix(p, a);
      c := ChildOnTheWay(objs, p, a);
    }
  }

  lemma {:induction false} RemoveFirstMembers<T>(xs: seq<T>, x: T, y: T)
    requires NoDuplicates(xs)
    ensures y in RemoveFirst(xs, x) <==> y in xs && y != x
  {
    if xs != [] {
      assert xs == [xs[0]] + xs[1..];
      if xs[0] != x {
        RemoveFirstMembers(xs[1..], x, y);
      } else {
        assert x !in xs[1..];
      }
    }
  }

  lemma {:induction false} RemoveFirstOfUnique<T>(xs: seq<T>, x: T)
    requires NoDuplicates(xs)
    ensures NoDuplicates(RemoveFirst(xs, x))
    ensures forall y :: y in RemoveFirst(xs, x) <==> y in xs && y != x
  {
    forall y ensures y in RemoveFirst(xs, x) <==> y in xs && y != x { RemoveFirstMembers(xs, x, y); }
    if xs != [] && xs[0] != x {
      RemoveFirstOfUnique(xs[1..], x);
      RemoveFirstMembers(xs[1..], x, xs[0]);
    }
  }

  /** Taking a path away makes what was right below it look further up. */
  lemma {:induction false} AboveWithout(a: set<Path>, b: set<Path>, q: Path, x: Path)
    requires a == b + {x} && x !in b
    ensures Above(b, q) == if Above(a, q) == Some(x) then Above(a, x) else Above(a, q)
    decreases |q|
  {
    if q != [] {
      if Parent(q) == x {
        AboveOfKeys(a, b, x, x);
      } else if Parent(q) !in b {
        AboveWithout(a, b, Parent(q), x);
      }
    }
  }

  lemma RemoveKeepsTree(objs: Table, p: Path, t: Table)
    requires Tree(objs) && p in objs && LinkedOut(objs, p, t)
    requires objs[p].links.children == [] || objs[p].links.parent.None?
    ensures Tree(t)
  {
    assert objs.Keys == t.Keys + {p};
    assert TreeLinks(objs.Keys, p, objs[p].links);
    forall q | q in t ensures TreeLinks(t.Keys, q, t[q].links) {
      assert TreeLinks(objs.Keys, q, objs[q].links);
      AboveWithout(objs.Keys, t.Keys, q, p);
      assert ChildOf(objs.Keys, q, p) <==> q in objs[p].links.children;
      RemoveFirstOfUnique(objs[q].links.children, p);
      forall c ensures c in t[q].links.children <==> ChildOf(t.Keys, c, q) {
        AboveWithout(objs.Keys, t.Keys, c, p);
        assert c in objs[q].links.children <==> ChildOf(objs.Keys, c, q);
        assert ChildOf(objs.Keys, c, p) <==> c in objs[p].links.children;
      }
    }
  }

  lemma RemoveBreaksTree(objs: Table, p: Path, t: Table)
    requires Tree(objs) && p in objs && LinkedOut(objs, p, t)
    requires objs[p].links.children != [] && objs[p].links.parent.Some?
    ensures !Tree(t)
  {
    assert objs.Keys == t.Keys + {p};
    assert TreeLinks(objs.Keys, p, objs[p].links);
    var a := objs[p].links.parent.value;
    var c := objs[p].links.children[0];
    assert ChildOf(objs.Keys, c, p);
    AboveWithout(objs.Keys, t.Keys, c, p);
    assert ChildOf(t.Keys, c, a);
    assert TreeLinks(objs.Keys, a, objs[a].links);
    RemoveFirstOfUnique(objs[a].links.children, p);
    assert c !in t[a].links.children;
    assert !TreeLinks(t.Keys, a, t[a].links);
  }

  /** Removing a path keeps the tree in order exactly when the object has no children, or nothing above it
      that would have to take them. */
  lemma RemoveTreeIff(objs: Table, p: Path)
    requires Tree(objs) && p in objs
    ensures Tree(Removed(objs, p)) <==> objs[p].links.children == [] || objs[p].links.parent.None?
  {
    TreeSettled(objs, p);
    RemovedLinks(objs, p);
    if objs[p].links.children == [] || objs[p].links.parent.None? {
      RemoveKeepsTree(objs, p, Removed(objs, p));
    } else {
      RemoveBreaksTree(objs, p, Removed(objs, p));
    }
  }

  /** A path that no object lists, registered and removed again: what is left is what the walk above it did. */
  lemma InsertRemoveWalks(objs: Table, p: Path)
    requires p !in objs && Unlisted(objs, p)
    ensures SameLinks(Walked(objs, p), Removed(Inserted(objs, p), p))
  {
    var t := Inserted(objs, p);
    InsertedLinks(objs, p);
    WalkSettles(objs[p := FRESH_NODE], p);
    RemovedLinks(t, p);
    BackOut(Walked(objs, p), t, Removed(t, p), p, Above(objs.Keys, p));
  }

  lemma BackOut(w: Table, t: Table, r: Table, p: Path, a: Option<Path>)
    requires p !in w && LinkedIn(w, p, a, t) && LinkedOut(t, p, r)
    ensures SameLinks(w, r)
  {
    assert r.Keys == w.Keys;
    forall q | q in w ensures w[q].links == r[q].links {
      assert a == Some(q) ==> t[q].links == Prepended(w[q].links, p);
      FirstGoes(w[q].links.children, p);
    }
  }

  lemma FirstGoes(xs: seq<Path>, p: Path)
    ensures RemoveFirst([p] + xs, p) == xs
  {
  }

  /** It leaves every link as it was exactly when every registered path above it is listed above that. */
  lemma InsertRemoveLinksIff(objs: Table, p: Path)
    requires p !in objs && Unlisted(objs, p)
    ensures SameLinks(objs, Removed(Inserted(objs, p), p)) <==> p == [] || Settled(objs, Parent(p))
  {
    InsertRemoveWalks(objs, p);
    if p != [] { WalkKeepsLinksIff(objs, Parent(p)); }
    LinksThrough(objs, Walked(objs, p), Removed(Inserted(objs, p), p));
  }

  lemma LinksThrough(a: Table, b: Table, c: Table)
    requires SameLinks(b, c)
    ensures SameLinks(a, b) <==> SameLinks(a, c)
  {
    if a.Keys == b.Keys {
      forall q | q in a ensures b[q].links == c[q].links {}
    }
  }

  lemma TreeInsertRemove(objs: Table, p: Path)
    requires Tree(objs) && p !in objs
    ensures SameLinks(objs, Removed(Inserted(objs, p), p))
  {
    forall q | q in objs ensures p !in objs[q].links.children { NotYetChild(objs, q, p); }
    if p != [] { TreeSettled(objs, Parent(p)); }
    InsertRemoveLinksIff(objs, p);
  }

  // ---------------------------------------------------------------------
  // Runs

  /** The order the callers follow: parents before children, and children are gone before their parent is. */
  ghost predicate Orderly(s: Server, call: Call) {
    match call
    case RegisterCall(p, d, _) => p !in s.objects ==> forall q :: q in s.objects ==> !(p < q)
    case UnregisterCall(p, name) =>
      p in s.objects && Has(s.objects[p].ifaces, name) && s.objects[p].refcount == 1 ==> s.objects[p].links.children == []
    case AttachCall => [] in s.objects || s.objects == map[]
    case _ => true
  }

  lemma StoreTree(objs: Table, p: Path, n: Node, r: Table)
    requires Tree(objs) && p in objs && n.links == objs[p].links && SameCores(objs[p := n], r)
    ensures Tree(r)
  {
    CoresHaveLinks(objs[p := n], r);
    assert SameLinks(objs, objs[p := n]);
    TreeOfLinks(objs, r);
  }

  lemma FreshLinks(objs: Table, p: Path)
    ensures FreshNode(objs, p).links == Inserted(objs, p)[p].links
  {
  }

  /** Something below `p` is registered. */
  ghost predicate SomethingBelow(objs: Table, p: Path) {
    exists q :: q in objs && p < q
  }

  lemma LinksDecideTree(a: Table, b: Table)
    requires SameLinks(a, b)
    ensures Tree(a) <==> Tree(b)
  {
    if Tree(a) { TreeOfLinks(a, b); }
    if Tree(b) { TreeOfLinks(b, a); }
  }

  lemma RegisterTree(s: Server, p: Path, d: Decl, state: map<Name, Variant>, r: Outcome)
    requires Tree(s.objects) && RegisterEffect(s, p, d, state, r)
    ensures Tree(r.server.objects) <==> !(r.ok && p !in s.objects && SomethingBelow(s.objects, p))
  {
    if !ValidPath(p) || !ValidInterface(d.name) {
    } else if p in s.objects {
      var n := s.objects[p];
      if Accepts(s.showExperimental, n, d) {
        StoreTree(s.objects, p, Accepted(n.(refcount := n.refcount + 1), d, state), r.server.objects);
      }
    } else {
      var n := FreshNode(s.objects, p);
      if Accepts(s.showExperimental, n, d) {
        InsertedTree(s.objects, p, Accepted(n, d, state), r.server.objects);
      } else {
        RefusedTree(s.objects, p, r.server.objects);
      }
    }
  }

  lemma InsertedTree(objs: Table, p: Path, n: Node, r: Table)
    requires Tree(objs) && p !in objs && n.links == FreshNode(objs, p).links && SameCores(Inserted(objs, p)[p := n], r)
    ensures Tree(r) <==> !SomethingBelow(objs, p)
  {
    InsertTreeIff(objs, p);
    FreshLinks(objs, p);
    CoresHaveLinks(Inserted(objs, p)[p := n], r);
    LinksDecideTree(Inserted(objs, p), r);
  }

  lemma RefusedTree(objs: Table, p: Path, r: Table)
    requires Tree(objs) && p !in objs && SameCores(Removed(Inserted(objs, p), p), r)
    ensures Tree(r)
  {
    TreeInsertRemove(objs, p);
    CoresHaveLinks(Removed(Inserted(objs, p), p), r);
    TreeOfLinks(objs, Removed(Inserted(objs, p), p));
    TreeOfLinks(Removed(Inserted(objs, p), p), r);
  }

  /** Registering an interface keeps the tree in order exactly when it is not the first of an object above another. */
  lemma RegisterTreeIff(s: Server, p: Path, d: Decl, state: map<Name, Variant>)
    requires Sound(s) && Tree(s.objects)
    ensures var r := Register(s, p, d, state);
            Tree(r.server.objects) <==> !(r.ok && p !in s.objects && SomethingBelow(s.objects, p))
  {
    assert p in s.objects ==> Counted(s.objects[p]);
    RegisterHasEffect(s, p, d, state);
    RegisterTree(s, p, d, state, Register(s, p, d, state));
  }

  lemma UnregisterTree(s: Server, p: Path, name: Name, r: Outcome)
    requires Tree(s.objects) && UnregisterEffect(s, p, name, r) && (p in s.objects ==> s.objects[p].refcount >= 1)
    ensures Tree(r.server.objects)
            <==> !(r.ok && s.objects[p].refcount == 1 && s.objects[p].links.children != [] && s.objects[p].links.parent.Some?)
  {
    if p in s.objects && Has(s.objects[p].ifaces, name) {
      if s.objects[p].refcount > 1 {
        StoreTree(s.objects, p, Released(s.objects[p], name), r.server.objects);
      } else {
        RemoveTreeIff(s.objects, p);
        CoresHaveLinks(Removed(s.objects, p), r.server.objects);
        LinksDecideTree(Removed(s.objects, p), r.server.objects);
      }
    }
  }

  /** Unregistering an interface keeps the tree in order exactly when it is not the last of an object between others. */
  lemma UnregisterTreeIff(s: Server, p: Path, name: Name)
    requires Sound(s) && Tree(s.objects)
    ensures var r := Unregister(s, p, name);
            && (r.ok ==> p in s.objects)
            && (Tree(r.server.objects)
                <==> !(r.ok && s.objects[p].refcount == 1 && s.objects[p].links.children != [] && s.objects[p].links.parent.Some?))
  {
    assert p in s.objects ==> Counted(s.objects[p]);
    UnregisterHasEffect(s, p, name);
    UnregisterTree(s, p, name, Unregister(s, p, name));
  }

  lemma ChangeTree(s: Server, p: Path, iface: Name, name: Name, value: Option<Variant>, r: Server)
    requires Tree(s.objects) && ChangeEffect(s, p, iface, name, value, r)
    ensures Tree(r.objects)
  {
    if p in s.objects && Has(s.objects[p].ifaces, iface) {
      StoreTree(s.objects, p, WithState(s.objects[p], Find(s.objects[p].ifaces, iface), name, value), r.objects);
    }
  }

  lemma AttachTree(s: Server, r: Server)
    requires Tree(s.objects) && AttachEffect(s, r)
    ensures Tree(r.objects) <==> [] in s.objects || s.objects == map[]
  {
    if [] in s.objects {
      var n := s.objects[[]];
      StoreTree(s.objects, [], WithIface(n.(refcount := n.refcount + 1), MANAGER_DECL, map[]), r.objects);
    } else {
      InsertedTree(s.objects, [], WithIface(FreshNode(s.objects, []), MANAGER_DECL, map[]), r.objects);
      if s.objects != map[] {
        var q :| q in s.objects;
        ProperPrefix([], q);
      }
    }
  }

  /** Attaching the manager keeps the tree in order exactly when "/" is registered or nothing is. */
  lemma AttachTreeIff(s: Server)
    requires Sound(s) && Tree(s.objects)
    ensures Tree(Attach(s).objects) <==> [] in s.objects || s.objects == map[]
  {
    AttachHasEffect(s);
    AttachTree(s, Attach(s));
  }

  lemma IntrospectTree(s: Server, p: Path)
    requires Tree(s.objects) && p in s.objects
    ensures Tree(Introspect(s, p).objects)
  {
    TreeOfLinks(s.objects, Introspect(s, p).objects);
  }

  /** Every orderly call keeps the tree in order. */
  lemma PerformTree(s: Server, call: Call)
    requires Sound(s) && Tree(s.objects) && Legal(s, call) && Orderly(s, call)
    ensures Tree(Perform(s, call).objects)
  {
    match call
    case RegisterCall(p, d, state) => RegisterTreeIff(s, p, d, state);
    case UnregisterCall(p, name) =>
      if !(p in s.objects && Has(s.objects[p].ifaces, name)) { UnregisterRefused(s, p, name); }
      UnregisterTreeIff(s, p, name);
    case ChangeCall(p, iface, prop, value, flush) =>
      ChangeHasEffect(s, p, iface, prop, value, flush);
      ChangeTree(s, p, iface, prop, value, ChangeProperty(s, p, iface, prop, value, flush));
    case IntrospectCall(p) => if p in s.objects { IntrospectTree(s, p); }
    case AttachCall => AttachTreeIff(s);
  }

  ghost predicate OrderlyRun(s: Server, calls: seq<Call>)
  {
    forall i :: 0 <= i < |calls| ==> Legal(Run(s, calls[..i]), calls[i]) && Orderly(Run(s, calls[..i]), calls[i])
  }

  /** Every link leads to a registered object. */
  ghost predicate NoDangling(objs: Table) {
    forall p :: p in objs ==> Leads(objs.Keys, objs[p].links)
  }

  ghost predicate Leads(keys: set<Path>, l: Links) {
    (l.parent.Some? ==> l.parent.value in keys) && forall c :: c in l.children ==> c in keys
  }

  lemma TreeDoesNotDangle(objs: Table)
    requires Tree(objs)
    ensures NoDangling(objs)
  {
    forall p | p in objs ensures Leads(objs.Keys, objs[p].links) {
      assert TreeLinks(objs.Keys, p, objs[p].links);
    }
  }

  /** In every orderly run no link leads to an object that is gone, so whoever follows one finds an object. */
  lemma RunsDoNotDangle(show: bool, calls: seq<Call>)
    requires OrderlyRun(Started(show), calls)
    ensures NoDangling(Run(Started(show), calls).objects)
  {
    RunsKeepTree(show, calls);
    TreeDoesNotDangle(Run(Started(show), calls).objects);
  }

  /** In every orderly run each registered object's parent pointer leads to its nearest registered
      ancestor, and the child lists match the parent pointers without repetition. */
  lemma {:induction false} RunsKeepTree(show: bool, calls: seq<Call>)
    requires OrderlyRun(Started(show), calls)
    ensures Sound(Run(Started(show), calls)) && Tree(Run(Started(show), calls).objects)
  {
    if calls != [] {
      var k := |calls| - 1;
      var rest := calls[..k];
      forall i | 0 <= i < |rest|
        ensures Legal(Run(Started(show), rest[..i]), rest[i]) && Orderly(Run(Started(show), rest[..i]), rest[i])
      {
        assert rest[..i] == calls[..i];
      }
      RunsKeepTree(show, rest);
      PerformSound(Run(Started(show), rest), calls[k]);
      PerformTree(Run(Started(show), rest), calls[k]);
    }
  }

  // ---------------------------------------------------------------------
  // The listing

  predicate UnderOne(children: seq<Path>, q: Path) {
    exists i :: 0 <= i < |children| && children[i] <= q
  }

  /** No path twice, and none before one above it. */
  ghost predicate ParentsFirst(l: seq<Path>) {
    forall i, j :: 0 <= i < j < |l| ==> !(l[j] <= l[i])
  }

  /** What the listing of a child list must be: each registered path at or below one of the children, once. */
  ghost predicate ListsBelow(objs: Table, children: seq<Path>, listed: seq<Path>) {
    && ParentsFirst(listed)
    && (forall q :: q in listed <==> q in objs && UnderOne(children, q))
  }

  ghost predicate Siblings(objs: Table, children: seq<Path>, p: Path) {
    && NoDuplicates(children)
    && (forall i :: 0 <= i < |children| ==> ChildOf(objs.Keys, children[i], p))
  }

  lemma SiblingsApart(objs: Table, p: Path, c: Path, d: Path, q: Path)
    requires ChildOf(objs.Keys, c, p) && ChildOf(objs.Keys, d, p) && c <= q && d <= q
    ensures c == d
  {
    if |c| < |d| {
      assert c < d;
      AboveIsNearest(objs.Keys, d, c);
    } else if |d| < |c| {
      assert d < c;
      AboveIsNearest(objs.Keys, c, d);
    }
  }

  lemma {:induction false} NodeListing(objs: Table, c: Path)
    requires Tree(objs) && c in objs
    ensures ParentsFirst(ListNode(objs, c))
    ensures forall q :: q in ListNode(objs, c) <==> q in objs && c <= q
    decreases |Deeper(objs, |c|)|, |objs[c].links.children| + 1
  {
    assert TreeLinks(objs.Keys, c, objs[c].links);
    var children := objs[c].links.children;
    forall i | 0 <= i < |children| ensures ChildOf(objs.Keys, children[i], c) && c < children[i] {
      assert children[i] in children;
      AboveIsPrefix(objs.Keys, children[i]);
    }
    NodesListing(objs, c, |c|, children);
    var below := ListNodes(objs, |c|, children);
    BelowChildren(objs, c, below);
    WithRoot(objs, c, below);
  }

  lemma WithRoot(objs: Table, c: Path, below: seq<Path>)
    requires c in objs && ParentsFirst(below) && forall q :: q in below <==> q in objs && c < q
    ensures ParentsFirst([c] + below)
    ensures forall q :: q in [c] + below <==> q in objs && c <= q
  {
    forall q ensures q in [c] + below <==> q in objs && c <= q {
      assert c <= q <==> c == q || c < q;
    }
    forall i | 0 <= i < |below| ensures c < below[i] { assert below[i] in below; }
  }

  lemma BelowChildren(objs: Table, c: Path, below: seq<Path>)
    requires Tree(objs) && c in objs && ListsBelow(objs, objs[c].links.children, below)
    requires forall i :: 0 <= i < |objs[c].links.children| ==> c < objs[c].links.children[i]
    ensures forall q :: q in below <==> q in objs && c < q
  {
    var children := objs[c].links.children;
    forall q ensures q in below <==> q in objs && c < q {
      if q in objs && c < q {
        var d := ChildOnTheWay(objs, c, q);
        var i :| 0 <= i < |children| && children[i] == d;
        assert UnderOne(children, q);
      }
      if q in below {
        var i :| 0 <= i < |children| && children[i] <= q;
        BelowChild(c, children[i], q);
      }
    }
  }

  lemma BelowChild(c: Path, d: Path, q: Path)
    requires c < d <= q
    ensures c < q
  {
    forall i | 0 <= i < |c| ensures c[i] == q[i] { assert c[i] == d[i] == q[i]; }
    assert q[..|c|] == c;
  }

  lemma {:induction false} NodesListing(objs: Table, p: Path, depth: nat, children: seq<Path>)
    requires Tree(objs) && Siblings(objs, children, p)
    requires forall i :: 0 <= i < |children| ==> depth < |children[i]|
    ensures ListsBelow(objs, children, ListNodes(objs, depth, children))
    decreases |Deeper(objs, depth)|, |children|
  {
    if children != [] {
      var c, rest := children[0], children[1..];
      assert ChildOf(objs.Keys, c, p);
      DeeperShrinks(objs, depth, c);
      NodeListing(objs, c);
      NodesListing(objs, p, depth, rest);
      JoinListings(objs, p, children, ListNode(objs, c), ListNodes(objs, depth, rest));
    }
  }

  lemma UnderFirst(children: seq<Path>, q: Path)
    requires children != []
    ensures UnderOne(children, q) <==> children[0] <= q || UnderOne(children[1..], q)
  {
    var rest := children[1..];
    if i :| 0 <= i < |rest| && rest[i] <= q { assert children[i + 1] <= q; }
    if i :| 0 < i < |children| && children[i] <= q { assert rest[i - 1] <= q; }
  }

  lemma JoinListings(objs: Table, p: Path, children: seq<Path>, first: seq<Path>, others: seq<Path>)
    requires children != [] && Siblings(objs, children, p)
    requires ParentsFirst(first) && forall q :: q in first <==> q in objs && children[0] <= q
    requires ListsBelow(objs, children[1..], others)
    ensures ListsBelow(objs, children, first + others)
  {
    var rest := children[1..];
    forall q ensures UnderOne(children, q) <==> children[0] <= q || UnderOne(rest, q) { UnderFirst(children, q); }
    var l := first + others;
    forall i, j | 0 <= i < j < |l| ensures !(l[j] <= l[i]) {
      if i < |first| <= j {
        assert l[i] in first && l[j] in others;
        var k :| 0 <= k < |rest| && rest[k] <= l[j];
        assert rest[k] == children[k + 1];
        if l[j] <= l[i] {
          Between(rest[k], l[j], l[i]);
          SiblingsApart(objs, p, children[0], children[k + 1], l[i]);
        }
      }
    }
  }

  lemma Between(a: Path, b: Path, c: Path)
    requires a <= b <= c
    ensures a <= c
  {
  }

  lemma PathsListing(objs: Table)
    requires Tree(objs) && [] in objs
    ensures ParentsFirst(ListNodes(objs, 0, objs[[]].links.children))
    ensures forall q :: q in ListNodes(objs, 0, objs[[]].links.children) <==> q in objs && q != []
  {
    NodeListing(objs, []);
    WithoutFirst(objs, ListNode(objs, []), ListNodes(objs, 0, objs[[]].links.children));
  }

  lemma WithoutFirst(objs: Table, all: seq<Path>, l: seq<Path>)
    requires all == [[]] + l && ParentsFirst(all) && forall q :: q in all <==> q in objs && [] <= q
    ensures ParentsFirst(l) && forall q :: q in l <==> q in objs && q != []
  {
    forall i | 0 <= i < |l| ensures l[i] != [] { assert all[i + 1] == l[i] && all[0] == [] && !(all[i + 1] <= all[0]); }
    forall q ensures q in l <==> q in objs && q != [] {
      assert q in all <==> q == [] || q in l;
    }
    forall i, j | 0 <= i < j < |l| ensures !(l[j] <= l[i]) {
      assert l[i] == all[i + 1] && l[j] == all[j + 1];
    }
  }

  /** A listing of objects that names every registered path but "/" exactly once and none before one above it, with all its
      interfaces. */
  ghost predicate ExactListing(s: Server, m: seq<ObjectEntry>) {
    && (forall i, j :: 0 <= i < j < |m| ==> !(m[j].path <= m[i].path))
    && (forall i :: 0 <= i < |m| ==> m[i].path in s.objects && m[i].path != [])
    && (forall i :: 0 <= i < |m| ==> m[i].ifaces == IfaceEntries(s.showExperimental, s.objects[m[i].path].ifaces))
    && (forall p :: p in s.objects && p != [] ==> exists i :: 0 <= i < |m| && m[i].path == p)
  }

  lemma {:induction false} EntriesAreExact(s: Server, paths: seq<Path>)
    requires ParentsFirst(paths) && forall q :: q in paths <==> q in s.objects && q != []
    ensures ExactListing(s, ObjectEntries(s, paths))
  {
    var m := ObjectEntries(s, paths);
    forall i | 0 <= i < |m| ensures m[i].path in s.objects && m[i].path != [] {
      assert paths[i] in paths;
    }
    forall p | p in s.objects && p != [] ensures exists i :: 0 <= i < |m| && m[i].path == p {
      assert p in paths;
      var i :| 0 <= i < |paths| && paths[i] == p;
      assert m[i].path == p;
    }
  }

  /** In an ordered tree rooted at "/", GetManagedObjects lists every other registered path exactly once, after those above
      it, with all interfaces of its object. */
  lemma ListingIsExact(s: Server)
    requires Tree(s.objects) && [] in s.objects
    ensures ExactListing(s, GetManagedObjects(s).objects)
  {
    PathsListing(s.objects);
    EntriesAreExact(s, ListNodes(s.objects, 0, s.objects[[]].links.children));
  }
}
