/** The whole effect of adding and of removing a watch: which listeners and watches come and go, in which order, and that
    nothing else changes.
 */
module WatchChanges {
  import opened Bus
  import opened Watches
  import opened WatchSafety

  // ---- removal ----

  /** After the watch, what goes is the watch that a listener emptied by this kept on the owner of its name, and so on. */
  ghost predicate Chain(r: Registry, r': Registry, id: nat, t: seq<Event>) {
    && OnlyDestroys(t) && (t == [] <==> id == 0 || !Live(r, id)) && (t != [] ==> t[0] == Destroyed(id))
    && forall i :: 0 <= i < |t| ==> Linked(r, r', t, i)
  }

  ghost predicate Linked(r: Registry, r': Registry, t: seq<Event>, i: nat)
    requires i < |t| && t[i].Destroyed?
  {
    Live(r, t[i].id) && forall h :: h in r.heap && Holds(r.heap[h], t[i].id) ==> Follows(r, r', h, t, i)
  }

  ghost predicate Follows(r: Registry, r': Registry, h: nat, t: seq<Event>, i: nat)
    requires h in r.heap
  {
    if i + 1 < |t| then h !in r'.heap && t[i + 1] == Destroyed(r.heap[h].nameWatch)
    else h in r'.heap || r.heap[h].nameWatch == 0 || !Live(r', r.heap[h].nameWatch)
  }

  /** An idle listener goes exactly when a watch of it is removed and none is left. */
  ghost predicate EmptiedGo(r: Registry, r': Registry, t: seq<Event>) {
    forall k :: k in r.heap ==> (k in r'.heap <==> r.heap[k].lock || !Touched(r.heap[k], t) || !AllGone(r.heap[k], t))
  }

  ghost predicate Touched(l: Listener, t: seq<Event>) {
    exists c :: c in All(l) && c.id in Gone(t)
  }

  ghost predicate AllGone(l: Listener, t: seq<Event>) {
    forall c :: c in All(l) ==> c.id in Gone(t)
  }

  /** Removing a watch: it and nothing else goes, with the idle listeners that this leaves empty and the watches that these
      kept on the owners of their names. */
  lemma {:induction false} RemovalExact(r: Registry, id: nat) returns (t: seq<Event>)
    requires Inv(r)
    ensures var r' := RemoveWatch(r, id);
            && Inv(r') && r'.trace == r.trace + t && Reduces(r, r', Gone(t)) && Chain(r, r', id, t) && EmptiedGo(r, r', t)
    decreases |r.order|
  {
    t := [];
    HolderIsLive(r, id);
    var h := Holder(r.order, r.heap, id);
    if id == 0 || h.None? {
      ReducesNothing(r);
      assert r.trace + [] == r.trace;
    } else if Cut(r, h.value, id).heap[h.value].callbacks != [] || r.heap[h.value].lock {
      t := [Destroyed(id)];
      CutOnly(r, h.value, id);
      CutChain(r, h.value, id, Cut(r, h.value, id));
    } else {
      var m, n := Freed(Cut(r, h.value, id), h.value), r.heap[h.value].nameWatch;
      CutAndFree(r, h.value, id);
      var t2 := RemovalExact(m, n);
      var _ := RemoveSafe(m, n);
      FreedChain(r, h.value, id, m, n, RemoveWatch(m, n), t2);
      t := [Destroyed(id)] + t2;
    }
  }

  lemma OnlyOne(r: Registry, h: nat, id: nat, k: nat)
    requires Inv(r) && h in r.heap && k in r.heap && Holds(r.heap[h], id) && Holds(r.heap[k], id)
    ensures h == k
  {
    if h != k { OnlyHolder(r, h, k, id); }
  }

  lemma TouchedBy(r: Registry, h: nat, id: nat, k: nat)
    requires Inv(r) && h in r.heap && k in r.heap && Holds(r.heap[h], id)
    ensures Touched(r.heap[k], [Destroyed(id)]) <==> k == h
  {
    assert Gone([Destroyed(id)]) == {id};
    HoldsIsIn(r.heap[h], id);
    HoldsIsIn(r.heap[k], id);
    if k != h { OnlyHolder(r, h, k, id); }
  }

  /** Other watches are left, or a message is being delivered. */
  lemma CutChain(r: Registry, h: nat, id: nat, r': Registry)
    requires Inv(r) && h in r.heap && Holds(r.heap[h], id) && id != 0 && r' == Cut(r, h, id)
    requires r'.heap[h].callbacks != [] || r.heap[h].lock
    ensures Chain(r, r', id, [Destroyed(id)]) && EmptiedGo(r, r', [Destroyed(id)])
  {
    var t := [Destroyed(id)];
    assert Live(r, id);
    assert Gone(t) == {id};
    forall k | k in r.heap ensures k in r'.heap <==> r.heap[k].lock || !Touched(r.heap[k], t) || !AllGone(r.heap[k], t) {
      TouchedBy(r, h, id, k);
      if k == h && !r.heap[h].lock { SomeLeft(r, h, id); }
    }
  }

  lemma SomeLeft(r: Registry, h: nat, id: nat)
    requires Inv(r) && h in r.heap && Cut(r, h, id).heap[h].callbacks != []
    ensures !AllGone(r.heap[h], [Destroyed(id)])
  {
    assert Gone([Destroyed(id)]) == {id};
    assert Neat(r.heap[h], r.lastId);
    CutListener(r.heap[h], id);
    KeepMembers(r.heap[h].callbacks, {id});
    var c := Cut(r, h, id).heap[h].callbacks[0];
    assert c in Keep(r.heap[h].callbacks, {id});
    assert c in All(r.heap[h]) && c.id != id;
  }

  /** The listener goes, and then the watch on the owner of its name. */
  lemma FreedChain(r: Registry, h: nat, id: nat, m: Registry, n: nat, r': Registry, t: seq<Event>)
    requires Inv(r) && h in r.heap && Holds(r.heap[h], id) && id != 0 && !r.heap[h].lock && n == r.heap[h].nameWatch
    requires Reduces(r, m, {id}) && m.heap.Keys == r.heap.Keys - {h} && forall c :: c in All(r.heap[h]) ==> c.id == id
    requires m.trace == r.trace + [Destroyed(id)] && r'.trace == m.trace + t && (n != 0 ==> !Live(r', n))
    requires Reduces(m, r', Gone(t)) && Chain(m, r', n, t) && EmptiedGo(m, r', t)
    ensures var t' := [Destroyed(id)] + t;
            r'.trace == r.trace + t' && Reduces(r, r', Gone(t')) && Chain(r, r', id, t') && EmptiedGo(r, r', t')
  {
    var t' := [Destroyed(id)] + t;
    BothGone(r.trace, id, t);
    ReducesTwice(r, m, r', {id}, Gone(t));
    OthersSame(r, h, id, m);
    assert Live(r, id);
    ChainMore(r, h, id, m, n, r', t, t');
    EmptiedMore(r, h, id, m, r', t, t');
  }

  lemma BothGone(trace: seq<Event>, id: nat, t: seq<Event>)
    ensures Gone([Destroyed(id)] + t) == {id} + Gone(t) && trace + [Destroyed(id)] + t == trace + ([Destroyed(id)] + t)
  {
    assert Gone([Destroyed(id)]) == {id};
    GoneConcat([Destroyed(id)], t);
  }

  lemma OthersSame(r: Registry, h: nat, id: nat, m: Registry)
    requires Inv(r) && h in r.heap && Holds(r.heap[h], id) && Reduces(r, m, {id}) && m.heap.Keys == r.heap.Keys - {h}
    ensures forall k :: k in m.heap ==> m.heap[k] == r.heap[k]
  {
    forall k | k in m.heap ensures m.heap[k] == r.heap[k] { OthersShrink(r, h, k, id); }
  }

  lemma EmptiedMore(r: Registry, h: nat, id: nat, m: Registry, r': Registry, t: seq<Event>, t': seq<Event>)
    requires Inv(r) && h in r.heap && Holds(r.heap[h], id) && !r.heap[h].lock && Gone(t') == {id} + Gone(t)
    requires m.heap.Keys == r.heap.Keys - {h} && (forall k :: k in m.heap ==> m.heap[k] == r.heap[k])
    requires r'.heap.Keys <= m.heap.Keys && EmptiedGo(m, r', t) && forall c :: c in All(r.heap[h]) ==> c.id == id
    ensures EmptiedGo(r, r', t')
  {
    forall k | k in r.heap ensures k in r'.heap <==> r.heap[k].lock || !Touched(r.heap[k], t') || !AllGone(r.heap[k], t') {
      if k == h { GoneWith(r, h, id, t'); } else { NotTouched(r, h, id, k, t, t'); }
    }
  }

  lemma GoneWith(r: Registry, h: nat, id: nat, t: seq<Event>)
    requires h in r.heap && Holds(r.heap[h], id) && id in Gone(t) && forall c :: c in All(r.heap[h]) ==> c.id == id
    ensures Touched(r.heap[h], t) && AllGone(r.heap[h], t)
  {
    HoldsIsIn(r.heap[h], id);
  }

  lemma NotTouched(r: Registry, h: nat, id: nat, k: nat, t: seq<Event>, t': seq<Event>)
    requires Inv(r) && h in r.heap && k in r.heap && k != h && Holds(r.heap[h], id) && Gone(t') == {id} + Gone(t)
    ensures Touched(r.heap[k], t') <==> Touched(r.heap[k], t)
    ensures AllGone(r.heap[k], t') <==> AllGone(r.heap[k], t)
  {
    OnlyHolder(r, h, k, id);
    HoldsIsIn(r.heap[k], id);
  }

  lemma ChainMore(r: Registry, h: nat, id: nat, m: Registry, n: nat, r': Registry, t: seq<Event>, t': seq<Event>)
    requires Inv(r) && h in r.heap && Holds(r.heap[h], id) && id != 0 && n == r.heap[h].nameWatch && Live(r, id)
    requires m.heap.Keys == r.heap.Keys - {h} && (forall k :: k in m.heap ==> m.heap[k] == r.heap[k])
    requires r'.heap.Keys <= m.heap.Keys && Chain(m, r', n, t) && t' == [Destroyed(id)] + t && (n != 0 ==> !Live(r', n))
    ensures Chain(r, r', id, t')
  {
    assert OnlyDestroys(t');
    FirstLinked(r, h, id, m, n, r', t, t');
    forall i | 0 < i < |t'| ensures Linked(r, r', t', i) {
      LaterFollows(r, h, id, m, n, r', t, t', i);
    }
  }

  lemma FirstLinked(r: Registry, h: nat, id: nat, m: Registry, n: nat, r': Registry, t: seq<Event>, t': seq<Event>)
    requires Inv(r) && h in r.heap && Holds(r.heap[h], id) && n == r.heap[h].nameWatch && Live(r, id)
    requires h !in r'.heap && Chain(m, r', n, t) && t' == [Destroyed(id)] + t && (n != 0 ==> !Live(r', n))
    ensures Linked(r, r', t', 0)
  {
    forall k | k in r.heap && Holds(r.heap[k], id) ensures Follows(r, r', k, t', 0) { OnlyOne(r, h, id, k); }
  }

  lemma LaterFollows(r: Registry, h: nat, id: nat, m: Registry, n: nat, r': Registry, t: seq<Event>, t': seq<Event>, i: nat)
    requires Inv(r) && h in r.heap && 0 < i < |t'| && t' == [Destroyed(id)] + t && Chain(m, r', n, t)
    requires m.heap.Keys == r.heap.Keys - {h} && (forall k :: k in m.heap ==> m.heap[k] == r.heap[k])
    ensures t'[i].Destroyed? && Linked(r, r', t', i)
  {
    assert t'[i] == t[i - 1];
    assert Linked(m, r', t, i - 1);
    assert Live(m, t[i - 1].id);
    var j :| j in m.heap && Holds(m.heap[j], t[i - 1].id);
    assert Holds(r.heap[j], t'[i].id);
    forall k | k in r.heap && Holds(r.heap[k], t'[i].id) ensures Follows(r, r', k, t', i) {
      OnlyOne(r, j, t'[i].id, k);
      assert Follows(m, r', k, t, i - 1);
    }
  }

  // ---- addition ----

  /** Where a listener of the registry stands after additions: its list is longer by what was added to it. */
  ghost predicate Lengthened(l: Listener, l': Listener, more: seq<Callback>) {
    && l'.service == l.service && l'.unique == l.unique && l'.lock == l.lock
    && (if l.lock then l'.callbacks == l.callbacks && l'.processed == l.processed + more
        else l'.callbacks == l.callbacks + more && l'.processed == l.processed)
  }

  /** The listener before the addition, or a new one as the target says. */
  ghost function Before(r: Registry, t: Target): Listener {
    if t.listener in r.heap then r.heap[t.listener] else Listener(t.service, t.unique, [], [], 0, false)
  }

  /** A watch on a name needs another one on its owner, unless its listener has that already. */
  ghost predicate Needs(r: Registry, at: Target, name: Option<Target>) {
    name.Some? && Before(r, at).nameWatch == 0
  }

  ghost function Second(c: Callback): Callback {
    Callback(c.id + 1, false, false, false)
  }

  /** What is added to the listener k. */
  ghost function AddedTo(k: nat, at: Target, c: Callback, name: Target, two: bool): seq<Callback> {
    (if k == at.listener then [c] else []) + if two && k == name.listener then [Second(c)] else []
  }

  ghost predicate JoinsOrder(r: Registry, r': Registry, at: Target, c: Callback, name: Target, two: bool) {
    && r'.lastId == c.id + (if two then 1 else 0)
    && r'.trace == r.trace + [Added(at.listener, c)] + (if two then [Added(name.listener, Second(c))] else [])
    && r'.order == r.order + (if at.listener in r.heap then [] else [at.listener])
                   + (if two && name.listener !in r.heap && name.listener != at.listener then [name.listener] else [])
    && r'.heap.Keys == r.heap.Keys + {at.listener} + (if two then {name.listener} else {})
  }

  ghost predicate JoinsList(r: Registry, r': Registry, at: Target, c: Callback, name: Target, two: bool, k: nat) {
    && k in r'.heap
    && Lengthened(if k == at.listener then Before(r, at) else if k in r.heap then r.heap[k] else Before(r, name), r'.heap[k],
                  AddedTo(k, at, c, name, two))
    && r'.heap[k].nameWatch == if k == at.listener then (if two then Second(c).id else Before(r, at).nameWatch)
                               else if k in r.heap then r.heap[k].nameWatch else 0
  }

  /** One watch is added, at the end of the list of its listener that no message runs through; if it needs one on the owner
      of its name, that is added too and noted by the listener; a listener that was not there is made as the target says
      and comes last. Everything else is as before. */
  ghost predicate Joins(r: Registry, r': Registry, at: Target, c: Callback, name: Option<Target>) {
    var n := if name.Some? then name.value else at;
    && JoinsOrder(r, r', at, c, n, Needs(r, at, name))
    && forall k :: k in r'.heap ==> JoinsList(r, r', at, c, n, Needs(r, at, name), k)
  }

  lemma OneOrder(r: Registry, at: Target, c: Callback, n: Target, r1: Registry)
    requires c.id == r.lastId + 1 && r1 == AddCallback(Get(r, at), at.listener, c.conn, c.disc, c.signal)
    ensures JoinsOrder(r, r1, at, c, n, false)
  {
    assert r.order + [] == r.order;
    assert r.trace + [Added(at.listener, c)] + [] == r.trace + [Added(at.listener, c)];
  }

  lemma OneList(r: Registry, at: Target, c: Callback, n: Target, r1: Registry, k: nat)
    requires c.id == r.lastId + 1 && r1 == AddCallback(Get(r, at), at.listener, c.conn, c.disc, c.signal) && k in r1.heap
    ensures JoinsList(r, r1, at, c, n, false, k)
  {
  }

  lemma TwoOrder(r: Registry, at: Target, c: Callback, n: Target, r1: Registry, r2: Registry)
    requires JoinsOrder(r, r1, at, c, n, false) && at.listener in r1.heap && r2 == NameOwner(r1, at.listener, n)
    ensures JoinsOrder(r, r2, at, c, n, true)
  {
  }

  lemma TwoList(r: Registry, at: Target, c: Callback, n: Target, r1: Registry, r2: Registry, k: nat)
    requires JoinsOrder(r, r1, at, c, n, false) && at.listener in r1.heap && r2 == NameOwner(r1, at.listener, n) && k in r2.heap
    requires k in r1.heap ==> JoinsList(r, r1, at, c, n, false, k)
    ensures JoinsList(r, r2, at, c, n, true, k)
  {
    var was := if k in r1.heap then r1.heap[k] else Listener(n.service, n.unique, [], [], 0, false);
    OwnerNoted(r1, at.listener, n, r2, k, was);
    if k == n.listener { ListTwice(was, Second(c), AddedTo(k, at, c, n, false)); }
  }

  /** What noting the owner of a name does to one listener. */
  lemma OwnerNoted(r1: Registry, h: nat, n: Target, r2: Registry, k: nat, l: Listener)
    requires h in r1.heap && r2 == NameOwner(r1, h, n) && k in r2.heap
    requires l == if k in r1.heap then r1.heap[k] else Listener(n.service, n.unique, [], [], 0, false)
    ensures var l' := if k == n.listener then Appended(l, Callback(r1.lastId + 1, false, false, false)) else l;
            r2.heap[k] == if k == h then l'.(nameWatch := r1.lastId + 1) else l'
    ensures k in r1.heap || k == n.listener
  {
  }

  lemma ListTwice(l: Listener, d: Callback, first: seq<Callback>)
    ensures l.callbacks + first + [d] == l.callbacks + (first + [d]) && l.processed + first + [d] == l.processed + (first + [d])
  {
  }

  /** Adding a watch. */
  lemma AddExact(r: Registry, at: Target, conn: bool, disc: bool, signal: bool, name: Option<Target>)
    ensures Joins(r, AddWatch(r, at, conn, disc, signal, name), at, Callback(r.lastId + 1, conn, disc, signal), name)
  {
    var c, n := Callback(r.lastId + 1, conn, disc, signal), if name.Some? then name.value else at;
    var r1 := AddCallback(Get(r, at), at.listener, conn, disc, signal);
    OneOrder(r, at, c, n, r1);
    forall k | k in r1.heap ensures JoinsList(r, r1, at, c, n, false, k) { OneList(r, at, c, n, r1, k); }
    assert JoinsList(r, r1, at, c, n, false, at.listener);
    if Needs(r, at, name) {
      var r2 := NameOwner(r1, at.listener, n);
      TwoOrder(r, at, c, n, r1, r2);
      forall k | k in r2.heap ensures JoinsList(r, r2, at, c, n, true, k) { TwoList(r, at, c, n, r1, r2, k); }
    }
  }

  lemma AddResult(r: Registry, at: Target, conn: bool, disc: bool, signal: bool, name: Option<Target>, r': Registry)
    requires r' == AddWatch(r, at, conn, disc, signal, name)
    ensures Joins(r, r', at, Callback(r.lastId + 1, conn, disc, signal), name)
    ensures Inv(r) ==> Inv(r') && !Live(r, r.lastId + 1)
  {
    AddExact(r, at, conn, disc, signal, name);
    if Inv(r) {
      AddWatchInv(r, at, conn, disc, signal, name);
      NotYetLive(r);
    }
  }
}
