/** What holds of the registry of watches in every run: each live watch is in one list of one listener,
    and a watch that was removed is never called again.
 */
module WatchSafety {
  import opened Bus
  import opened Watches

  ghost function All(l: Listener): seq<Callback> {
    l.callbacks + l.processed
  }

  ghost predicate Distinct(cs: seq<Callback>) {
    forall i, j :: 0 <= i < j < |cs| ==> cs[i].id != cs[j].id
  }

  ghost predicate Apart(l: Listener, m: Listener) {
    forall c, d :: c in All(l) && d in All(m) ==> c.id != d.id
  }

  /** One listener: no watch twice, and nothing in the second list unless a message is being delivered. */
  ghost predicate Neat(l: Listener, last: nat) {
    && Distinct(All(l)) && (forall c :: c in All(l) ==> 1 <= c.id <= last)
    && (!l.lock ==> l.processed == []) && l.nameWatch <= last
  }

  /** The watch a listener keeps on the owner of its name has no function to call. */
  ghost predicate NameOnly(l: Listener, m: Listener) {
    forall c :: c in All(m) && c.id == l.nameWatch ==> Silent(c)
  }

  ghost predicate ListsHeap(order: seq<nat>, heap: map<nat, Listener>) {
    && (forall i, j :: 0 <= i < j < |order| ==> order[i] != order[j])
    && (forall h :: h in order <==> h in heap)
  }

  ghost predicate Live(r: Registry, id: nat) {
    exists h :: h in r.heap && Holds(r.heap[h], id)
  }

  ghost predicate Concerns(e: Event, id: nat) {
    match e
    case Called(_, i, _) => i == id
    case Added(_, c) => c.id == id
    case Destroyed(i) => i == id
  }

  /** After its removal nothing more happens to a watch: it is not called, not removed again, not added. */
  ghost predicate Final(trace: seq<Event>) {
    forall i, j :: 0 <= i < j < |trace| && trace[i].Destroyed? ==> !Concerns(trace[j], trace[i].id)
  }

  ghost predicate Buried(r: Registry) {
    forall i :: 0 <= i < |r.trace| && r.trace[i].Destroyed? ==> r.trace[i].id <= r.lastId && !Live(r, r.trace[i].id)
  }

  ghost predicate AllNeat(heap: map<nat, Listener>, last: nat) {
    forall h :: h in heap ==> Neat(heap[h], last)
  }

  /** No watch is in two listeners. */
  ghost predicate AllApart(heap: map<nat, Listener>) {
    && (forall h, k :: h in heap && k in heap && h != k ==> Apart(heap[h], heap[k]))
    && (forall h, k :: h in heap && k in heap ==> NameOnly(heap[h], heap[k]))
  }

  ghost predicate Inv(r: Registry) {
    && ListsHeap(r.order, r.heap) && AllNeat(r.heap, r.lastId) && AllApart(r.heap)
    && Final(r.trace) && Buried(r)
  }

  // ---- keeping all but some watches ----

  function Keep(cs: seq<Callback>, gone: set<nat>): seq<Callback> {
    if cs == [] then []
    else if cs[|cs| - 1].id in gone then Keep(cs[..|cs| - 1], gone)
    else Keep(cs[..|cs| - 1], gone) + [cs[|cs| - 1]]
  }

  lemma {:induction false} KeepMembers(cs: seq<Callback>, gone: set<nat>)
    ensures forall c :: c in Keep(cs, gone) <==> c in cs && c.id !in gone
  {
    if cs != [] {
      KeepMembers(cs[..|cs| - 1], gone);
      assert cs == cs[..|cs| - 1] + [cs[|cs| - 1]];
    }
  }

  lemma {:induction false} KeepConcat(a: seq<Callback>, b: seq<Callback>, gone: set<nat>)
    ensures Keep(a + b, gone) == Keep(a, gone) + Keep(b, gone)
  {
    if b == [] {
      assert a + b == a;
    } else {
      KeepConcat(a, b[..|b| - 1], gone);
      assert (a + b)[..|a + b| - 1] == a + b[..|b| - 1];
    }
  }

  lemma {:induction false} KeepTwice(cs: seq<Callback>, g: set<nat>, g': set<nat>)
    ensures Keep(Keep(cs, g), g') == Keep(cs, g + g')
  {
    if cs != [] {
      var last := cs[|cs| - 1];
      KeepTwice(cs[..|cs| - 1], g, g');
      if last.id !in g { KeepConcat(Keep(cs[..|cs| - 1], g), [last], g'); }
    }
  }

  lemma {:induction false} KeepAll(cs: seq<Callback>, gone: set<nat>)
    requires forall c :: c in cs ==> c.id !in gone
    ensures Keep(cs, gone) == cs
  {
    if cs != [] {
      KeepAll(cs[..|cs| - 1], gone);
      assert cs == cs[..|cs| - 1] + [cs[|cs| - 1]];
    }
  }

  lemma {:induction false} KeepSame(cs: seq<Callback>, g: set<nat>, g': set<nat>)
    requires forall c :: c in cs ==> (c.id in g <==> c.id in g')
    ensures Keep(cs, g) == Keep(cs, g')
  {
    if cs != [] { KeepSame(cs[..|cs| - 1], g, g'); }
  }

  lemma {:induction false} RemoveIsKeep(cs: seq<Callback>, id: nat)
    requires Distinct(cs)
    ensures RemoveFirst(cs, id) == Keep(cs, {id})
  {
    if cs != [] {
      KeepFirst(cs, id);
      if cs[0].id == id { KeepAll(cs[1..], {id}); } else { RemoveIsKeep(cs[1..], id); }
    }
  }

  lemma {:induction false} KeepFirst(cs: seq<Callback>, id: nat)
    requires cs != []
    ensures Keep(cs, {id}) == if cs[0].id == id then Keep(cs[1..], {id}) else [cs[0]] + Keep(cs[1..], {id})
  {
    assert cs == [cs[0]] + cs[1..];
    KeepConcat([cs[0]], cs[1..], {id});
    if cs[0].id == id {
      assert Keep([cs[0]], {id}) == [];
      assert [] + Keep(cs[1..], {id}) == Keep(cs[1..], {id});
    } else {
      KeepAll([cs[0]], {id});
    }
  }

  lemma {:induction false} KeepDistinct(cs: seq<Callback>, gone: set<nat>)
    requires Distinct(cs)
    ensures Distinct(Keep(cs, gone))
  {
    if cs != [] {
      KeepDistinct(cs[..|cs| - 1], gone);
      KeepMembers(cs[..|cs| - 1], gone);
    }
  }

  // ---- removal ----

  ghost function Shrunk(l: Listener, gone: set<nat>): Listener {
    l.(callbacks := Keep(l.callbacks, gone), processed := Keep(l.processed, gone))
  }

  /** The watches removed in a stretch of the trace. */
  ghost function Gone(events: seq<Event>): (r: set<nat>)
    ensures forall id :: id in r <==> Destroyed(id) in events
  {
    if events == [] then {}
    else
      var e := events[|events| - 1];
      Gone(events[..|events| - 1]) + if e.Destroyed? then {e.id} else {}
  }

  lemma ShrunkNeat(l: Listener, gone: set<nat>, last: nat)
    requires Neat(l, last)
    ensures Neat(Shrunk(l, gone), last)
    ensures forall c :: c in All(Shrunk(l, gone)) <==> c in All(l) && c.id !in gone
  {
    KeepConcat(l.callbacks, l.processed, gone);
    KeepDistinct(All(l), gone);
    KeepMembers(All(l), gone);
    assert All(Shrunk(l, gone)) == Keep(All(l), gone);
  }

  /** Watches go away, and idle listeners with them; nothing else changes. */
  ghost predicate Reduces(r: Registry, r': Registry, gone: set<nat>) {
    && r'.lastId == r.lastId && r'.heap.Keys <= r.heap.Keys
    && (forall k :: k in r'.heap ==> r'.heap[k] == Shrunk(r.heap[k], gone))
    && (forall k :: k in r.heap && r.heap[k].lock ==> k in r'.heap)
  }

  lemma ReducesTwice(r: Registry, m: Registry, r': Registry, g: set<nat>, g': set<nat>)
    requires Reduces(r, m, g) && Reduces(m, r', g')
    ensures Reduces(r, r', g + g')
  {
    forall k | k in r'.heap ensures r'.heap[k] == Shrunk(r.heap[k], g + g') {
      KeepTwice(r.heap[k].callbacks, g, g');
      KeepTwice(r.heap[k].processed, g, g');
    }
  }

  lemma HoldsIsIn(l: Listener, id: nat)
    ensures Holds(l, id) <==> exists c :: c in All(l) && c.id == id
  {
  }

  lemma OnlyHolder(r: Registry, h: nat, k: nat, id: nat)
    requires Inv(r) && h in r.heap && k in r.heap && h != k && Holds(r.heap[h], id)
    ensures !Holds(r.heap[k], id)
  {
    assert Apart(r.heap[h], r.heap[k]);
  }

  lemma ShrunkSelf(l: Listener, gone: set<nat>)
    requires forall c :: c in All(l) ==> c.id !in gone
    ensures Shrunk(l, gone) == l
  {
    KeepAll(l.callbacks, gone);
    KeepAll(l.processed, gone);
  }

  lemma CutListener(l: Listener, id: nat)
    requires Distinct(All(l))
    ensures l.(callbacks := RemoveFirst(l.callbacks, id), processed := RemoveFirst(l.processed, id)) == Shrunk(l, {id})
  {
    assert Distinct(l.callbacks) by { assert forall i :: 0 <= i < |l.callbacks| ==> l.callbacks[i] == All(l)[i]; }
    assert Distinct(l.processed) by {
      assert forall i :: 0 <= i < |l.processed| ==> l.processed[i] == All(l)[|l.callbacks| + i];
    }
    RemoveIsKeep(l.callbacks, id);
    RemoveIsKeep(l.processed, id);
  }

  lemma CutReduces(r: Registry, h: nat, id: nat)
    requires Inv(r) && h in r.heap && Holds(r.heap[h], id)
    ensures Reduces(r, Cut(r, h, id), {id})
  {
    assert Neat(r.heap[h], r.lastId);
    CutListener(r.heap[h], id);
    forall k | k in r.heap && k != h ensures r.heap[k] == Shrunk(r.heap[k], {id}) {
      OthersShrink(r, h, k, id);
    }
    OneShrinks(r, Cut(r, h, id), h, {id});
  }

  lemma OneShrinks(r: Registry, r': Registry, h: nat, gone: set<nat>)
    requires h in r.heap && r'.lastId == r.lastId && r'.heap == r.heap[h := Shrunk(r.heap[h], gone)]
    requires forall k :: k in r.heap && k != h ==> r.heap[k] == Shrunk(r.heap[k], gone)
    ensures Reduces(r, r', gone)
  {
  }

  lemma OthersShrink(r: Registry, h: nat, k: nat, id: nat)
    requires Inv(r) && h in r.heap && k in r.heap && h != k && Holds(r.heap[h], id)
    ensures Shrunk(r.heap[k], {id}) == r.heap[k]
  {
    OnlyHolder(r, h, k, id);
    HoldsIsIn(r.heap[k], id);
    ShrunkSelf(r.heap[k], {id});
  }

  /** A registry whose listeners only lost watches is in order again, once the trace says so. */
  lemma ReducesInv(r: Registry, r': Registry, gone: set<nat>)
    requires Inv(r) && Reduces(r, r', gone) && ListsHeap(r'.order, r'.heap) && Final(r'.trace) && Buried(r')
    ensures Inv(r')
  {
    forall h | h in r'.heap
      ensures Neat(r'.heap[h], r'.lastId) && forall c :: c in All(r'.heap[h]) ==> c in All(r.heap[h])
    {
      ShrunkNeat(r.heap[h], gone, r.lastId);
    }
    forall h, k | h in r'.heap && k in r'.heap
      ensures (h != k ==> Apart(r'.heap[h], r'.heap[k])) && NameOnly(r'.heap[h], r'.heap[k])
    {
      assert h != k ==> Apart(r.heap[h], r.heap[k]);
      assert NameOnly(r.heap[h], r.heap[k]);
    }
  }

  lemma FewerLive(r: Registry, r': Registry, gone: set<nat>, id: nat)
    requires Reduces(r, r', gone) && Live(r', id)
    ensures Live(r, id) && id !in gone
  {
    var h :| h in r'.heap && Holds(r'.heap[h], id);
    KeepMembers(r.heap[h].callbacks, gone);
    KeepMembers(r.heap[h].processed, gone);
    assert Holds(r.heap[h], id);
  }

  lemma BuriedAfter(r: Registry, r': Registry, id: nat)
    requires Buried(r) && Reduces(r, r', {id}) && id <= r.lastId && r'.trace == r.trace + [Destroyed(id)]
    ensures Buried(r')
  {
    forall i | 0 <= i < |r'.trace| && r'.trace[i].Destroyed?
      ensures r'.trace[i].id <= r'.lastId && !Live(r', r'.trace[i].id)
    {
      if i < |r.trace| { assert r'.trace[i] == r.trace[i]; }
      if Live(r', r'.trace[i].id) { FewerLive(r, r', {id}, r'.trace[i].id); }
    }
  }

  /** Something may happen to a watch that is live. */
  lemma FinalAfter(r: Registry, e: Event, id: nat)
    requires Final(r.trace) && Buried(r) && (Live(r, id) || r.lastId < id) && forall i :: Concerns(e, i) ==> i == id
    ensures Final(r.trace + [e])
  {
    var t := r.trace + [e];
    forall i, j | 0 <= i < j < |t| && t[i].Destroyed? ensures !Concerns(t[j], t[i].id) {
      assert t[i] == r.trace[i];
      if j < |r.trace| { assert t[j] == r.trace[j]; }
    }
  }

  lemma HeldId(r: Registry, h: nat, id: nat)
    requires Inv(r) && h in r.heap && Holds(r.heap[h], id)
    ensures Live(r, id) && 1 <= id <= r.lastId
  {
    assert Neat(r.heap[h], r.lastId);
    HoldsIsIn(r.heap[h], id);
  }

  lemma CutInv(r: Registry, h: nat, id: nat)
    requires Inv(r) && h in r.heap && Holds(r.heap[h], id)
    ensures Inv(Cut(r, h, id)) && Reduces(r, Cut(r, h, id), {id})
  {
    HeldId(r, h, id);
    CutReduces(r, h, id);
    BuriedAfter(r, Cut(r, h, id), id);
    FinalAfter(r, Destroyed(id), id);
    ReducesInv(r, Cut(r, h, id), {id});
  }

  lemma {:induction false} WithoutLists(order: seq<nat>, h: nat)
    requires forall i, j :: 0 <= i < j < |order| ==> order[i] != order[j]
    ensures var w := Without(order, h);
            && (forall i, j :: 0 <= i < j < |w| ==> w[i] != w[j])
            && (forall k :: k in w <==> k in order && k != h)
  {
    if order != [] {
      assert order == [order[0]] + order[1..];
      assert order[0] !in order[1..];
      if order[0] != h {
        WithoutLists(order[1..], h);
        assert forall k :: k in Without(order, h) <==> k == order[0] || k in Without(order[1..], h);
      }
    }
  }

  lemma FreedInv(r: Registry, h: nat)
    requires Inv(r) && h in r.heap && !r.heap[h].lock
    ensures Inv(Freed(r, h)) && Reduces(r, Freed(r, h), {})
  {
    var r' := Freed(r, h);
    WithoutLists(r.order, h);
    forall k | k in r'.heap ensures r'.heap[k] == Shrunk(r.heap[k], {}) {
      KeepAll(r.heap[k].callbacks, {});
      KeepAll(r.heap[k].processed, {});
    }
    forall i | 0 <= i < |r'.trace| && r'.trace[i].Destroyed? ensures !Live(r', r'.trace[i].id) {
      if Live(r', r'.trace[i].id) { FewerLive(r, r', {}, r'.trace[i].id); }
    }
    ReducesInv(r, r', {});
  }

  /** The watches a removal takes: the one asked for, and watches on the owners of names. */
  ghost predicate Takes(r: Registry, gone: set<nat>, id: nat) {
    forall h :: h in r.heap ==> TakesFrom(r.heap[h], gone, id)
  }

  ghost predicate TakesFrom(l: Listener, gone: set<nat>, id: nat) {
    forall c :: c in All(l) && c.id in gone && c.id != id ==> Silent(c)
  }

  ghost predicate OnlyDestroys(t: seq<Event>) {
    forall e :: e in t ==> e.Destroyed?
  }

  /** Removal, with the watches it takes read off the trace. */
  ghost predicate RemovalEffect(r: Registry, r': Registry, id: nat, t: seq<Event>) {
    r'.trace == r.trace + t && OnlyDestroys(t) && Reduces(r, r', Gone(t)) && Takes(r, Gone(t), id)
  }

  lemma GoneConcat(a: seq<Event>, b: seq<Event>)
    ensures Gone(a + b) == Gone(a) + Gone(b)
  {
  }

  /** Removing a watch empties the listener that held it, and then the watch on the owner of its name goes. */
  lemma TakesMore(r: Registry, m: Registry, h: nat, id: nat, gone: set<nat>)
    requires Inv(r) && h in r.heap && Reduces(r, m, {id}) && Takes(m, gone, r.heap[h].nameWatch)
    requires m.heap.Keys == r.heap.Keys - {h} && forall c :: c in All(r.heap[h]) ==> c.id == id
    ensures Takes(r, {id} + gone, id)
  {
    forall k | k in r.heap ensures TakesFrom(r.heap[k], {id} + gone, id) { TakesMoreFrom(r, m, h, id, gone, k); }
  }

  lemma TakesMoreFrom(r: Registry, m: Registry, h: nat, id: nat, gone: set<nat>, k: nat)
    requires Inv(r) && h in r.heap && k in r.heap && Reduces(r, m, {id}) && Takes(m, gone, r.heap[h].nameWatch)
    requires m.heap.Keys == r.heap.Keys - {h} && forall c :: c in All(r.heap[h]) ==> c.id == id
    ensures TakesFrom(r.heap[k], {id} + gone, id)
  {
    forall c | c in All(r.heap[k]) && c.id in {id} + gone && c.id != id ensures Silent(c) {
      StillTakes(r, m, h, k, id, c);
      assert TakesFrom(m.heap[k], gone, r.heap[h].nameWatch);
    }
  }

  lemma StillTakes(r: Registry, m: Registry, h: nat, k: nat, id: nat, c: Callback)
    requires Inv(r) && h in r.heap && k in r.heap && Reduces(r, m, {id}) && c in All(r.heap[k]) && c.id != id
    requires m.heap.Keys == r.heap.Keys - {h} && forall c :: c in All(r.heap[h]) ==> c.id == id
    ensures k in m.heap && c in All(m.heap[k]) && (c.id == r.heap[h].nameWatch ==> Silent(c))
  {
    assert NameOnly(r.heap[h], r.heap[k]);
    ShrunkNeat(r.heap[k], {id}, r.lastId);
  }

  lemma {:induction false} RemoveSafe(r: Registry, id: nat) returns (t: seq<Event>)
    requires Inv(r)
    ensures Inv(RemoveWatch(r, id)) && RemovalEffect(r, RemoveWatch(r, id), id, t)
    ensures id != 0 ==> (Live(r, id) <==> Destroyed(id) in t) && !Live(RemoveWatch(r, id), id)
    decreases |r.order|, 1
  {
    t := [];
    HolderIsLive(r, id);
    var h := Holder(r.order, r.heap, id);
    if id == 0 || h.None? {
      ReducesNothing(r);
      assert r.trace + [] == r.trace;
    } else {
      t := RemoveCallbackSafe(r, h.value, id);
      assert Live(r, id);
    }
  }

  lemma {:induction false} RemoveCallbackSafe(r: Registry, h: nat, id: nat) returns (t: seq<Event>)
    requires Inv(r) && h in r.heap && Holds(r.heap[h], id) && h in r.order
    ensures Inv(RemoveCallback(r, h, id)) && RemovalEffect(r, RemoveCallback(r, h, id), id, t)
    ensures Destroyed(id) in t && !Live(RemoveCallback(r, h, id), id)
    decreases |r.order|, 0
  {
    var l := Cut(r, h, id).heap[h];
    if l.callbacks != [] || l.lock {
      CutOnly(r, h, id);
      t := [Destroyed(id)];
    } else {
      CutAndFree(r, h, id);
      t := FreedSafe(r, Freed(Cut(r, h, id), h), h, id);
    }
  }

  lemma {:induction false} FreedSafe(r: Registry, m: Registry, h: nat, id: nat) returns (t: seq<Event>)
    requires Inv(r) && h in r.heap && Inv(m) && Reduces(r, m, {id}) && m.trace == r.trace + [Destroyed(id)]
    requires m.heap.Keys == r.heap.Keys - {h} && forall c :: c in All(r.heap[h]) ==> c.id == id
    ensures var r' := RemoveWatch(m, r.heap[h].nameWatch);
            Inv(r') && RemovalEffect(r, r', id, t) && Destroyed(id) in t && !Live(r', id)
    decreases |m.order|, 2
  {
    var t2 := RemoveSafe(m, r.heap[h].nameWatch);
    RemovalThen(r, m, RemoveWatch(m, r.heap[h].nameWatch), h, id, t2);
    t := [Destroyed(id)] + t2;
  }

  lemma CutOnly(r: Registry, h: nat, id: nat)
    requires Inv(r) && h in r.heap && Holds(r.heap[h], id)
    ensures var r' := Cut(r, h, id); Inv(r') && RemovalEffect(r, r', id, [Destroyed(id)]) && !Live(r', id)
  {
    CutInv(r, h, id);
    OneGone(r, Cut(r, h, id), id);
  }

  lemma OneGone(r: Registry, r': Registry, id: nat)
    requires Reduces(r, r', {id}) && r'.trace == r.trace + [Destroyed(id)]
    ensures RemovalEffect(r, r', id, [Destroyed(id)]) && !Live(r', id)
  {
    assert Gone([Destroyed(id)]) == {id};
    if Live(r', id) { FewerLive(r, r', {id}, id); }
  }

  lemma CutAndFree(r: Registry, h: nat, id: nat)
    requires Inv(r) && h in r.heap && Holds(r.heap[h], id) && !r.heap[h].lock && Cut(r, h, id).heap[h].callbacks == []
    ensures var m := Freed(Cut(r, h, id), h);
            && Inv(m) && Reduces(r, m, {id}) && m.trace == r.trace + [Destroyed(id)]
            && m.heap.Keys == r.heap.Keys - {h} && Cut(r, h, id).heap[h].nameWatch == r.heap[h].nameWatch
    ensures forall c :: c in All(r.heap[h]) ==> c.id == id
  {
    CutInv(r, h, id);
    EmptiedListener(r, h, id);
    FreedFacts(r, h, id);
    ThenFreed(r, Cut(r, h, id), h, {id});
  }

  lemma FreedFacts(r: Registry, h: nat, id: nat)
    requires h in r.heap
    ensures var m := Freed(Cut(r, h, id), h);
            && m.trace == r.trace + [Destroyed(id)] && m.heap.Keys == r.heap.Keys - {h}
            && Cut(r, h, id).heap[h].nameWatch == r.heap[h].nameWatch
  {
    assert Cut(r, h, id).heap.Keys == r.heap.Keys;
  }

  lemma ThenFreed(r: Registry, m: Registry, h: nat, gone: set<nat>)
    requires Inv(m) && Reduces(r, m, gone) && h in m.heap && !m.heap[h].lock
    ensures Inv(Freed(m, h)) && Reduces(r, Freed(m, h), gone)
  {
    FreedInv(m, h);
    ReducesTwice(r, m, Freed(m, h), gone, {});
    assert gone + {} == gone;
  }

  lemma RemovalThen(r: Registry, m: Registry, r': Registry, h: nat, id: nat, t: seq<Event>)
    requires Inv(r) && h in r.heap && Reduces(r, m, {id}) && m.trace == r.trace + [Destroyed(id)]
    requires m.heap.Keys == r.heap.Keys - {h} && (forall c :: c in All(r.heap[h]) ==> c.id == id)
    requires RemovalEffect(m, r', r.heap[h].nameWatch, t)
    ensures RemovalEffect(r, r', id, [Destroyed(id)] + t) && !Live(r', id)
  {
    TakesMore(r, m, h, id, Gone(t));
    ReducesTwice(r, m, r', {id}, Gone(t));
    assert Gone([Destroyed(id)]) == {id};
    GoneConcat([Destroyed(id)], t);
    assert r.trace + [Destroyed(id)] + t == r.trace + ([Destroyed(id)] + t);
    if Live(r', id) { FewerLive(r, r', {id} + Gone(t), id); }
  }

  lemma EmptiedListener(r: Registry, h: nat, id: nat)
    requires Inv(r) && h in r.heap && Holds(r.heap[h], id) && !r.heap[h].lock && Cut(r, h, id).heap[h].callbacks == []
    ensures forall c :: c in All(r.heap[h]) ==> c.id == id
  {
    CutReduces(r, h, id);
    assert Neat(r.heap[h], r.lastId);
    KeepMembers(r.heap[h].callbacks, {id});
    forall c | c in r.heap[h].callbacks ensures c.id == id {
      assert c in Keep(r.heap[h].callbacks, {id}) || c.id == id;
    }
  }

  lemma {:induction false} HolderFinds(order: seq<nat>, heap: map<nat, Listener>, id: nat, h: nat)
    requires h in order && h in heap && Holds(heap[h], id)
    ensures Holder(order, heap, id).Some?
  {
    if !(order[0] in heap && Holds(heap[order[0]], id)) { HolderFinds(order[1..], heap, id, h); }
  }

  lemma HolderIsLive(r: Registry, id: nat)
    requires Inv(r)
    ensures Holder(r.order, r.heap, id).Some? <==> Live(r, id)
  {
    if Live(r, id) {
      var h :| h in r.heap && Holds(r.heap[h], id);
      HolderFinds(r.order, r.heap, id, h);
    }
  }

  lemma ReducesNothing(r: Registry)
    ensures Reduces(r, r, Gone([]))
  {
    forall k | k in r.heap ensures r.heap[k] == Shrunk(r.heap[k], Gone([])) {
      KeepAll(r.heap[k].callbacks, Gone([]));
      KeepAll(r.heap[k].processed, Gone([]));
    }
  }

  // ---- addition ----

  ghost predicate Known(r: Registry, r': Registry) {
    forall id :: Live(r', id) ==> Live(r, id) || r.lastId < id
  }

  lemma StillBuried(r: Registry, r': Registry)
    requires Buried(r) && r.lastId <= r'.lastId && Known(r, r') && r.trace <= r'.trace
    requires forall i :: |r.trace| <= i < |r'.trace| ==> !r'.trace[i].Destroyed?
    ensures Buried(r')
  {
    forall i | 0 <= i < |r'.trace| && r'.trace[i].Destroyed?
      ensures r'.trace[i].id <= r'.lastId && !Live(r', r'.trace[i].id)
    {
      assert r'.trace[i] == r.trace[i];
    }
  }

  lemma GetInv(r: Registry, t: Target)
    requires Inv(r)
    ensures Inv(Get(r, t)) && t.listener in Get(r, t).heap
  {
    if t.listener !in r.heap {
      var l := Listener(t.service, t.unique, [], [], 0, false);
      NewLive(r, Get(r, t), t.listener, l);
      StillBuried(r, Get(r, t));
      NewApart(r.heap, t.listener, l, r.lastId);
    }
  }

  lemma NewLive(r: Registry, r': Registry, h: nat, l: Listener)
    requires h !in r.heap && All(l) == [] && r'.heap == r.heap[h := l]
    ensures Known(r, r')
  {
    forall id | Live(r', id) ensures Live(r, id) {
      var k :| k in r'.heap && Holds(r'.heap[k], id);
      assert k in r.heap && Holds(r.heap[k], id);
    }
  }

  lemma NewApart(heap: map<nat, Listener>, h: nat, l: Listener, last: nat)
    requires AllNeat(heap, last) && AllApart(heap) && h !in heap && All(l) == [] && l.nameWatch == 0
    ensures AllApart(heap[h := l])
  {
  }

  lemma AppendedNeat(l: Listener, c: Callback, last: nat)
    requires Neat(l, last) && c.id == last + 1
    ensures Neat(Appended(l, c), last + 1)
    ensures forall d :: d in All(Appended(l, c)) <==> d in All(l) || d == c
  {
    if l.lock {
      assert All(Appended(l, c)) == All(l) + [c];
    } else {
      assert All(l) == l.callbacks && All(Appended(l, c)) == All(l) + [c];
    }
  }

  lemma AddLists(r: Registry, h: nat, l: Listener)
    requires ListsHeap(r.order, r.heap) && h in r.heap
    ensures ListsHeap(r.order, r.heap[h := l])
  {
  }

  lemma AddApart(r: Registry, h: nat, c: Callback, k: nat)
    requires Inv(r) && h in r.heap && k in r.heap && c.id == r.lastId + 1
    ensures h != k ==> Apart(Appended(r.heap[h], c), r.heap[k]) && Apart(r.heap[k], Appended(r.heap[h], c))
    ensures NameOnly(Appended(r.heap[h], c), r.heap[k]) && NameOnly(r.heap[k], Appended(r.heap[h], c))
    ensures NameOnly(Appended(r.heap[h], c), Appended(r.heap[h], c))
  {
    assert Neat(r.heap[h], r.lastId) && Neat(r.heap[k], r.lastId);
    AppendedNeat(r.heap[h], c, r.lastId);
    assert h != k ==> Apart(r.heap[h], r.heap[k]);
    assert NameOnly(r.heap[h], r.heap[k]) && NameOnly(r.heap[k], r.heap[h]) && NameOnly(r.heap[h], r.heap[h]);
  }

  lemma AddKnown(r: Registry, r': Registry, h: nat, c: Callback)
    requires h in r.heap && c.id == r.lastId + 1 && r'.heap == r.heap[h := Appended(r.heap[h], c)]
    ensures Known(r, r')
  {
    forall id | Live(r', id) ensures Live(r, id) || r.lastId < id {
      var k :| k in r'.heap && Holds(r'.heap[k], id);
      if k == h {
        assert id == c.id || Holds(r.heap[h], id);
      } else {
        assert Holds(r.heap[k], id);
      }
    }
  }

  lemma AddInv(r: Registry, h: nat, conn: bool, disc: bool, signal: bool)
    requires Inv(r) && h in r.heap
    ensures Inv(AddCallback(r, h, conn, disc, signal))
  {
    AddedInv(r, h, Callback(r.lastId + 1, conn, disc, signal), AddCallback(r, h, conn, disc, signal));
  }

  lemma AddedInv(r: Registry, h: nat, c: Callback, r': Registry)
    requires Inv(r) && h in r.heap && c.id == r.lastId + 1 && r'.heap == r.heap[h := Appended(r.heap[h], c)]
    requires r'.order == r.order && r'.lastId == c.id && r'.trace == r.trace + [Added(h, c)]
    ensures Inv(r')
  {
    AddLists(r, h, Appended(r.heap[h], c));
    AddKnown(r, r', h, c);
    StillBuried(r, r');
    FinalAfter(r, Added(h, c), c.id);
    AddNeat(r, r', h, c);
    AddPairs(r, r', h, c);
  }

  lemma AddNeat(r: Registry, r': Registry, h: nat, c: Callback)
    requires Inv(r) && h in r.heap && c.id == r.lastId + 1 && r'.lastId == c.id && r'.heap == r.heap[h := Appended(r.heap[h], c)]
    ensures AllNeat(r'.heap, r'.lastId)
  {
    forall k | k in r'.heap ensures Neat(r'.heap[k], r'.lastId) {
      assert Neat(r.heap[k], r.lastId);
      if k == h { AppendedNeat(r.heap[h], c, r.lastId); }
    }
  }

  lemma AddPairs(r: Registry, r': Registry, h: nat, c: Callback)
    requires Inv(r) && h in r.heap && c.id == r.lastId + 1 && r'.heap == r.heap[h := Appended(r.heap[h], c)]
    ensures AllApart(r'.heap)
  {
    forall j, k | j in r'.heap && k in r'.heap
      ensures (j != k ==> Apart(r'.heap[j], r'.heap[k])) && NameOnly(r'.heap[j], r'.heap[k])
    {
      if j == h {
        AddApart(r, h, c, k);
      } else if k == h {
        AddApart(r, h, c, j);
      } else {
        assert j != k ==> Apart(r.heap[j], r.heap[k]);
        assert NameOnly(r.heap[j], r.heap[k]);
      }
    }
  }

  /** Noting which watch follows the owner of the name. */
  lemma NoteInv(r: Registry, h: nat, id: nat)
    requires Inv(r) && h in r.heap && id <= r.lastId
    requires forall k :: k in r.heap ==> NameOnly(r.heap[h].(nameWatch := id), r.heap[k])
    ensures Inv(r.(heap := r.heap[h := r.heap[h].(nameWatch := id)]))
  {
    var l := r.heap[h].(nameWatch := id);
    var r' := r.(heap := r.heap[h := l]);
    NoteLive(r, r', h, l);
    StillBuried(r, r');
    NoteApart(r.heap, h, l);
    AddLists(r, h, l);
    NoteNeat(r.heap, h, l, r.lastId);
  }

  lemma NoteNeat(heap: map<nat, Listener>, h: nat, l: Listener, last: nat)
    requires AllNeat(heap, last) && h in heap && l == heap[h].(nameWatch := l.nameWatch) && l.nameWatch <= last
    ensures AllNeat(heap[h := l], last)
  {
    assert Neat(heap[h], last) && All(l) == All(heap[h]);
  }

  lemma NoteLive(r: Registry, r': Registry, h: nat, l: Listener)
    requires h in r.heap && l.callbacks == r.heap[h].callbacks && l.processed == r.heap[h].processed
    requires r'.heap == r.heap[h := l]
    ensures Known(r, r')
  {
    forall j | Live(r', j) ensures Live(r, j) {
      var k :| k in r'.heap && Holds(r'.heap[k], j);
      assert Holds(r.heap[k], j);
    }
  }

  lemma NoteApart(heap: map<nat, Listener>, h: nat, l: Listener)
    requires AllApart(heap) && h in heap && All(l) == All(heap[h]) && forall k :: k in heap ==> NameOnly(l, heap[k])
    ensures AllApart(heap[h := l])
  {
    var heap' := heap[h := l];
    forall k | k in heap' ensures All(heap'[k]) == All(heap[k]) {}
    forall j, k | j in heap' && k in heap'
      ensures (j != k ==> Apart(heap'[j], heap'[k])) && NameOnly(heap'[j], heap'[k])
    {
      assert j != k ==> Apart(heap[j], heap[k]);
      assert NameOnly(heap[j], heap[k]) && NameOnly(l, heap[k]);
    }
  }

  lemma NameOwnerInv(r: Registry, h: nat, name: Target)
    requires Inv(r) && h in r.heap
    ensures Inv(NameOwner(r, h, name))
  {
    var r1 := Get(r, name);
    GetInv(r, name);
    var r2 := AddCallback(r1, name.listener, false, false, false);
    AddInv(r1, name.listener, false, false, false);
    LastSilent(r1, name.listener, r2.heap[h]);
    NoteInv(r2, h, r2.lastId);
  }

  lemma LastSilent(r: Registry, h: nat, l: Listener)
    requires Inv(r) && h in r.heap
    ensures var r' := AddCallback(r, h, false, false, false);
            forall k :: k in r'.heap ==> NameOnly(l.(nameWatch := r'.lastId), r'.heap[k])
  {
    forall k | k in r.heap ensures Neat(r.heap[k], r.lastId) {}
    AppendedNeat(r.heap[h], Callback(r.lastId + 1, false, false, false), r.lastId);
  }

  lemma AddWatchInv(r: Registry, at: Target, conn: bool, disc: bool, signal: bool, name: Option<Target>)
    requires Inv(r)
    ensures Inv(AddWatch(r, at, conn, disc, signal, name))
  {
    GetInv(r, at);
    AddInv(Get(r, at), at.listener, conn, disc, signal);
    if name.Some? { NameOwnerInv(AddCallback(Get(r, at), at.listener, conn, disc, signal), at.listener, name.value); }
  }

  lemma NotYetLive(r: Registry)
    requires AllNeat(r.heap, r.lastId)
    ensures !Live(r, r.lastId + 1)
  {
    forall h | h in r.heap ensures !Holds(r.heap[h], r.lastId + 1) {
      var l := r.heap[h];
      assert Neat(l, r.lastId);
      assert forall c :: c in l.callbacks || c in l.processed ==> c in All(l);
    }
  }
}
