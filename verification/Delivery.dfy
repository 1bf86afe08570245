/** Delivering a message to a listener whose callbacks add and remove watches on the way: each callback that was
    there at the start has its turn once, in order, unless it was removed before; the ones added meanwhile wait.
 */
module Delivery {
  import opened Bus
  import opened Watches
  import opened WatchSafety

  /** The callbacks added to a listener, in order. */
  ghost function Additions(t: seq<Event>, h: nat): seq<Callback> {
    if t == [] then []
    else
      var e := t[|t| - 1];
      Additions(t[..|t| - 1], h) + if e.Added? && e.listener == h then [e.cb] else []
  }

  /** The watches that were called, in order. */
  ghost function Calls(t: seq<Event>): seq<nat> {
    if t == [] then []
    else
      var e := t[|t| - 1];
      Calls(t[..|t| - 1]) + if e.Called? then [e.id] else []
  }

  ghost function AddedIds(t: seq<Event>): set<nat> {
    if t == [] then {}
    else
      var e := t[|t| - 1];
      AddedIds(t[..|t| - 1]) + if e.Added? then {e.cb.id} else {}
  }

  ghost function Ids(cs: seq<Callback>): set<nat> {
    set c | c in cs :: c.id
  }

  ghost function IdList(cs: seq<Callback>): seq<nat> {
    seq(|cs|, i requires 0 <= i < |cs| => cs[i].id)
  }

  lemma {:induction false} AdditionsConcat(a: seq<Event>, b: seq<Event>, h: nat)
    ensures Additions(a + b, h) == Additions(a, h) + Additions(b, h)
  {
    if b == [] {
      assert a + b == a;
    } else {
      AdditionsConcat(a, b[..|b| - 1], h);
      assert (a + b)[..|a + b| - 1] == a + b[..|b| - 1];
    }
  }

  lemma {:induction false} CallsConcat(a: seq<Event>, b: seq<Event>)
    ensures Calls(a + b) == Calls(a) + Calls(b)
  {
    if b == [] {
      assert a + b == a;
    } else {
      CallsConcat(a, b[..|b| - 1]);
      assert (a + b)[..|a + b| - 1] == a + b[..|b| - 1];
    }
  }

  lemma {:induction false} AdditionsAreAdded(t: seq<Event>, h: nat)
    ensures forall c :: c in Additions(t, h) ==> c.id in AddedIds(t)
  {
    if t != [] { AdditionsAreAdded(t[..|t| - 1], h); }
  }

  lemma {:induction false} AddedConcat(a: seq<Event>, b: seq<Event>)
    ensures AddedIds(a + b) == AddedIds(a) + AddedIds(b)
  {
    if b == [] {
      assert a + b == a;
    } else {
      AddedConcat(a, b[..|b| - 1]);
      assert (a + b)[..|a + b| - 1] == a + b[..|b| - 1];
    }
  }

  lemma {:induction false} NoCalls(t: seq<Event>)
    requires forall e :: e in t ==> !e.Called?
    ensures Calls(t) == []
  {
    if t != [] { NoCalls(t[..|t| - 1]); }
  }

  lemma {:induction false} NoAdditions(t: seq<Event>, h: nat)
    requires OnlyDestroys(t)
    ensures Additions(t, h) == [] && AddedIds(t) == {}
  {
    if t != [] {
      assert t[|t| - 1] in t;
      NoAdditions(t[..|t| - 1], h);
    }
  }

  /** The watches named in a stretch of the trace were known by its end, and those added were new at its start. */
  ghost predicate Dated(t: seq<Event>, from: nat, to: nat) {
    && from <= to && (forall d :: d in Gone(t) ==> d <= to) && (forall d :: d in AddedIds(t) ==> from < d <= to)
  }

  /** What the actions of a callback do to the listener being dispatched. */
  ghost predicate Effect(r: Registry, r': Registry, h: nat, t: seq<Event>) {
    && Locked(r, h) && Locked(r', h) && r'.trace == r.trace + t && Dated(t, r.lastId, r'.lastId)
    && r'.heap[h].service == r.heap[h].service && r'.heap[h].unique == r.heap[h].unique
    && r'.heap[h].callbacks == Keep(r.heap[h].callbacks, Gone(t))
    && r'.heap[h].processed == Keep(r.heap[h].processed + Additions(t, h), Gone(t))
    && forall e :: e in t ==> !e.Called?
  }

  lemma DatedTwice(t: seq<Event>, t': seq<Event>, from: nat, mid: nat, to: nat)
    requires Dated(t, from, mid) && Dated(t', mid, to)
    ensures Dated(t + t', from, to) && Gone(t + t') == Gone(t) + Gone(t') && AddedIds(t + t') == AddedIds(t) + AddedIds(t')
  {
    GoneConcat(t, t');
    AddedConcat(t, t');
  }

  lemma EffectTwice(r: Registry, m: Registry, r': Registry, h: nat, t: seq<Event>, t': seq<Event>)
    requires Effect(r, m, h, t) && Effect(m, r', h, t')
    ensures Effect(r, r', h, t + t')
  {
    DatedTwice(t, t', r.lastId, m.lastId, r'.lastId);
    KeepTwice(r.heap[h].callbacks, Gone(t), Gone(t'));
    AdditionsAreAdded(t', h);
    ProcessedTwice(r.heap[h].processed, Additions(t, h), Additions(t', h), Gone(t), Gone(t'));
    AdditionsConcat(t, t', h);
    TraceTwice(r.trace, t, t');
  }

  lemma TraceTwice(trace: seq<Event>, t: seq<Event>, t': seq<Event>)
    ensures trace + t + t' == trace + (t + t')
  {
  }

  lemma ProcessedTwice(p: seq<Callback>, a: seq<Callback>, a': seq<Callback>, g: set<nat>, g': set<nat>)
    requires forall c :: c in a' ==> c.id !in g
    ensures Keep(Keep(p + a, g) + a', g') == Keep(p + (a + a'), g + g')
  {
    KeepMore(p + a, a', g, g');
    CallbacksTwice(p, a, a');
  }

  lemma KeepMore(p: seq<Callback>, a: seq<Callback>, g: set<nat>, g': set<nat>)
    requires forall c :: c in a ==> c.id !in g
    ensures Keep(Keep(p, g) + a, g') == Keep(p + a, g + g')
  {
    KeepConcat(Keep(p, g), a, g');
    KeepTwice(p, g, g');
    KeepSame(a, g', g + g');
    KeepConcat(p, a, g + g');
  }

  lemma CallbacksTwice(p: seq<Callback>, a: seq<Callback>, a': seq<Callback>)
    ensures p + a + a' == p + (a + a')
  {
  }

  lemma EffectNothing(r: Registry, h: nat)
    requires Locked(r, h)
    ensures Effect(r, r, h, [])
  {
    KeepAll(r.heap[h].callbacks, {});
    KeepAll(r.heap[h].processed, {});
    assert Gone([]) == {} && r.heap[h].processed + [] == r.heap[h].processed && r.trace + [] == r.trace;
  }

  lemma AddEffect(r: Registry, h: nat, k: nat, conn: bool, disc: bool, signal: bool)
    requires Locked(r, h) && k in r.heap
    ensures Effect(r, AddCallback(r, k, conn, disc, signal), h, [Added(k, Callback(r.lastId + 1, conn, disc, signal))])
  {
    var c := Callback(r.lastId + 1, conn, disc, signal);
    OneAdded(k, c, h);
    KeepAll(r.heap[h].callbacks, {});
    KeepAll(r.heap[h].processed, {});
    KeepAll(r.heap[h].processed + [c], {});
    NothingAdded(r.heap[h].processed);
  }

  lemma NothingAdded(cs: seq<Callback>)
    ensures cs + [] == cs
  {
  }

  lemma OneAdded(k: nat, c: Callback, h: nat)
    ensures var t := [Added(k, c)];
            Gone(t) == {} && AddedIds(t) == {c.id} && Additions(t, h) == if k == h then [c] else []
  {
    assert [Added(k, c)][..0] == [];
  }

  lemma NameOwnerEffect(r: Registry, h: nat, k: nat, name: Target)
    requires Locked(r, h) && k in r.heap
    ensures Effect(r, NameOwner(r, k, name), h, [Added(name.listener, Callback(r.lastId + 1, false, false, false))])
  {
    var r1 := Get(r, name);
    AddEffect(r1, h, name.listener, false, false, false);
  }

  lemma AddedEffect(r: Registry, h: nat, a: Action)
    requires Locked(r, h) && a.Add?
    ensures var t := [Added(a.at.listener, Callback(r.lastId + 1, a.conn, a.disc, a.signal))];
            Effect(r, AddCallback(Get(r, a.at), a.at.listener, a.conn, a.disc, a.signal), h, t) && Gone(t) == {}
  {
    AddEffect(Get(r, a.at), h, a.at.listener, a.conn, a.disc, a.signal);
  }

  lemma AddWatchEffect(r: Registry, h: nat, a: Action) returns (t: seq<Event>)
    requires Locked(r, h) && a.Add?
    ensures Effect(r, Perform(r, a), h, t) && Gone(t) == {}
  {
    AddedEffect(r, h, a);
    t := [Added(a.at.listener, Callback(r.lastId + 1, a.conn, a.disc, a.signal))];
    var r2 := AddCallback(Get(r, a.at), a.at.listener, a.conn, a.disc, a.signal);
    if a.name.Some? && r2.heap[a.at.listener].nameWatch == 0 {
      NameOwnerEffect(r2, h, a.at.listener, a.name.value);
      var t2 := [Added(a.name.value.listener, Callback(r2.lastId + 1, false, false, false))];
      EffectTwice(r, r2, NameOwner(r2, a.at.listener, a.name.value), h, t, t2);
      t := t + t2;
    }
  }

  lemma RemovalLocked(r: Registry, r': Registry, h: nat, id: nat, t: seq<Event>)
    requires Inv(r') && Locked(r, h) && RemovalEffect(r, r', id, t)
    ensures Effect(r, r', h, t)
  {
    NoAdditions(t, h);
    assert r.heap[h].processed + [] == r.heap[h].processed;
    forall d | d in Gone(t) ensures d <= r'.lastId {
      assert Destroyed(d) in r'.trace;
    }
  }

  /** An action that is not the removal of a callback leaves that callback alone, if it has a function to call. */
  ghost predicate Spares(l: Listener, a: Action, t: seq<Event>) {
    forall c :: c in l.callbacks && !Silent(c) && a != Remove(c.id) ==> c.id !in Gone(t)
  }

  lemma PerformSafe(r: Registry, a: Action)
    requires Inv(r)
    ensures Inv(Perform(r, a))
  {
    if a.Remove? {
      var t := RemoveSafe(r, a.id);
    } else {
      AddWatchInv(r, a.at, a.conn, a.disc, a.signal, a.name);
    }
  }

  lemma AskedIsGone(r: Registry, h: nat, c: Callback, t: seq<Event>)
    requires Inv(r) && h in r.heap && c in r.heap[h].callbacks && RemoveWatch(r, c.id).trace == r.trace + t
    ensures c.id in Gone(t)
  {
    HeldCallback(r, h, c);
    var t' := RemoveSafe(r, c.id);
    assert t == RemoveWatch(r, c.id).trace[|r.trace|..] == t';
  }

  lemma PerformEffect(r: Registry, h: nat, a: Action) returns (t: seq<Event>)
    requires Inv(r) && Locked(r, h)
    ensures Effect(r, Perform(r, a), h, t) && Spares(r.heap[h], a, t)
  {
    if a.Remove? {
      t := RemoveSafe(r, a.id);
      RemovalLocked(r, Perform(r, a), h, a.id, t);
      assert TakesFrom(r.heap[h], Gone(t), a.id);
    } else {
      t := AddWatchEffect(r, h, a);
    }
  }

  /** The actions of one callback: the invariant, the effect on the listener, and the callback itself spared exactly
      unless it asked to be removed. */
  lemma {:induction false} ActionsSafe(r: Registry, h: nat, actions: seq<Action>, c: Callback) returns (t: seq<Event>)
    requires Inv(r) && Locked(r, h)
    ensures Inv(PerformAll(r, actions)) && Effect(r, PerformAll(r, actions), h, t)
    ensures c in r.heap[h].callbacks && !Silent(c) ==> (c.id in Gone(t) <==> Remove(c.id) in actions)
    decreases |actions|
  {
    if actions == [] {
      EffectNothing(r, h);
      t := [];
    } else {
      var m := Perform(r, actions[0]);
      assert actions == [actions[0]] + actions[1..];
      PerformSafe(r, actions[0]);
      var t1 := PerformEffect(r, h, actions[0]);
      if c in r.heap[h].callbacks && actions[0] == Remove(c.id) { AskedIsGone(r, h, c, t1); }
      var t2 := ActionsSafe(m, h, actions[1..], c);
      KeepMembers(r.heap[h].callbacks, Gone(t1));
      EffectTwice(r, m, PerformAll(m, actions[1..]), h, t1, t2);
      GoneConcat(t1, t2);
      t := t1 + t2;
    }
  }

  // ---- one turn ----

  lemma HeldCallback(r: Registry, h: nat, c: Callback)
    requires Inv(r) && h in r.heap && c in r.heap[h].callbacks
    ensures Live(r, c.id) && 1 <= c.id <= r.lastId && Holds(r.heap[h], c.id) && Distinct(All(r.heap[h]))
  {
    assert HasId(r.heap[h].callbacks, c.id);
    HeldId(r, h, c.id);
    assert Neat(r.heap[h], r.lastId);
  }

  lemma CalledInv(r: Registry, h: nat, c: Callback, f: Function)
    requires Inv(r) && h in r.heap && c in r.heap[h].callbacks
    ensures Inv(r.(trace := r.trace + [Called(h, c.id, f)]))
  {
    var r' := r.(trace := r.trace + [Called(h, c.id, f)]);
    HeldCallback(r, h, c);
    FinalAfter(r, Called(h, c.id, f), c.id);
    SameLive(r, r');
    StillBuried(r, r');
  }

  lemma SameLive(r: Registry, r': Registry)
    requires r'.heap == r.heap
    ensures Known(r, r')
  {
    forall id | Live(r', id) ensures Live(r, id) {
      var h :| h in r'.heap && Holds(r'.heap[h], id);
      assert Holds(r.heap[h], id);
    }
  }

  ghost function Moved(l: Listener, c: Callback): Listener {
    l.(callbacks := RemoveFirst(l.callbacks, c.id), processed := l.processed + [c])
  }

  lemma MovedNeat(l: Listener, c: Callback, last: nat)
    requires Neat(l, last) && l.lock && c in l.callbacks
    ensures Neat(Moved(l, c), last) && Moved(l, c).callbacks == Keep(l.callbacks, {c.id})
    ensures forall d :: d in All(Moved(l, c)) <==> d in All(l)
  {
    MovedAll(l, c);
    KeepDistinct(All(l), {c.id});
    KeepMembers(All(l), {c.id});
    SameOne(All(l), c);
  }

  lemma MovedAll(l: Listener, c: Callback)
    requires Distinct(All(l)) && c in l.callbacks
    ensures All(Moved(l, c)) == Keep(All(l), {c.id}) + [c] && Moved(l, c).callbacks == Keep(l.callbacks, {c.id})
  {
    CutListener(l, c.id);
    NotBehind(l, c);
    KeepAll(l.processed, {c.id});
    KeepConcat(l.callbacks, l.processed, {c.id});
  }

  lemma NotBehind(l: Listener, c: Callback)
    requires Distinct(All(l)) && c in l.callbacks
    ensures forall d :: d in l.processed ==> d.id != c.id
  {
    var i :| 0 <= i < |l.callbacks| && l.callbacks[i] == c;
    assert All(l)[i] == c;
    forall d | d in l.processed ensures d.id != c.id {
      var j :| 0 <= j < |l.processed| && l.processed[j] == d;
      assert All(l)[|l.callbacks| + j] == d;
    }
  }

  lemma SameOne(cs: seq<Callback>, c: Callback)
    requires Distinct(cs) && c in cs
    ensures forall d :: d in cs && d.id == c.id ==> d == c
  {
  }

  lemma MoveInv(r: Registry, h: nat, c: Callback)
    requires Inv(r) && Locked(r, h) && c in r.heap[h].callbacks
    ensures Inv(Move(r, h, c)) && Move(r, h, c).heap[h].callbacks == Keep(r.heap[h].callbacks, {c.id})
  {
    assert Neat(r.heap[h], r.lastId);
    MovedNeat(r.heap[h], c, r.lastId);
    SameMembers(r, Move(r, h, c), h);
  }

  /** Rearranging one listener keeps the registry in order. */
  lemma SameMembers(r: Registry, r': Registry, h: nat)
    requires Inv(r) && h in r.heap && h in r'.heap && r' == r.(heap := r.heap[h := r'.heap[h]])
    requires Neat(r'.heap[h], r.lastId) && r'.heap[h].nameWatch == r.heap[h].nameWatch
    requires forall d :: d in All(r'.heap[h]) ==> d in All(r.heap[h])
    ensures Inv(r')
  {
    AddLists(r, h, r'.heap[h]);
    FewerKnown(r, r', h);
    StillBuried(r, r');
    FewerApart(r.heap, h, r'.heap[h]);
  }

  lemma FewerKnown(r: Registry, r': Registry, h: nat)
    requires h in r.heap && h in r'.heap && r'.heap == r.heap[h := r'.heap[h]]
    requires forall d :: d in All(r'.heap[h]) ==> d in All(r.heap[h])
    ensures Known(r, r')
  {
    forall id | Live(r', id) ensures Live(r, id) {
      var k :| k in r'.heap && Holds(r'.heap[k], id);
      HoldsIsIn(r'.heap[k], id);
      HoldsIsIn(r.heap[k], id);
    }
  }

  lemma FewerApart(heap: map<nat, Listener>, h: nat, l: Listener)
    requires AllApart(heap) && h in heap && l.nameWatch == heap[h].nameWatch && forall d :: d in All(l) ==> d in All(heap[h])
    ensures AllApart(heap[h := l])
  {
    var heap' := heap[h := l];
    forall j, k | j in heap' && k in heap'
      ensures (j != k ==> Apart(heap'[j], heap'[k])) && NameOnly(heap'[j], heap'[k])
    {
      assert j != k ==> Apart(heap[j], heap[k]);
      assert NameOnly(heap[j], heap[k]);
    }
  }

  /** What one turn does: the callback leaves the head of the list, and is kept behind unless it is gone. */
  ghost predicate TurnEffect(r: Registry, r': Registry, h: nat, c: Callback, heard: bool, t: seq<Event>) {
    && Locked(r, h) && Locked(r', h) && r'.trace == r.trace + t && Dated(t, r.lastId, r'.lastId)
    && r'.heap[h].service == r.heap[h].service && r'.heap[h].unique == r.heap[h].unique
    && r'.heap[h].callbacks == Keep(r.heap[h].callbacks, Gone(t) + {c.id})
    && r'.heap[h].processed == Keep(r.heap[h].processed + Additions(t, h) + [c], Gone(t))
    && Calls(t) == if heard then [c.id] else []
  }

  lemma KeepOne(c: Callback, gone: set<nat>)
    ensures Keep([c], gone) == if c.id in gone then [] else [c]
  {
    assert [c][..0] == [];
  }

  lemma StaysBehind(p: seq<Callback>, c: Callback, gone: set<nat>)
    requires c.id !in gone
    ensures Keep(p + [c], gone) == Keep(p, gone) + [c]
  {
    KeepConcat(p, [c], gone);
    KeepOne(c, gone);
  }

  lemma LeavesBehind(p: seq<Callback>, c: Callback, gone: set<nat>)
    requires c.id in gone
    ensures Keep(p + [c], gone) == Keep(p, gone)
  {
    KeepConcat(p, [c], gone);
    KeepOne(c, gone);
  }

  /** The turn of a callback, given what calling it did. */
  lemma SettleEffect(r: Registry, m: Registry, h: nat, c: Callback, leaves: bool, t: seq<Event>) returns (t': seq<Event>)
    requires Inv(m) && Effect(r, m, h, t) && c in r.heap[h].callbacks && c.id <= r.lastId
    ensures var r' := Settle(m, h, c, leaves);
            Inv(r') && TurnEffect(r, r', h, c, false, t') && (c.id !in Gone(t) ==> (c.id in Gone(t') <==> leaves))
    ensures t <= t' && Additions(t', h) == Additions(t, h)
  {
    NoCalls(t);
    KeepMembers(r.heap[h].callbacks, Gone(t));
    if c.id in Gone(t) {
      t' := t;
      assert Gone(t) + {c.id} == Gone(t);
      LeavesBehind(r.heap[h].processed + Additions(t, h), c, Gone(t));
    } else if leaves {
      t' := t + [Destroyed(c.id)];
      HeldCallback(m, h, c);
      CutOnly(m, h, c.id);
      CutEffect(r, m, h, c, t);
      OneMore(t, c.id, h, r.lastId, m.lastId);
    } else {
      t' := t;
      MoveInv(m, h, c);
      KeepTwice(r.heap[h].callbacks, Gone(t), {c.id});
      StaysBehind(r.heap[h].processed + Additions(t, h), c, Gone(t));
    }
  }

  lemma OneDestroyed(id: nat, h: nat)
    ensures var d := [Destroyed(id)];
            Gone(d) == {id} && AddedIds(d) == {} && Additions(d, h) == [] && Calls(d) == []
  {
    NoAdditions([Destroyed(id)], h);
    NoCalls([Destroyed(id)]);
  }

  lemma OneMore(t: seq<Event>, id: nat, h: nat, from: nat, to: nat)
    requires Dated(t, from, to) && id <= to
    ensures var t' := t + [Destroyed(id)];
            && Dated(t', from, to) && Gone(t') == Gone(t) + {id} && Additions(t', h) == Additions(t, h)
            && Calls(t') == Calls(t)
  {
    var d := [Destroyed(id)];
    OneDestroyed(id, h);
    DatedTwice(t, d, from, to, to);
    AdditionsConcat(t, d, h);
    CallsConcat(t, d);
  }

  lemma CutLists(l: Listener, m: Listener, a: seq<Callback>, c: Callback, gone: set<nat>)
    requires m.callbacks == Keep(l.callbacks, gone) && m.processed == Keep(l.processed + a, gone)
    ensures Keep(m.callbacks, {c.id}) == Keep(l.callbacks, gone + {c.id} + {c.id})
    ensures Keep(m.processed, {c.id}) == Keep(l.processed + a + [c], gone + {c.id})
  {
    KeepTwice(l.callbacks, gone, {c.id});
    KeepTwice(l.processed + a, gone, {c.id});
    LeavesBehind(l.processed + a, c, gone + {c.id});
    assert gone + {c.id} + {c.id} == gone + {c.id};
  }

  lemma CutEffect(r: Registry, m: Registry, h: nat, c: Callback, t: seq<Event>)
    requires Effect(r, m, h, t) && c.id <= r.lastId
    requires Distinct(All(m.heap[h])) && Calls(t) == []
    ensures TurnEffect(r, Cut(m, h, c.id), h, c, false, t + [Destroyed(c.id)])
  {
    CutListener(m.heap[h], c.id);
    OneMore(t, c.id, h, r.lastId, m.lastId);
    CutLists(r.heap[h], m.heap[h], Additions(t, h), c, Gone(t));
    TraceTwice(r.trace, t, [Destroyed(c.id)]);
  }

  /** One turn keeps the invariant and does what TurnEffect says; its callback is gone afterwards exactly if it asked for
      its own removal or goes by itself. */
  lemma TurnSafe(r: Registry, h: nat, c: Callback, notice: Notice, react: Environment) returns (t: seq<Event>)
    requires Inv(r) && Locked(r, h) && c in r.heap[h].callbacks
    ensures var r' := Turn(r, h, c, notice, react);
            Inv(r') && TurnEffect(r, r', h, c, Hears(r.heap[h], c, notice), t)
    ensures if Hears(r.heap[h], c, notice) then t != [] && t[0] == Called(h, c.id, Asked(r.heap[h], notice)) else Additions(t, h) == []
    ensures var heard, reaction := Hears(r.heap[h], c, notice), react(r.trace, c.id);
            c.id in Gone(t) <==> (heard && Remove(c.id) in reaction.actions) || Leaves(r.heap[h], c, heard, reaction.keep)
  {
    HeldCallback(r, h, c);
    var heard := Hears(r.heap[h], c, notice);
    var leaves := Leaves(r.heap[h], c, heard, react(r.trace, c.id).keep);
    if heard {
      t := CalledTurnSafe(r, h, c, Asked(r.heap[h], notice), leaves, react);
    } else {
      EffectNothing(r, h);
      t := SettleEffect(r, r, h, c, leaves, []);
    }
  }

  lemma CalledTurnSafe(r: Registry, h: nat, c: Callback, f: Function, leaves: bool, react: Environment) returns (t: seq<Event>)
    requires Inv(r) && Locked(r, h) && c in r.heap[h].callbacks && !Silent(c) && c.id <= r.lastId
    ensures var r' := Settle(CallOut(r, h, c, f, react), h, c, leaves); Inv(r') && TurnEffect(r, r', h, c, true, t)
    ensures t != [] && t[0] == Called(h, c.id, f)
    ensures c.id in Gone(t) <==> Remove(c.id) in react(r.trace, c.id).actions || leaves
  {
    var actions := react(r.trace, c.id).actions;
    var r0 := r.(trace := r.trace + [Called(h, c.id, f)]);
    CalledInv(r, h, c, f);
    var t1 := ActionsSafe(r0, h, actions, c);
    var t2 := SettleEffect(r0, PerformAll(r0, actions), h, c, leaves, t1);
    t := [Called(h, c.id, f)] + t2;
    CalledFirst(r, r0, Settle(PerformAll(r0, actions), h, c, leaves), h, c, f, t2);
    assert c.id in Gone(t1) ==> c.id in Gone(t2);
  }

  lemma OneCalled(h: nat, id: nat, f: Function)
    ensures var d := [Called(h, id, f)];
            Gone(d) == {} && AddedIds(d) == {} && Additions(d, h) == [] && Calls(d) == [id]
  {
    var d := [Called(h, id, f)];
    assert d[..|d| - 1] == [];
    assert Calls([]) == [] && Additions([], h) == [];
  }

  lemma CalledFirst(r: Registry, r0: Registry, r': Registry, h: nat, c: Callback, f: Function, t: seq<Event>)
    requires r0 == r.(trace := r.trace + [Called(h, c.id, f)]) && TurnEffect(r0, r', h, c, false, t)
    ensures TurnEffect(r, r', h, c, true, [Called(h, c.id, f)] + t)
  {
    var d := [Called(h, c.id, f)];
    OneCalled(h, c.id, f);
    DatedTwice(d, t, r.lastId, r.lastId, r'.lastId);
    AdditionsConcat(d, t, h);
    CallsConcat(d, t);
    TraceTwice(r.trace, d, t);
    assert {} + Gone(t) == Gone(t) && [] + Additions(t, h) == Additions(t, h) && [c.id] + [] == [c.id];
  }
}
