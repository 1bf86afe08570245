/** Signal watches: callbacks grouped in listeners, removed and added while a message is being
    delivered to them. A listener is known by its address; the registry is the list of
    addresses together with the memory they point to.
 */
module Watches {
  import opened Bus

  /** A registered callback and which of its three functions are set. */
  datatype Callback = Callback(id: nat, conn: bool, disc: bool, signal: bool)

  datatype Listener = Listener(service: bool, unique: bool, callbacks: seq<Callback>, processed: seq<Callback>,
                               nameWatch: nat, lock: bool)

  datatype Function = Connect | Disconnect | Signal

  datatype Event =
    | Called(listener: nat, id: nat, what: Function)
    | Added(listener: nat, cb: Callback)
    | Destroyed(id: nat)

  datatype Registry = Registry(order: seq<nat>, heap: map<nat, Listener>, lastId: nat, trace: seq<Event>)

  /** What NameOwnerChanged said; a listener for other signals does not look at it. */
  datatype Notice = Appeared | Vanished | Malformed

  /** The listener that the match rule of a new watch selects: an existing one, or a new one. */
  datatype Target = Target(listener: nat, service: bool, unique: bool)

  datatype Action =
    | Add(at: Target, conn: bool, disc: bool, signal: bool, name: Option<Target>)
    | Remove(id: nat)

  /** What a callback does when called: it adds and removes watches and says whether it stays. */
  datatype Reaction = Reaction(actions: seq<Action>, keep: bool)

  type Environment = (seq<Event>, nat) -> Reaction

  predicate Silent(c: Callback) {
    !c.conn && !c.disc && !c.signal
  }

  function RemoveFirst(cs: seq<Callback>, id: nat): (r: seq<Callback>)
    ensures r == cs || |r| < |cs|
    ensures forall c :: c in r ==> c in cs
  {
    if cs == [] then [] else if cs[0].id == id then cs[1..] else [cs[0]] + RemoveFirst(cs[1..], id)
  }

  function Without(order: seq<nat>, h: nat): (r: seq<nat>)
    ensures h in order ==> |r| < |order|
  {
    if order == [] then [] else if order[0] == h then order[1..] else [order[0]] + Without(order[1..], h)
  }

  predicate HasId(cs: seq<Callback>, id: nat) {
    exists c :: c in cs && c.id == id
  }

  predicate Holds(l: Listener, id: nat) {
    HasId(l.callbacks, id) || HasId(l.processed, id)
  }

  /** The first listener in the list that holds the watch. */
  function Holder(order: seq<nat>, heap: map<nat, Listener>, id: nat): (r: Option<nat>)
    ensures r.Some? ==> r.value in order && r.value in heap && Holds(heap[r.value], id)
  {
    if order == [] then None
    else if order[0] in heap && Holds(heap[order[0]], id) then Some(order[0])
    else Holder(order[1..], heap, id)
  }

  function Get(r: Registry, t: Target): Registry {
    if t.listener in r.heap then r
    else r.(order := r.order + [t.listener],
            heap := r.heap[t.listener := Listener(t.service, t.unique, [], [], 0, false)])
  }

  function Appended(l: Listener, c: Callback): Listener {
    if l.lock then l.(processed := l.processed + [c]) else l.(callbacks := l.callbacks + [c])
  }

  function AddCallback(r: Registry, h: nat, conn: bool, disc: bool, signal: bool): Registry
    requires h in r.heap
  {
    var c := Callback(r.lastId + 1, conn, disc, signal);
    r.(lastId := r.lastId + 1, heap := r.heap[h := Appended(r.heap[h], c)], trace := r.trace + [Added(h, c)])
  }

  /** A signal watch on a well-known name also needs the owner of that name, once for each listener. */
  function NameOwner(r: Registry, h: nat, name: Target): Registry
    requires h in r.heap
  {
    var r1 := Get(r, name);
    var r2 := AddCallback(r1, name.listener, false, false, false);
    r2.(heap := r2.heap[h := r2.heap[h].(nameWatch := r2.lastId)])
  }

  function AddWatch(r: Registry, at: Target, conn: bool, disc: bool, signal: bool, name: Option<Target>): Registry {
    var r1 := AddCallback(Get(r, at), at.listener, conn, disc, signal);
    if name.Some? && r1.heap[at.listener].nameWatch == 0 then NameOwner(r1, at.listener, name.value) else r1
  }

  function Cut(r: Registry, h: nat, id: nat): Registry
    requires h in r.heap
  {
    var l := r.heap[h];
    r.(heap := r.heap[h := l.(callbacks := RemoveFirst(l.callbacks, id), processed := RemoveFirst(l.processed, id))],
       trace := r.trace + [Destroyed(id)])
  }

  function Freed(r: Registry, h: nat): (f: Registry)
    ensures h in r.order ==> |f.order| < |r.order|
  {
    r.(order := Without(r.order, h), heap := r.heap - {h})
  }

  /** Take one callback out of a listener; an idle listener without callbacks goes too, and with it the
      watch it kept on the owner of its name. */
  function RemoveCallback(r: Registry, h: nat, id: nat): Registry
    requires h in r.heap && h in r.order
    decreases |r.order|, 0
  {
    var r1 := Cut(r, h, id);
    var l := r1.heap[h];
    if l.callbacks != [] || l.lock then r1 else RemoveWatch(Freed(r1, h), l.nameWatch)
  }

  function RemoveWatch(r: Registry, id: nat): Registry
    decreases |r.order|, 1
  {
    if id == 0 then r else
    var h := Holder(r.order, r.heap, id);
    if h.None? then r else RemoveCallback(r, h.value, id)
  }

  function Perform(r: Registry, a: Action): Registry {
    match a
    case Add(at, conn, disc, signal, name) => AddWatch(r, at, conn, disc, signal, name)
    case Remove(id) => RemoveWatch(r, id)
  }

  function PerformAll(r: Registry, actions: seq<Action>): Registry
    decreases |actions|
  {
    if actions == [] then r else PerformAll(Perform(r, actions[0]), actions[1..])
  }

  predicate Hears(l: Listener, c: Callback, notice: Notice) {
    if l.service then (notice.Appeared? && c.conn) || (notice.Vanished? && c.disc) else c.signal
  }

  /** The function that a message to the listener is for. */
  function Asked(l: Listener, notice: Notice): Function {
    if !l.service then Signal else if notice.Vanished? then Disconnect else Connect
  }

  /** Whether the callback goes after its turn: a signal callback that was called and said so,
      a watch on a unique bus name that waits for one direction only. */
  predicate Leaves(l: Listener, c: Callback, heard: bool, keep: bool) {
    if l.service then l.unique && (!c.conn || !c.disc) else heard && !keep
  }

  function Move(r: Registry, h: nat, c: Callback): Registry
    requires h in r.heap
  {
    var l := r.heap[h];
    r.(heap := r.heap[h := l.(callbacks := RemoveFirst(l.callbacks, c.id), processed := l.processed + [c])])
  }

  function Settle(r: Registry, h: nat, c: Callback, leaves: bool): Registry {
    if h !in r.heap || h !in r.order || c !in r.heap[h].callbacks then r
    else if leaves then RemoveCallback(r, h, c.id)
    else Move(r, h, c)
  }

  /** What calling the callback does to the registry. */
  function CallOut(r: Registry, h: nat, c: Callback, f: Function, react: Environment): Registry {
    PerformAll(r.(trace := r.trace + [Called(h, c.id, f)]), react(r.trace, c.id).actions)
  }

  /** One pass through the dispatch loop, for the callback at the head of the list. */
  function Turn(r: Registry, h: nat, c: Callback, notice: Notice, react: Environment): Registry
    requires h in r.heap
  {
    var heard := Hears(r.heap[h], c, notice);
    Settle(if heard then CallOut(r, h, c, Asked(r.heap[h], notice), react) else r, h, c,
           Leaves(r.heap[h], c, heard, react(r.trace, c.id).keep))
  }

  /** A listener that is being dispatched: it stays, and its list of callbacks only loses elements. */
  ghost predicate Held(r: Registry, r': Registry, h: nat) {
    && h in r.heap && h in r'.heap && h in r'.order && r'.heap[h].lock
    && r'.heap[h].service == r.heap[h].service && r'.heap[h].unique == r.heap[h].unique
    && (r'.heap[h].callbacks == r.heap[h].callbacks || |r'.heap[h].callbacks| < |r.heap[h].callbacks|)
  }

  predicate Locked(r: Registry, h: nat) {
    h in r.heap && h in r.order && r.heap[h].lock
  }

  lemma WithoutOther(order: seq<nat>, h: nat, k: nat)
    requires k in order && k != h
    ensures k in Without(order, h)
  {
    if order[0] != h && order[0] != k { WithoutOther(order[1..], h, k); }
  }

  lemma {:induction false} RemoveHeld(r: Registry, h: nat, id: nat)
    requires Locked(r, h)
    ensures Held(r, RemoveWatch(r, id), h)
    decreases |r.order|
  {
    if id != 0 {
      var k := Holder(r.order, r.heap, id);
      if k.Some? {
        var r1 := Cut(r, k.value, id);
        if r1.heap[k.value].callbacks == [] && !r1.heap[k.value].lock {
          WithoutOther(r.order, k.value, h);
          RemoveHeld(Freed(r1, k.value), h, r1.heap[k.value].nameWatch);
        }
      }
    }
  }

  lemma NameOwnerHeld(r: Registry, h: nat, k: nat, name: Target)
    requires Locked(r, h) && k in r.heap
    ensures Held(r, NameOwner(r, k, name), h)
  {
  }

  lemma AddHeld(r: Registry, h: nat, a: Action)
    requires Locked(r, h) && a.Add?
    ensures Held(r, Perform(r, a), h)
  {
    var r1 := AddCallback(Get(r, a.at), a.at.listener, a.conn, a.disc, a.signal);
    assert Held(r, r1, h);
    if a.name.Some? { NameOwnerHeld(r1, h, a.at.listener, a.name.value); }
  }

  lemma PerformHeld(r: Registry, h: nat, a: Action)
    requires Locked(r, h)
    ensures Held(r, Perform(r, a), h)
  {
    if a.Remove? { RemoveHeld(r, h, a.id); } else { AddHeld(r, h, a); }
  }

  lemma {:induction false} PerformAllHeld(r: Registry, h: nat, actions: seq<Action>)
    requires Locked(r, h)
    ensures Held(r, PerformAll(r, actions), h)
    decreases |actions|
  {
    if actions != [] {
      PerformHeld(r, h, actions[0]);
      PerformAllHeld(Perform(r, actions[0]), h, actions[1..]);
    }
  }

  lemma RemoveFirstOf(cs: seq<Callback>, c: Callback)
    requires c in cs
    ensures |RemoveFirst(cs, c.id)| < |cs|
  {
  }

  lemma TurnShrinks(r: Registry, h: nat, c: Callback, notice: Notice, react: Environment)
    requires Locked(r, h) && c in r.heap[h].callbacks
    ensures var r' := Turn(r, h, c, notice, react);
            Held(r, r', h) && |r'.heap[h].callbacks| < |r.heap[h].callbacks|
  {
    if Hears(r.heap[h], c, notice) {
      var f := Asked(r.heap[h], notice);
      PerformAllHeld(r.(trace := r.trace + [Called(h, c.id, f)]), h, react(r.trace, c.id).actions);
      SettleShrinks(CallOut(r, h, c, f, react), h, c, Leaves(r.heap[h], c, true, react(r.trace, c.id).keep));
    } else {
      SettleShrinks(r, h, c, Leaves(r.heap[h], c, false, react(r.trace, c.id).keep));
    }
  }

  lemma SettleShrinks(r: Registry, h: nat, c: Callback, leaves: bool)
    requires Locked(r, h)
    ensures var r' := Settle(r, h, c, leaves);
            Held(r, r', h) && (c in r.heap[h].callbacks ==> |r'.heap[h].callbacks| < |r.heap[h].callbacks|)
  {
    if c in r.heap[h].callbacks { RemoveFirstOf(r.heap[h].callbacks, c); }
  }

  /** The dispatch loop: always the callback at the head of the list, until the list is empty. */
  function Loop(r: Registry, h: nat, notice: Notice, react: Environment): Registry
    requires Locked(r, h)
    decreases |r.heap[h].callbacks|
  {
    if r.heap[h].callbacks == [] then r else
    TurnShrinks(r, h, r.heap[h].callbacks[0], notice, react);
    Loop(Turn(r, h, r.heap[h].callbacks[0], notice, react), h, notice, react)
  }

  function WithLock(r: Registry, h: nat): Registry
    requires h in r.heap
  {
    r.(heap := r.heap[h := r.heap[h].(lock := true)])
  }

  function Unlocked(r: Registry, h: nat): Registry
    requires h in r.heap
  {
    r.(heap := r.heap[h := r.heap[h].(callbacks := r.heap[h].processed, processed := [], lock := false)])
  }

  lemma {:induction false} LoopHeld(r: Registry, h: nat, notice: Notice, react: Environment)
    requires Locked(r, h)
    ensures Held(r, Loop(r, h, notice, react), h) && Loop(r, h, notice, react).heap[h].callbacks == []
    decreases |r.heap[h].callbacks|
  {
    if r.heap[h].callbacks != [] {
      TurnShrinks(r, h, r.heap[h].callbacks[0], notice, react);
      LoopHeld(Turn(r, h, r.heap[h].callbacks[0], notice, react), h, notice, react);
    }
  }

  /** Delivering one message to one listener. The handler for NameOwnerChanged gives up on a message
      whose arguments it cannot read, before the loop. */
  function Deliver(r: Registry, h: nat, notice: Notice, react: Environment): Registry
    requires h in r.heap && h in r.order
  {
    var r1 := WithLock(r, h);
    LoopHeld(r1, h, notice, react);
    Unlocked(if r.heap[h].service && notice.Malformed? then r1 else Loop(r1, h, notice, react), h)
  }
}
