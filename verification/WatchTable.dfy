/** The table of watches as it is kept: a list of listeners, changed in place by the two dispatch loops and by the
    calls that add and remove watches.
 */
module WatchTable {
  import opened Bus
  import opened Watches
  import opened WatchSafety
  import opened WatchChanges
  import opened Delivery
  import opened Weave
  import opened Dispatch

  class WatchTable {
    var listeners: seq<nat>
    var heap: map<nat, Listener>
    var listenerId: nat
    var trace: seq<Event>

    /** Each live watch is in one list of one listener, and after its removal nothing happened to a watch. */
    ghost predicate Valid()
      reads this
    {
      Inv(State())
    }

    constructor ()
      ensures State() == NOTHING && Valid()
    {
      listeners, heap, listenerId, trace := [], map[], 0, [];
    }

    function State(): Registry
      reads this
    {
      Registry(listeners, heap, listenerId, trace)
    }

    static method InList(cs: seq<Callback>, id: nat) returns (found: bool)
      ensures found <==> HasId(cs, id)
    {
      for i := 0 to |cs|
        invariant forall k :: 0 <= k < i ==> cs[k].id != id
      {
        if cs[i].id == id { return true; }
      }
      return false;
    }

    static method Unlink(cs: seq<Callback>, id: nat) returns (r: seq<Callback>)
      ensures r == RemoveFirst(cs, id)
    {
      var i := 0;
      while i < |cs| && cs[i].id != id
        invariant 0 <= i <= |cs| && RemoveFirst(cs, id) == cs[..i] + RemoveFirst(cs[i..], id)
      {
        i := i + 1;
      }
      r := cs[..i] + if i < |cs| then cs[i + 1..] else [];
    }

    static method UnlinkListener(order: seq<nat>, h: nat) returns (r: seq<nat>)
      ensures r == Without(order, h)
    {
      var i := 0;
      while i < |order| && order[i] != h
        invariant 0 <= i <= |order| && Without(order, h) == order[..i] + Without(order[i..], h)
      {
        i := i + 1;
      }
      r := order[..i] + if i < |order| then order[i + 1..] else [];
    }

    method FindWatch(id: nat) returns (h: Option<nat>)
      ensures h == Holder(listeners, heap, id)
    {
      for i := 0 to |listeners|
        invariant Holder(listeners, heap, id) == Holder(listeners[i..], heap, id)
      {
        if listeners[i] in heap {
          var first := InList(heap[listeners[i]].callbacks, id);
          var second := InList(heap[listeners[i]].processed, id);
          if first || second { return Some(listeners[i]); }
        }
      }
      return None;
    }

    method GetListener(t: Target)
      modifies this
      ensures State() == Get(old(State()), t)
    {
      if t.listener !in heap {
        heap := heap[t.listener := Listener(t.service, t.unique, [], [], 0, false)];
        listeners := listeners + [t.listener];
      }
    }

    method AddCallbackTo(h: nat, conn: bool, disc: bool, signal: bool) returns (id: nat)
      requires h in heap
      modifies this
      ensures State() == AddCallback(old(State()), h, conn, disc, signal) && id == listenerId
    {
      listenerId := listenerId + 1;
      var c := Callback(listenerId, conn, disc, signal);
      if heap[h].lock {
        heap := heap[h := heap[h].(processed := heap[h].processed + [c])];
      } else {
        heap := heap[h := heap[h].(callbacks := heap[h].callbacks + [c])];
      }
      trace := trace + [Added(h, c)];
      id := listenerId;
    }

    /** A new watch gets an id of its own and waits behind the others, out of reach of a message under way: see `Joins`. */
    method AddWatch(at: Target, conn: bool, disc: bool, signal: bool, name: Option<Target>) returns (id: nat)
      modifies this
      ensures State() == Watches.AddWatch(old(State()), at, conn, disc, signal, name)
      ensures id == old(listenerId) + 1 && Joins(old(State()), State(), at, Callback(id, conn, disc, signal), name)
      ensures old(Valid()) ==> Valid() && !Live(old(State()), id)
    {
      AddResult(State(), at, conn, disc, signal, name, Watches.AddWatch(State(), at, conn, disc, signal, name));
      id := AddParts(at, conn, disc, signal, name);
    }

    method AddParts(at: Target, conn: bool, disc: bool, signal: bool, name: Option<Target>) returns (id: nat)
      modifies this
      ensures State() == Watches.AddWatch(old(State()), at, conn, disc, signal, name) && id == old(listenerId) + 1
    {
      GetListener(at);
      id := AddCallbackTo(at.listener, conn, disc, signal);
      if name.Some? && heap[at.listener].nameWatch == 0 {
        GetListener(name.value);
        var w := AddCallbackTo(name.value.listener, false, false, false);
        heap := heap[at.listener := heap[at.listener].(nameWatch := w)];
      }
    }

    method RemoveCallbackOf(h: nat, id: nat) returns (freed: bool)
      requires h in heap && h in listeners
      modifies this
      ensures State() == RemoveCallback(old(State()), h, id)
      ensures old(heap[h].lock) ==> !freed
      decreases |listeners|, 0
    {
      var cs := Unlink(heap[h].callbacks, id);
      var ps := Unlink(heap[h].processed, id);
      heap := heap[h := heap[h].(callbacks := cs, processed := ps)];
      trace := trace + [Destroyed(id)];
      if cs != [] || heap[h].lock {
        return false;
      }
      var name := heap[h].nameWatch;
      listeners := UnlinkListener(listeners, h);
      heap := heap - {h};
      var done, gone := RemoveWatch(name);
      return true;
    }

    /** The watch goes, and with it what `Chain` and `EmptiedGo` say and nothing else. */
    method RemoveWatch(id: nat) returns (found: bool, ghost gone: seq<Event>)
      modifies this
      ensures State() == Watches.RemoveWatch(old(State()), id)
      ensures found <==> id != 0 && old(Holder(listeners, heap, id)).Some?
      ensures old(Valid()) ==> Valid() && (found <==> id != 0 && Live(old(State()), id)) && (id != 0 ==> !Live(State(), id))
      ensures old(Valid()) ==>
                && trace == old(trace) + gone && Reduces(old(State()), State(), Gone(gone))
                && Chain(old(State()), State(), id, gone) && EmptiedGo(old(State()), State(), gone)
      decreases |listeners|, 1
    {
      gone := [];
      if Valid() {
        ghost var t := RemoveSafe(State(), id);
        gone := RemovalExact(State(), id);
        HolderIsLive(State(), id);
      }
      found := false;
      if id == 0 { return; }
      var h := FindWatch(id);
      if h.None? { return; }
      var freed := RemoveCallbackOf(h.value, id);
      found := true;
    }

    method PerformActions(actions: seq<Action>)
      modifies this
      ensures State() == PerformAll(old(State()), actions)
    {
      var i := 0;
      while i < |actions|
        invariant 0 <= i <= |actions| && PerformAll(old(State()), actions) == PerformAll(State(), actions[i..])
        decreases |actions| - i
      {
        match actions[i] {
          case Add(at, conn, disc, signal, name) =>
            var id := AddWatch(at, conn, disc, signal, name);
          case Remove(id) =>
            var found, gone := RemoveWatch(id);
        }
        i := i + 1;
      }
    }

    /** Calling the functions of a callback: whatever it does to the table, and whether it wants to stay. */
    method Invoke(h: nat, c: Callback, f: Function, react: Environment) returns (keep: bool)
      modifies this
      ensures State() == CallOut(old(State()), h, c, f, react) && keep == react(old(trace), c.id).keep
    {
      var reaction := react(trace, c.id);
      trace := trace + [Called(h, c.id, f)];
      PerformActions(reaction.actions);
      keep := reaction.keep;
    }

    method ToProcessed(h: nat, c: Callback)
      requires h in heap
      modifies this
      ensures State() == Move(old(State()), h, c)
    {
      var cs := Unlink(heap[h].callbacks, c.id);
      heap := heap[h := heap[h].(callbacks := cs, processed := heap[h].processed + [c])];
    }

    method SignalTurn(h: nat, notice: Notice, react: Environment)
      requires Inv(State()) && Locked(State(), h) && heap[h].callbacks != [] && !heap[h].service && Polite(react)
      modifies this
      ensures State() == Turn(old(State()), h, old(heap[h].callbacks[0]), notice, react)
    {
      ghost var start := State();
      var c := heap[h].callbacks[0];
      if c.signal {
        PerformAllHeld(start.(trace := trace + [Called(h, c.id, Signal)]), h, react(trace, c.id).actions);
        if !react(trace, c.id).keep { NeverRemovesTwice(start, h, c, notice, react); }
        var keep := Invoke(h, c, Signal, react);
        if !keep {
          var freed := RemoveCallbackOf(h, c.id);
          return;
        }
      }
      if c in heap[h].callbacks { ToProcessed(h, c); }
    }

    method ServiceTurn(h: nat, notice: Notice, react: Environment)
      requires Inv(State()) && Locked(State(), h) && heap[h].callbacks != [] && heap[h].service && !notice.Malformed?
      modifies this
      ensures State() == Turn(old(State()), h, old(heap[h].callbacks[0]), notice, react)
    {
      ghost var start := State();
      var c := heap[h].callbacks[0];
      PerformAllHeld(start.(trace := trace + [Called(h, c.id, Disconnect)]), h, react(trace, c.id).actions);
      PerformAllHeld(start.(trace := trace + [Called(h, c.id, Connect)]), h, react(trace, c.id).actions);
      var unique := heap[h].unique;
      if notice.Vanished? {
        if c.disc { var keep := Invoke(h, c, Disconnect, react); }
      } else {
        if c.conn { var keep := Invoke(h, c, Connect, react); }
      }
      if c !in heap[h].callbacks { return; }
      if unique && (!c.conn || !c.disc) {
        var freed := RemoveCallbackOf(h, c.id);
      } else {
        ToProcessed(h, c);
      }
    }

    method SignalFilter(h: nat, notice: Notice, react: Environment)
      requires Inv(State()) && Locked(State(), h) && !heap[h].service && Polite(react)
      modifies this
      ensures State() == Loop(old(State()), h, notice, react) && Inv(State())
    {
      while heap[h].callbacks != []
        invariant Inv(State()) && Locked(State(), h) && !heap[h].service
        invariant Loop(old(State()), h, notice, react) == Loop(State(), h, notice, react)
        decreases |heap[h].callbacks|
      {
        ghost var t := TurnSafe(State(), h, heap[h].callbacks[0], notice, react);
        TurnShrinks(State(), h, heap[h].callbacks[0], notice, react);
        SignalTurn(h, notice, react);
      }
    }

    method ServiceFilter(h: nat, notice: Notice, react: Environment)
      requires Inv(State()) && Locked(State(), h) && heap[h].service
      modifies this
      ensures Inv(State()) && State() == if notice.Malformed? then old(State()) else Loop(old(State()), h, notice, react)
    {
      if notice.Malformed? { return; }
      while heap[h].callbacks != []
        invariant Inv(State()) && Locked(State(), h) && heap[h].service
        invariant Loop(old(State()), h, notice, react) == Loop(State(), h, notice, react)
        decreases |heap[h].callbacks|
      {
        ghost var t := TurnSafe(State(), h, heap[h].callbacks[0], notice, react);
        TurnShrinks(State(), h, heap[h].callbacks[0], notice, react);
        ServiceTurn(h, notice, react);
      }
    }

    /** Delivering a message to one listener that it matches. To an idle listener, unless it is a message that cannot be
        read, it is delivered once: see `DeliveredOnce`. */
    method DeliverTo(h: nat, notice: Notice, react: Environment) returns (ghost turns: seq<seq<Event>>, ghost missed: set<nat>)
      requires Valid() && h in heap && Polite(react)
      modifies this
      ensures Valid() && State() == Deliver(old(State()), h, notice, react)
      ensures !old(heap[h].lock) && !(old(heap[h].service) && notice.Malformed?) ==>
                && trace == old(trace) + Flat(turns) && h in heap
                && DeliveredOnce(old(heap[h]), heap[h], h, notice, old(trace), react, turns, missed)
    {
      turns, missed := [], {};
      if !heap[h].lock && !(heap[h].service && notice.Malformed?) {
        turns, missed := ExactlyOnce(State(), h, notice, react);
      }
      Filter(h, notice, react);
    }

    method Filter(h: nat, notice: Notice, react: Environment)
      requires Valid() && h in heap && Polite(react)
      modifies this
      ensures Valid() && State() == Deliver(old(State()), h, notice, react)
    {
      LockInv(State(), h);
      LoopHeld(WithLock(State(), h), h, notice, react);
      heap := heap[h := heap[h].(lock := true)];
      assert State() == WithLock(old(State()), h);
      if heap[h].service {
        ServiceFilter(h, notice, react);
      } else {
        SignalFilter(h, notice, react);
      }
      UnlockInv(State(), h);
      heap := heap[h := heap[h].(callbacks := heap[h].processed, processed := [], lock := false)];
    }
  }
}
