/** An io object and its watches share one reference count. Removing the source of a watch runs its destroy function at
    once, or, while the callback of that watch is running, after it returns.
 */
module IoWatch {
  import opened Bus

  datatype Condition = In | Out | Hup | Other

  /** A watch that exists: whether its callback is running, and whether its source was removed meanwhile. */
  datatype Watch = Watch(running: bool, removed: bool)

  datatype Io = Io(refCount: int, frees: nat, owned: bool, read: Option<nat>, write: Option<nat>, disconnect: Option<nat>,
                   live: map<nat, Watch>, next: nat, destroyed: seq<nat>)

  const NEW_IO := Io(1, 0, true, None, None, None, map[], 0, [])

  function Slot(io: Io, c: Condition): Option<nat> {
    match c
    case In => io.read
    case Out => io.write
    case Hup => io.disconnect
    case Other => None
  }

  function WithSlot(io: Io, c: Condition, w: Option<nat>): Io {
    match c
    case In => io.(read := w)
    case Out => io.(write := w)
    case Hup => io.(disconnect := w)
    case Other => io
  }

  function Unref(io: Io): Io {
    io.(refCount := io.refCount - 1, frees := io.frees + if io.refCount == 1 then 1 else 0)
  }

  /** The destroy notification of a watch. */
  function WatchDestroy(io: Io, w: nat): Io {
    var cleared := if io.read == Some(w) then io.(read := None)
                   else if io.write == Some(w) then io.(write := None)
                   else if io.disconnect == Some(w) then io.(disconnect := None)
                   else io;
    Unref(cleared.(destroyed := io.destroyed + [w], live := io.live - {w}))
  }

  function SourceRemove(io: Io, w: nat): Io {
    if w !in io.live then io
    else if io.live[w].running then io.(live := io.live[w := Watch(true, true)])
    else WatchDestroy(io, w)
  }

  function Clear(io: Io, c: Condition): Io {
    var w := Slot(io, c);
    if w.None? then io else WithSlot(SourceRemove(io, w.value), c, None)
  }

  /** A new watch; attaching its source may fail, and then it is destroyed on the spot. */
  function WatchNew(io: Io, attaches: bool): Io {
    var io1 := io.(refCount := io.refCount + 1, next := io.next + 1, live := io.live[io.next := Watch(false, false)]);
    if attaches then io1 else WatchDestroy(io1, io.next)
  }

  function SetHandler(io: Io, c: Condition, callback: bool, attaches: bool): Io {
    if c.Other? then io else
    var io1 := Clear(io, c);
    if !callback then io1
    else WithSlot(WatchNew(io1, attaches), c, if attaches then Some(io1.next) else None)
  }

  function IoDestroy(io: Io): Io {
    Unref(Clear(Clear(Clear(io, In), Out), Hup).(owned := false))
  }

  datatype Step = Set(cond: Condition, callback: bool, attaches: bool) | Enter(w: nat) | Leave(w: nat, again: bool) | Destroy

  /** The owner uses the io until it destroys it; the main loop calls watches whose source is there. */
  predicate Enabled(io: Io, step: Step) {
    match step
    case Set(_, _, _) => io.owned
    case Enter(w) => w in io.live && !io.live[w].running
    case Leave(w, _) => w in io.live && io.live[w].running
    case Destroy => io.owned
  }

  /** The callback returns: a source removed meanwhile, or one that asked to go, is destroyed now. */
  function Return(io: Io, w: nat, again: bool): Io
    requires w in io.live
  {
    if io.live[w].removed || !again then WatchDestroy(io, w) else io.(live := io.live[w := Watch(false, false)])
  }

  function Next(io: Io, step: Step): Io
    requires Enabled(io, step)
  {
    match step
    case Set(c, callback, attaches) => SetHandler(io, c, callback, attaches)
    case Enter(w) => io.(live := io.live[w := io.live[w].(running := true)])
    case Leave(w, again) => Return(io, w, again)
    case Destroy => IoDestroy(io)
  }

  // ---- the invariant ----

  ghost predicate Held(io: Io, w: nat) {
    io.read == Some(w) || io.write == Some(w) || io.disconnect == Some(w)
  }

  /** Each slot holds a watch of its own, and a watch is in a slot exactly as long as its source is there. */
  ghost predicate Slots(io: Io) {
    && (forall w :: Held(io, w) <==> w in io.live && !io.live[w].removed)
    && (io.read.Some? ==> io.read != io.write && io.read != io.disconnect)
    && (io.write.Some? ==> io.write != io.disconnect)
  }

  /** Every watch ever made either exists or had its destroy function called, once. */
  ghost predicate Once(io: Io) {
    && (forall i, j :: 0 <= i < j < |io.destroyed| ==> io.destroyed[i] != io.destroyed[j])
    && (forall w: nat :: w in io.live || w in io.destroyed <==> w < io.next)
    && (forall w :: w in io.live ==> w !in io.destroyed)
  }

  /** One reference for the owner, one for each watch, and the memory is freed when the last goes. */
  ghost predicate Counted(io: Io) {
    && io.refCount == (if io.owned then 1 else 0) + |io.live|
    && io.frees == (if io.refCount == 0 then 1 else 0)
  }

  ghost predicate Inv(io: Io) {
    && Slots(io) && Once(io) && Counted(io)
    && (forall w :: w in io.live && io.live[w].removed ==> io.live[w].running)
    && (!io.owned ==> io.read == io.write == io.disconnect == None)
  }

  lemma OneLess(m: map<nat, Watch>, w: nat)
    requires w in m
    ensures |m - {w}| == |m| - 1
  {
    assert (m - {w}).Keys == m.Keys - {w};
    assert |m| == |m.Keys| && |m - {w}| == |(m - {w}).Keys|;
  }

  lemma SameSize(m: map<nat, Watch>, w: nat, x: Watch)
    requires w in m
    ensures |m[w := x]| == |m|
  {
    assert m[w := x].Keys == m.Keys;
    assert |m| == |m.Keys| && |m[w := x]| == |m[w := x].Keys|;
  }

  lemma OneMore(m: map<nat, Watch>, w: nat, x: Watch)
    requires w !in m
    ensures |m[w := x]| == |m| + 1
  {
    assert m[w := x].Keys == m.Keys + {w};
    assert |m| == |m.Keys| && |m[w := x]| == |m[w := x].Keys|;
  }

  lemma DestroyedOnce(io: Io, w: nat)
    requires Inv(io) && w in io.live
    ensures Once(WatchDestroy(io, w))
  {
    var io' := WatchDestroy(io, w);
    forall v: nat ensures v in io'.live || v in io'.destroyed <==> v < io'.next {
      assert v in io'.destroyed <==> v in io.destroyed || v == w;
    }
  }

  /** The destroy notification keeps the invariant and the owner's reference. */
  lemma DestroyInv(io: Io, w: nat)
    requires Inv(io) && w in io.live
    ensures Inv(WatchDestroy(io, w))
  {
    DestroyedOnce(io, w);
    OneLess(io.live, w);
  }

  lemma ClearInv(io: Io, c: Condition)
    requires Inv(io) && io.owned
    ensures Inv(Clear(io, c)) && Clear(io, c).owned && Slot(Clear(io, c), c) == None
    ensures Clear(io, c).next == io.next
    ensures forall d :: Slot(io, d) == None ==> Slot(Clear(io, c), d) == None
  {
    var w := Slot(io, c);
    if w.Some? {
      assert Held(io, w.value);
      if io.live[w.value].running {
        SameSize(io.live, w.value, Watch(true, true));
      } else {
        DestroyInv(io, w.value);
      }
    }
  }

  lemma NewInv(io: Io, c: Condition, attaches: bool)
    requires Inv(io) && io.owned && Slot(io, c) == None && !c.Other?
    ensures Inv(WithSlot(WatchNew(io, attaches), c, if attaches then Some(io.next) else None))
  {
    assert !Held(io, io.next);
    if attaches {
      NewAttached(io, c);
    } else {
      NewFails(io, c);
      Failed(io);
    }
  }

  lemma NewAttached(io: Io, c: Condition)
    requires Inv(io) && io.owned && Slot(io, c) == None && !c.Other?
    ensures Inv(WithSlot(WatchNew(io, true), c, Some(io.next)))
  {
    OneMore(io.live, io.next, Watch(false, false));
    var io' := WithSlot(WatchNew(io, true), c, Some(io.next));
    assert forall w :: Held(io', w) <==> Held(io, w) || w == io.next;
    assert io.next !in io.live;
  }

  lemma Failed(io: Io)
    requires Inv(io)
    ensures Inv(io.(next := io.next + 1, destroyed := io.destroyed + [io.next]))
  {
    var io' := io.(next := io.next + 1, destroyed := io.destroyed + [io.next]);
    assert io.next !in io.live && io.next !in io.destroyed;
    assert forall v: nat :: v in io'.destroyed <==> v in io.destroyed || v == io.next;
    assert forall w: nat :: Held(io', w) == Held(io, w);
    assert Slots(io') && Once(io') && Counted(io');
  }

  lemma NewFails(io: Io, c: Condition)
    requires Slot(io, c) == None && !Held(io, io.next) && io.next !in io.live && io.refCount > 0
    ensures WithSlot(WatchNew(io, false), c, None) == io.(next := io.next + 1, destroyed := io.destroyed + [io.next])
  {
    assert io.live[io.next := Watch(false, false)] - {io.next} == io.live;
  }

  lemma StepInv(io: Io, step: Step)
    requires Inv(io) && Enabled(io, step)
    ensures Inv(Next(io, step))
  {
    match step
    case Set(c, callback, attaches) =>
      if !c.Other? {
        ClearInv(io, c);
        if callback { NewInv(Clear(io, c), c, attaches); }
      }
    case Enter(w) => SameSize(io.live, w, io.live[w].(running := true));
    case Leave(w, again) =>
      if io.live[w].removed || !again { DestroyInv(io, w); } else { SameSize(io.live, w, Watch(false, false)); }
    case Destroy =>
      ClearInv(io, In);
      ClearInv(Clear(io, In), Out);
      ClearInv(Clear(Clear(io, In), Out), Hup);
  }

  ghost predicate Legal(io: Io, steps: seq<Step>)
    decreases |steps|
  {
    steps == [] || (Enabled(io, steps[0]) && Legal(Next(io, steps[0]), steps[1..]))
  }

  ghost function Run(io: Io, steps: seq<Step>): Io
    requires Legal(io, steps)
    decreases |steps|
  {
    if steps == [] then io else Run(Next(io, steps[0]), steps[1..])
  }

  lemma {:induction false} RunInv(io: Io, steps: seq<Step>)
    requires Inv(io) && Legal(io, steps)
    ensures Inv(Run(io, steps))
    decreases |steps|
  {
    if steps != [] {
      StepInv(io, steps[0]);
      RunInv(Next(io, steps[0]), steps[1..]);
    }
  }

  /** In every run: the count is one for the owner plus one for each watch that exists; the io is freed once, when the
      owner and all watches are gone, and after that nothing can touch it; the destroy function of every watch made is
      called once, and by then all of them have been. */
  lemma RefCountProtocol(steps: seq<Step>)
    requires Legal(NEW_IO, steps)
    ensures var io := Run(NEW_IO, steps);
            && io.refCount == (if io.owned then 1 else 0) + |io.live|
            && io.frees == (if !io.owned && io.live == map[] then 1 else 0)
            && (forall w :: w in io.destroyed ==> w !in io.live && multiset(io.destroyed)[w] == 1)
            && (io.frees == 1 ==> (forall step :: !Enabled(io, step)) && forall w: nat :: w in io.destroyed <==> w < io.next)
  {
    StartInv();
    RunInv(NEW_IO, steps);
    var io := Run(NEW_IO, steps);
    EmptyMap(io.live);
    forall w | w in io.destroyed ensures multiset(io.destroyed)[w] == 1 {
      CountOne(io.destroyed, w);
    }
  }

  lemma StartInv()
    ensures Inv(NEW_IO)
  {
    var io := NEW_IO;
    assert |io.live| == 0;
    assert Counted(io);
    assert Slots(io);
    assert Once(io);
  }

  lemma EmptyMap(m: map<nat, Watch>)
    ensures |m| == 0 <==> m == map[]
  {
  }

  lemma {:induction false} CountOne(s: seq<nat>, w: nat)
    requires (forall i, j :: 0 <= i < j < |s| ==> s[i] != s[j]) && w in s
    ensures multiset(s)[w] == 1
  {
    var last := s[|s| - 1];
    assert s == s[..|s| - 1] + [last];
    if last == w {
      assert w !in s[..|s| - 1];
      assert multiset(s[..|s| - 1])[w] == 0;
    } else {
      CountOne(s[..|s| - 1], w);
    }
  }

  /** A watch that was replaced while its callback ran is destroyed when the callback returns, and this does not touch
      the slot of its replacement. */
  lemma DeferredDestroyKeepsSlots(io: Io, w: nat, again: bool)
    requires Inv(io) && Enabled(io, Leave(w, again)) && io.live[w].removed
    ensures var io' := Next(io, Leave(w, again));
            io'.read == io.read && io'.write == io.write && io'.disconnect == io.disconnect && io'.destroyed == io.destroyed + [w]
  {
    assert !Held(io, w);
  }

  /** Setting a handler replaces the watch in its own slot and no other. */
  lemma SetReplaces(io: Io, c: Condition, callback: bool, attaches: bool)
    requires Inv(io) && io.owned && !c.Other?
    ensures var io' := SetHandler(io, c, callback, attaches);
            && Slot(io', c) == (if callback && attaches then Some(io.next) else None)
            && (forall d :: d != c ==> Slot(io', d) == Slot(io, d))
            && (Slot(io, c).Some? ==>
                  && Slot(io, c).value in io.live
                  && (Slot(io, c).value in io'.destroyed <==> !io.live[Slot(io, c).value].running))
  {
    ClearSlot(io, c);
    SlotAfter(io, c, callback, attaches, Clear(io, c));
  }

  lemma SlotAfter(io: Io, c: Condition, callback: bool, attaches: bool, m: Io)
    requires !c.Other? && m == Clear(io, c) && Slot(m, c) == None && !Held(m, m.next) && m.next == io.next
    requires (forall d :: d != c ==> Slot(m, d) == Slot(io, d)) && (Slot(io, c).Some? ==> Slot(io, c).value < io.next)
    ensures var io' := SetHandler(io, c, callback, attaches);
            && Slot(io', c) == (if callback && attaches then Some(io.next) else None)
            && (forall d :: d != c ==> Slot(io', d) == Slot(io, d))
            && (Slot(io, c).Some? ==> (Slot(io, c).value in io'.destroyed <==> Slot(io, c).value in m.destroyed))
  {
    if callback { NewSlot(m, c, attaches); }
  }

  lemma ClearSlot(io: Io, c: Condition)
    requires Inv(io) && io.owned && !c.Other?
    ensures var io' := Clear(io, c);
            && Slot(io', c) == None && (forall d :: d != c ==> Slot(io', d) == Slot(io, d)) && io'.next == io.next
            && (forall w :: w in io'.destroyed ==> w < io.next) && !Held(io', io'.next)
            && (Slot(io, c).Some? ==>
                  && Slot(io, c).value in io.live
                  && (Slot(io, c).value in io'.destroyed <==> !io.live[Slot(io, c).value].running))
  {
    ClearInv(io, c);
    assert io.next !in Clear(io, c).live;
    if Slot(io, c).Some? { assert Held(io, Slot(io, c).value); }
  }

  lemma NewSlot(io: Io, c: Condition, attaches: bool)
    requires Slot(io, c) == None && !c.Other? && !Held(io, io.next)
    ensures var io' := WithSlot(WatchNew(io, attaches), c, if attaches then Some(io.next) else None);
            && Slot(io', c) == (if attaches then Some(io.next) else None)
            && (forall d :: d != c ==> Slot(io', d) == Slot(io, d))
            && io'.destroyed == (if attaches then io.destroyed else io.destroyed + [io.next])
  {
  }

  lemma ClearKeeps(io: Io, c: Condition, w: nat)
    requires Inv(io)
    ensures w in Clear(io, c).live <==> w in io.live && (Slot(io, c) == Some(w) ==> io.live[w].running)
    ensures forall d :: d != c ==> Slot(Clear(io, c), d) == Slot(io, d)
    ensures w in io.live && w in Clear(io, c).live ==> Clear(io, c).live[w].running == io.live[w].running
  {
    if Slot(io, c).Some? { assert Held(io, Slot(io, c).value); }
  }

  /** The watch in a slot, unless its callback is running. */
  ghost function Idle(io: Io, c: Condition): seq<nat> {
    var w := Slot(io, c);
    if w.Some? && w.value in io.live && !io.live[w.value].running then [w.value] else []
  }

  lemma ClearDestroys(io: Io, c: Condition)
    requires Inv(io)
    ensures Clear(io, c).destroyed == io.destroyed + Idle(io, c)
  {
    if Slot(io, c).Some? { assert Held(io, Slot(io, c).value); }
  }

  lemma ClearLeavesIdle(io: Io, c: Condition, d: Condition)
    requires Inv(io) && c != d
    ensures Idle(Clear(io, c), d) == Idle(io, d)
  {
    if Slot(io, d).Some? {
      assert Held(io, Slot(io, d).value);
      ClearKeeps(io, c, Slot(io, d).value);
    } else {
      ClearKeeps(io, c, 0);
    }
  }

  lemma DestroyOrder(io: Io)
    requires Inv(io) && io.owned
    ensures IoDestroy(io).destroyed == io.destroyed + (Idle(io, In) + Idle(io, Out) + Idle(io, Hup))
  {
    var io1 := Clear(io, In);
    var io2 := Clear(io1, Out);
    ClearInv(io, In);
    ClearInv(io1, Out);
    ClearDestroys(io, In);
    ClearDestroys(io1, Out);
    ClearDestroys(io2, Hup);
    ClearLeavesIdle(io, In, Out);
    ClearLeavesIdle(io, In, Hup);
    ClearLeavesIdle(io1, Out, Hup);
    ThreeTimes(io.destroyed, io1.destroyed, io2.destroyed, Clear(io2, Hup).destroyed, Idle(io, In), Idle(io, Out), Idle(io, Hup));
  }

  lemma ThreeTimes(s: seq<nat>, s1: seq<nat>, s2: seq<nat>, s3: seq<nat>, a: seq<nat>, b: seq<nat>, c: seq<nat>)
    requires s1 == s + a && s2 == s1 + b && s3 == s2 + c
    ensures s3 == s + (a + b + c)
  {
  }

  /** Destroying an io leaves just the watches whose callback is running, and frees it at once exactly if there are none;
      the others are destroyed in the order of the slots. */
  lemma DestroyLeaves(io: Io)
    requires Inv(io) && io.owned
    ensures var io' := IoDestroy(io);
            && Inv(io') && io'.refCount == |io'.live| && (io'.frees == 1 <==> io'.live == map[])
            && (forall w :: w in io'.live <==> w in io.live && io.live[w].running)
            && io'.destroyed == io.destroyed + (Idle(io, In) + Idle(io, Out) + Idle(io, Hup))
  {
    DestroyOrder(io);
    StepInv(io, Destroy);
    EmptyMap(IoDestroy(io).live);
    var io1 := Clear(io, In);
    var io2 := Clear(io1, Out);
    ClearInv(io, In);
    ClearInv(io1, Out);
    forall w: nat ensures w in IoDestroy(io).live <==> w in io.live && io.live[w].running {
      ClearKeeps(io, In, w);
      ClearKeeps(io1, Out, w);
      ClearKeeps(io2, Hup, w);
      assert w in io.live && !io.live[w].running ==> Held(io, w);
    }
  }

  lemma SetResult(io: Io, c: Condition, callback: bool, attaches: bool, io': Io)
    requires Inv(io) && io.owned && io' == SetHandler(io, c, callback, attaches)
    ensures Inv(io') && io'.owned && forall d :: d != c ==> Slot(io', d) == Slot(io, d)
    ensures !c.Other? ==> Slot(io', c) == if callback && attaches then Some(io.next) else None
  {
    StepInv(io, Set(c, callback, attaches));
    if !c.Other? {
      SetReplaces(io, c, callback, attaches);
      ClearInv(io, c);
    }
  }

  // ---- the object ----

  class IoObject {
    var refCount: int
    var frees: nat
    var owned: bool
    var read: Option<nat>
    var write: Option<nat>
    var disconnect: Option<nat>
    var live: map<nat, Watch>
    var next: nat
    var destroyed: seq<nat>

    function State(): Io
      reads this
    {
      Io(refCount, frees, owned, read, write, disconnect, live, next, destroyed)
    }

    /** One reference for the owner and one for each watch; every watch made exists or was destroyed once. */
    ghost predicate Valid()
      reads this
    {
      Inv(State())
    }

    constructor ()
      ensures State() == NEW_IO && Valid()
    {
      StartInv();
      refCount, frees, owned, read, write, disconnect, live, next, destroyed := 1, 0, true, None, None, None, map[], 0, [];
    }

    method IoUnref()
      modifies this
      ensures State() == Unref(old(State()))
    {
      refCount := refCount - 1;
      if refCount != 0 { return; }
      frees := frees + 1;
    }

    method DestroyWatch(w: nat)
      modifies this
      ensures State() == WatchDestroy(old(State()), w)
    {
      if read == Some(w) {
        read := None;
      } else if write == Some(w) {
        write := None;
      } else if disconnect == Some(w) {
        disconnect := None;
      }
      destroyed := destroyed + [w];
      live := live - {w};
      IoUnref();
    }

    method RemoveSource(w: nat)
      modifies this
      ensures State() == SourceRemove(old(State()), w)
    {
      if w in live {
        if live[w].running {
          live := live[w := Watch(true, true)];
        } else {
          DestroyWatch(w);
        }
      }
    }

    method NewWatch(attaches: bool) returns (w: Option<nat>)
      modifies this
      ensures State() == WatchNew(old(State()), attaches)
      ensures w == if attaches then Some(old(next)) else None
    {
      var id := next;
      next := next + 1;
      refCount := refCount + 1;
      live := live[id := Watch(false, false)];
      if !attaches {
        DestroyWatch(id);
        return None;
      }
      return Some(id);
    }

    /** The new watch takes the place of the one in its slot; the slots of the other conditions stay as they are. */
    method SetHandlerFor(c: Condition, callback: bool, attaches: bool) returns (ok: bool)
      requires Valid() && owned
      modifies this
      ensures Valid() && owned && State() == SetHandler(old(State()), c, callback, attaches)
      ensures ok <==> !c.Other? && (callback ==> attaches)
      ensures !c.Other? ==> Slot(State(), c) == if callback && attaches then Some(old(next)) else None
      ensures forall d :: d != c ==> Slot(State(), d) == Slot(old(State()), d)
    {
      SetResult(State(), c, callback, attaches, SetHandler(State(), c, callback, attaches));
      ok := SetParts(c, callback, attaches);
    }

    method SetParts(c: Condition, callback: bool, attaches: bool) returns (ok: bool)
      modifies this
      ensures State() == SetHandler(old(State()), c, callback, attaches)
      ensures ok <==> !c.Other? && (callback ==> attaches)
    {
      if c.Other? { return false; }
      var slot := Slot(State(), c);
      if slot.Some? {
        RemoveSource(slot.value);
        Store(c, None);
      }
      if !callback { return true; }
      var w := NewWatch(attaches);
      Store(c, w);
      return w.Some?;
    }

    method Store(c: Condition, w: Option<nat>)
      modifies this
      ensures State() == WithSlot(old(State()), c, w)
    {
      match c {
        case In => read := w;
        case Out => write := w;
        case Hup => disconnect := w;
        case Other =>
      }
    }

    /** The main loop calls a watch whose source is there. */
    method Begin(w: nat)
      requires Valid() && w in live && !live[w].running
      modifies this
      ensures Valid() && State() == Next(old(State()), Enter(w))
      ensures live == old(live)[w := Watch(true, false)] && refCount == old(refCount) && destroyed == old(destroyed)
    {
      StepInv(State(), Enter(w));
      live := live[w := live[w].(running := true)];
    }

    /** The callback returns. The watch goes, with its reference, exactly if its source was removed meanwhile or the
        callback does not want to be called again; otherwise it waits as before the call. */
    method Finish(w: nat, again: bool)
      requires Valid() && w in live && live[w].running
      modifies this
      ensures Valid() && State() == Next(old(State()), Leave(w, again))
      ensures w in destroyed <==> old(live)[w].removed || !again
      ensures if w in destroyed then live == old(live) - {w} else live == old(live)[w := Watch(false, false)]
      ensures refCount == old(refCount) - (if w in destroyed then 1 else 0)
      ensures frees == 1 <==> !owned && live == map[]
    {
      StepInv(State(), Leave(w, again));
      EmptyMap(Next(State(), Leave(w, again)).live);
      if live[w].removed || !again {
        DestroyWatch(w);
      } else {
        live := live[w := Watch(false, false)];
      }
    }

    /** What is left are the watches whose callback is running, and without any the io is freed at once. */
    method DestroyIo()
      requires Valid() && owned
      modifies this
      ensures Valid() && !owned && State() == IoDestroy(old(State()))
      ensures forall w :: w in live <==> w in old(live) && old(live)[w].running
      ensures refCount == |live| && (frees == 1 <==> live == map[])
      ensures destroyed == old(destroyed) + (Idle(old(State()), In) + Idle(old(State()), Out) + Idle(old(State()), Hup))
    {
      DestroyLeaves(State());
      DestroyParts();
    }

    method DestroyParts()
      modifies this
      ensures State() == IoDestroy(old(State()))
    {
      if read.Some? {
        RemoveSource(read.value);
        read := None;
      }
      if write.Some? {
        RemoveSource(write.value);
        write := None;
      }
      if disconnect.Some? {
        RemoveSource(disconnect.value);
        disconnect := None;
      }
      owned := false;
      IoUnref();
    }
  }
}
