/** The watches of an io one at a time. Seen from one watch, a run is the life of that watch alone: which condition it was
    made for, whether its callback is running and whether it has been replaced. All of the io follows from these lives.
 */
module IoLives {
  import opened Bus
  import opened IoWatch

  /** A watch not made yet; waiting for its condition; with its callback running, possibly replaced since; or destroyed. */
  datatype Life = Unmade | Waiting(cond: Condition) | Busy(cond: Condition, replaced: bool) | Ended

  /** A handler that is set makes a watch. */
  ghost predicate Makes(step: Step) {
    step.Set? && step.callback && !step.cond.Other?
  }

  /** Whoever has the condition, or everyone, is told to go: at once, or when the callback returns. */
  ghost function Dismissed(l: Life): Life {
    match l
    case Waiting(_) => Ended
    case Busy(c, _) => Busy(c, true)
    case _ => l
  }

  ghost function AfterClear(l: Life, c: Condition): Life {
    if (l.Waiting? || l.Busy?) && l.cond == c then Dismissed(l) else l
  }

  /** What a step means for the watch w, when made watches exist already. */
  ghost function Lived(l: Life, w: nat, made: nat, step: Step): Life {
    match step
    case Set(c, callback, attaches) =>
      if l.Unmade? then
        if w == made && Makes(step) then (if attaches then Waiting(c) else Ended) else Unmade
      else AfterClear(l, c)
    case Enter(v) => if v == w && l.Waiting? then Busy(l.cond, false) else l
    case Leave(v, again) => if v == w && l.Busy? then (if again && !l.replaced then Waiting(l.cond) else Ended) else l
    case Destroy => Dismissed(l)
  }

  ghost function Made(made: nat, step: Step): nat {
    if Makes(step) then made + 1 else made
  }

  ghost function LifeOf(l: Life, w: nat, made: nat, steps: seq<Step>): Life
    decreases |steps|
  {
    if steps == [] then l else LifeOf(Lived(l, w, made, steps[0]), w, Made(made, steps[0]), steps[1..])
  }

  ghost predicate Alive(l: Life) {
    l.Waiting? || l.Busy?
  }

  /** The watch holds the slot of its condition until it is replaced. */
  ghost predicate InSlot(l: Life, c: Condition) {
    Alive(l) && l.cond == c && !(l.Busy? && l.replaced)
  }

  /** The io has of the watch what its life says. */
  ghost predicate Fits(io: Io, w: nat, l: Life) {
    && (l.Unmade? <==> io.next <= w)
    && (Alive(l) <==> w in io.live)
    && (Alive(l) ==> (io.live[w].running <==> l.Busy?) && (io.live[w].removed <==> l.Busy? && l.replaced))
    && (l.Ended? <==> w in io.destroyed)
    && (io.read == Some(w) <==> InSlot(l, In))
    && (io.write == Some(w) <==> InSlot(l, Out))
    && (io.disconnect == Some(w) <==> InSlot(l, Hup))
    && (Alive(l) ==> !l.cond.Other?)
  }

  lemma ClearFits(io: Io, w: nat, l: Life, c: Condition)
    requires Inv(io) && io.owned && Fits(io, w, l)
    ensures Fits(Clear(io, c), w, AfterClear(l, c))
  {
    var v := Slot(io, c);
    if v.Some? {
      assert Held(io, v.value);
      if io.live[v.value].running { ReplacedFits(io, w, l, c, v.value); } else { EndedFits(io, w, l, c, v.value); }
    }
  }

  lemma ReplacedFits(io: Io, w: nat, l: Life, c: Condition, v: nat)
    requires Inv(io) && io.owned && Fits(io, w, l) && Slot(io, c) == Some(v) && v in io.live && io.live[v].running
    ensures Fits(Clear(io, c), w, AfterClear(l, c))
  {
  }

  lemma EndedFits(io: Io, w: nat, l: Life, c: Condition, v: nat)
    requires Inv(io) && io.owned && Fits(io, w, l) && Slot(io, c) == Some(v) && v in io.live && !io.live[v].running
    ensures Fits(Clear(io, c), w, AfterClear(l, c))
  {
  }

  /** The new watch takes the free slot. */
  lemma NewFits(io: Io, w: nat, l: Life, c: Condition, attaches: bool, io': Io)
    requires Inv(io) && io.owned && Slot(io, c) == None && !c.Other? && Fits(io, w, l)
    requires io' == WithSlot(WatchNew(io, attaches), c, if attaches then Some(io.next) else None)
    ensures Fits(io', w, if w == io.next then (if attaches then Waiting(c) else Ended) else l)
  {
    assert io.next !in io.live && io.next !in io.destroyed && !Held(io, io.next);
    if !attaches { NewFails(io, c); }
  }

  lemma SetFits(io: Io, w: nat, l: Life, c: Condition, callback: bool, attaches: bool)
    requires Inv(io) && io.owned && Fits(io, w, l)
    ensures Fits(SetHandler(io, c, callback, attaches), w, Lived(l, w, io.next, Set(c, callback, attaches)))
  {
    if !c.Other? {
      ClearInv(io, c);
      ClearFits(io, w, l, c);
      if callback {
        NewFits(Clear(io, c), w, AfterClear(l, c), c, attaches,
                SetHandler(io, c, callback, attaches));
      }
    }
  }

  lemma LeaveFits(io: Io, w: nat, l: Life, v: nat, again: bool)
    requires Inv(io) && Enabled(io, Leave(v, again)) && Fits(io, w, l)
    ensures Fits(Return(io, v, again), w, Lived(l, w, io.next, Leave(v, again)))
  {
  }

  /** Clearing the slots one after the other dismisses the watch when its turn comes. */
  lemma DestroyFits(io: Io, w: nat, l: Life)
    requires Inv(io) && io.owned && Fits(io, w, l)
    ensures Fits(IoDestroy(io), w, Dismissed(l))
  {
    var io1 := Clear(io, In);
    var io2 := Clear(io1, Out);
    ClearInv(io, In);
    ClearInv(io1, Out);
    ClearFits(io, w, l, In);
    ClearFits(io1, w, AfterClear(l, In), Out);
    ClearFits(io2, w, AfterClear(AfterClear(l, In), Out), Hup);
    LetGo(Clear(io2, Hup), w, AfterClear(AfterClear(AfterClear(l, In), Out), Hup));
  }

  /** The owner lets go. */
  lemma LetGo(io: Io, w: nat, l: Life)
    requires Fits(io, w, l)
    ensures Fits(Unref(io.(owned := false)), w, l)
  {
  }

  lemma MadeNext(io: Io, step: Step)
    requires Enabled(io, step)
    ensures Next(io, step).next == Made(io.next, step)
  {
    match step
    case Set(c, callback, attaches) => SetNext(io, c, callback, attaches);
    case Destroy =>
      ClearNext(io, In);
      ClearNext(Clear(io, In), Out);
      ClearNext(Clear(Clear(io, In), Out), Hup);
    case Enter(_) =>
    case Leave(_, _) =>
  }

  lemma SetNext(io: Io, c: Condition, callback: bool, attaches: bool)
    ensures SetHandler(io, c, callback, attaches).next == Made(io.next, Set(c, callback, attaches))
  {
    ClearNext(io, c);
  }

  lemma ClearNext(io: Io, c: Condition)
    ensures Clear(io, c).next == io.next
  {
  }

  lemma StepFits(io: Io, w: nat, l: Life, step: Step)
    requires Inv(io) && Enabled(io, step) && Fits(io, w, l)
    ensures Fits(Next(io, step), w, Lived(l, w, io.next, step))
  {
    match step
    case Set(c, callback, attaches) => SetFits(io, w, l, c, callback, attaches);
    case Enter(v) =>
    case Leave(v, again) => LeaveFits(io, w, l, v, again);
    case Destroy => DestroyFits(io, w, l);
  }

  lemma {:induction false} RunFits(io: Io, w: nat, l: Life, steps: seq<Step>)
    requires Inv(io) && Legal(io, steps) && Fits(io, w, l)
    ensures Fits(Run(io, steps), w, LifeOf(l, w, io.next, steps))
    decreases |steps|
  {
    if steps != [] {
      StepInv(io, steps[0]);
      StepFits(io, w, l, steps[0]);
      MadeNext(io, steps[0]);
      RunFits(Next(io, steps[0]), w, Lived(l, w, io.next, steps[0]), steps[1..]);
    }
  }

  /** In every run, for every watch and from the steps alone: it exists, its callback is running, it is in the slot of the
      condition it was made for, or it has been destroyed exactly as its own life says. */
  lemma WatchesLive(steps: seq<Step>, w: nat)
    requires Legal(NEW_IO, steps)
    ensures Fits(Run(NEW_IO, steps), w, LifeOf(Unmade, w, 0, steps))
  {
    StartInv();
    RunFits(NEW_IO, w, Unmade, steps);
  }
}
