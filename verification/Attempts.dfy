/** What the threads of the Wi-Fi service do in a run, told from the steps of the run: where each checker stands, which
    commands it gives, and that all interleavings look like one attempt after the other.
 */
module Attempts {
  import opened Bus
  import opened Wifi

  // ---- where a checker stands ----

  /** The outcomes of the steps that a checker has made, in order. */
  ghost function Told(saved: set<int>, steps: seq<Step>, i: nat): seq<bool> {
    if steps == [] then []
    else
      var front, last := steps[..|steps| - 1], steps[|steps| - 1];
      Told(saved, front, i)
      + if last.Check? && last.who == i && i < |Run(Start(saved), front).checkers| then [last.ok] else []
  }

  /** The second step is the polling; only when it finds no connection the checker goes on to give its command. */
  ghost predicate Stands(stage: Stage, o: seq<bool>) {
    if |o| == 0 then stage.ReadId?
    else if |o| == 1 then stage.Watch?
    else if o[1] then
      if |o| == 2 then stage.ClearExist? else if |o| == 3 then stage.ReleaseLock?
      else if |o| == 4 then stage.ClearCancel? else stage.Finish?
    else
      if |o| == 2 then stage.Judge? else if |o| == 3 then stage.Fail? else if |o| == 4 then stage.ClearExist?
      else if |o| == 5 then stage.ReleaseLock? else if |o| == 6 then stage.ClearCancel? else stage.Finish?
  }

  /** The polling found no connection, and the step that gives the command has been made. */
  ghost predicate Commanded(o: seq<bool>) {
    4 <= |o| && !o[1]
  }

  /** Whether the monitor has reported a wrong key since an attempt last began. */
  ghost predicate WrongSaid(saved: set<int>, steps: seq<Step>) {
    steps != [] &&
    var front, last := steps[..|steps| - 1], steps[|steps| - 1];
    if last.WrongKey? then true
    else if last.Api? && Run(Start(saved), front).api.Reset? then false
    else WrongSaid(saved, front)
  }

  /** In its third step, number j of the run, the checker saw whether a wrong key had been reported. */
  ghost predicate Judged(saved: set<int>, steps: seq<Step>, i: nat, reports: bool, j: nat) {
    && j < |steps| && steps[j].Check? && steps[j].who == i && |Told(saved, steps[..j], i)| == 2
    && (reports <==> !WrongSaid(saved, steps[..j]))
  }

  ghost predicate JudgedRightly(saved: set<int>, steps: seq<Step>, i: nat, reports: bool) {
    exists j: nat :: Judged(saved, steps, i, reports, j)
  }

  ghost predicate CheckerFits(saved: set<int>, steps: seq<Step>, s: State, i: nat)
    requires i < |s.checkers|
  {
    && Stands(s.checkers[i].stage, Told(saved, steps, i))
    && (s.checkers[i].stage.Fail? ==> JudgedRightly(saved, steps, i, s.checkers[i].stage.reports))
  }

  ghost predicate CommandFits(saved: set<int>, steps: seq<Step>, s: State, e: Command) {
    && e.checker < |s.checkers| && Commanded(Told(saved, steps, e.checker))
    && e.kind == s.checkers[e.checker].kind && e.attempt == s.checkers[e.checker].attempt
    && JudgedRightly(saved, steps, e.checker, e.reports)
  }

  ghost predicate HasCommand(log: seq<Command>, i: nat) {
    exists e :: e in log && e.checker == i
  }

  ghost predicate Fits(saved: set<int>, steps: seq<Step>, s: State) {
    && (forall i :: 0 <= i < |s.checkers| ==> CheckerFits(saved, steps, s, i))
    && (forall i :: |s.checkers| <= i ==> Told(saved, steps, i) == [])
    && (forall e :: e in s.log ==> CommandFits(saved, steps, s, e))
    && (forall i: nat :: Commanded(Told(saved, steps, i)) ==> HasCommand(s.log, i))
    && (forall a, b :: 0 <= a < b < |s.log| ==> s.log[a].checker != s.log[b].checker)
    && (s.wrongKey <==> WrongSaid(saved, steps))
  }

  lemma {:induction false} ToldMore(saved: set<int>, steps: seq<Step>, step: Step, i: nat)
    ensures Told(saved, steps + [step], i)
            == Told(saved, steps, i)
               + if step.Check? && step.who == i && i < |Run(Start(saved), steps).checkers| then [step.ok] else []
  {
    assert (steps + [step])[..|steps|] == steps;
  }

  lemma {:induction false} WrongMore(saved: set<int>, steps: seq<Step>, step: Step)
    ensures WrongSaid(saved, steps + [step])
            <==> step.WrongKey? || (WrongSaid(saved, steps) && !(step.Api? && Run(Start(saved), steps).api.Reset?))
  {
    assert (steps + [step])[..|steps|] == steps;
  }

  lemma {:induction false} JudgedMore(saved: set<int>, steps: seq<Step>, step: Step, i: nat, reports: bool)
    requires JudgedRightly(saved, steps, i, reports)
    ensures JudgedRightly(saved, steps + [step], i, reports)
  {
    var j: nat :| Judged(saved, steps, i, reports, j);
    assert (steps + [step])[..j] == steps[..j];
    assert Judged(saved, steps + [step], i, reports, j);
  }

  lemma {:induction false} JudgedNow(saved: set<int>, steps: seq<Step>, i: nat, ok: bool)
    requires |Told(saved, steps, i)| == 2
    ensures JudgedRightly(saved, steps + [Check(i, ok)], i, !WrongSaid(saved, steps))
  {
    var more := steps + [Check(i, ok)];
    assert more[..|steps|] == steps;
    assert Judged(saved, more, i, !WrongSaid(saved, steps), |steps|);
  }

  /** One step of a checker. */
  lemma {:induction false} Moves(s: State, i: nat, ok: bool, o: seq<bool>)
    requires i < |s.checkers| && Stands(s.checkers[i].stage, o)
    ensures var c, c' := s.checkers[i], CheckStep(s, i, ok).checkers[i];
            && Stands(c'.stage, o + [ok]) && c'.kind == c.kind && c'.attempt == c.attempt
            && (c'.stage.Fail? ==> |o| == 2 && c'.stage.reports == !s.wrongKey)
  {
    assert forall k :: 0 <= k < |o| ==> (o + [ok])[k] == o[k];
  }

  /** What a step leaves alone. */
  ghost predicate Frame(s: State, step: Step, s': State) {
    && |s.checkers| <= |s'.checkers|
    && (forall i :: 0 <= i < |s.checkers| && !(step.Check? && step.who == i) ==> s'.checkers[i] == s.checkers[i])
    && (forall i :: |s.checkers| <= i < |s'.checkers| ==> s'.checkers[i].stage.ReadId?)
    && (!(step.Check? && step.who < |s.checkers| && s.checkers[step.who].stage.Fail?) ==> s'.log == s.log)
    && (s'.wrongKey <==> step.WrongKey? || (s.wrongKey && !(step.Api? && s.api.Reset?)))
  }

  lemma ApiFrame(s: State, ok: bool, id: int)
    ensures Frame(s, Api(ok, id), ApiStep(s, ok, id))
  {
    if s.api.Spawn? {
    } else {
      assert ApiStep(s, ok, id).checkers == s.checkers;
    }
  }

  lemma CheckFrame(s: State, i: nat, ok: bool)
    requires i < |s.checkers|
    ensures Frame(s, Check(i, ok), CheckStep(s, i, ok))
  {
  }

  lemma NextFrame(s: State, step: Step)
    ensures Frame(s, step, Next(s, step))
  {
    match step
    case Api(ok, id) => ApiFrame(s, ok, id);
    case Check(i, ok) => if i < |s.checkers| { CheckFrame(s, i, ok); }
    case Connect(_) =>
    case Cancel =>
    case WrongKey =>
  }

  lemma {:induction false} CheckerStep(saved: set<int>, steps: seq<Step>, step: Step, s: State, i: nat)
    requires s == Run(Start(saved), steps) && i < |s.checkers| && CheckerFits(saved, steps, s, i)
    requires s.wrongKey <==> WrongSaid(saved, steps)
    ensures i < |Next(s, step).checkers| && CheckerFits(saved, steps + [step], Next(s, step), i)
    ensures Next(s, step).checkers[i].kind == s.checkers[i].kind && Next(s, step).checkers[i].attempt == s.checkers[i].attempt
  {
    var o, c := Told(saved, steps, i), s.checkers[i];
    ToldMore(saved, steps, step, i);
    if step.Check? && step.who == i {
      Moves(s, i, step.ok, o);
      if |o| == 2 { JudgedNow(saved, steps, i, step.ok); }
    } else {
      NextFrame(s, step);
      assert o + [] == o;
      if c.stage.Fail? { JudgedMore(saved, steps, step, i, c.stage.reports); }
    }
  }

  lemma {:induction false} NewCheckers(saved: set<int>, steps: seq<Step>, step: Step, s: State, s': State)
    requires s == Run(Start(saved), steps) && (forall i :: |s.checkers| <= i ==> Told(saved, steps, i) == [])
    requires Frame(s, step, s')
    ensures forall i :: |s.checkers| <= i < |s'.checkers| ==> CheckerFits(saved, steps + [step], s', i)
    ensures forall i :: |s.checkers| <= i ==> Told(saved, steps + [step], i) == []
  {
    forall i | |s.checkers| <= i ensures Told(saved, steps + [step], i) == [] {
      ToldMore(saved, steps, step, i);
    }
  }

  lemma {:induction false} CommandStays(saved: set<int>, steps: seq<Step>, step: Step, s: State, e: Command)
    requires s == Run(Start(saved), steps) && CommandFits(saved, steps, s, e) && CheckerFits(saved, steps, s, e.checker)
    requires s.wrongKey <==> WrongSaid(saved, steps)
    ensures CommandFits(saved, steps + [step], Next(s, step), e)
  {
    ToldMore(saved, steps, step, e.checker);
    CheckerStep(saved, steps, step, s, e.checker);
    JudgedMore(saved, steps, step, e.checker, e.reports);
  }

  /** The step of a checker that gives a command. */
  lemma {:induction false} CommandGiven(saved: set<int>, steps: seq<Step>, s: State, i: nat, ok: bool)
    requires s == Run(Start(saved), steps) && i < |s.checkers| && CheckerFits(saved, steps, s, i)
    requires s.checkers[i].stage.Fail?
    ensures var s' := CheckStep(s, i, ok); var o := Told(saved, steps + [Check(i, ok)], i);
            && |s'.log| == |s.log| + 1 && s'.log[..|s.log|] == s.log && s'.log[|s.log|].checker == i
            && Commanded(o) && !Commanded(Told(saved, steps, i))
            && CommandFits(saved, steps + [Check(i, ok)], s', s'.log[|s.log|])
  {
    var c := s.checkers[i];
    ToldMore(saved, steps, Check(i, ok), i);
    JudgedMore(saved, steps, Check(i, ok), i, c.stage.reports);
  }

  /** Any other step gives none. */
  lemma {:induction false} NothingGiven(saved: set<int>, steps: seq<Step>, step: Step, s: State, i: nat)
    requires s == Run(Start(saved), steps)
    requires !(step.Check? && step.who < |s.checkers| && s.checkers[step.who].stage.Fail?)
    requires i < |s.checkers| ==> CheckerFits(saved, steps, s, i)
    ensures Commanded(Told(saved, steps + [step], i)) ==> Commanded(Told(saved, steps, i))
  {
    ToldMore(saved, steps, step, i);
  }

  lemma {:induction false} WrongFits(saved: set<int>, steps: seq<Step>, step: Step, s: State, s': State)
    requires s == Run(Start(saved), steps) && (s.wrongKey <==> WrongSaid(saved, steps)) && Frame(s, step, s')
    ensures s'.wrongKey <==> WrongSaid(saved, steps + [step])
  {
    WrongMore(saved, steps, step);
  }

  lemma {:induction false} FitsStep(saved: set<int>, steps: seq<Step>, step: Step, s: State)
    requires s == Run(Start(saved), steps) && Fits(saved, steps, s)
    ensures Fits(saved, steps + [step], Next(s, step))
  {
    var s' := Next(s, step);
    NextFrame(s, step);
    NewCheckers(saved, steps, step, s, s');
    WrongFits(saved, steps, step, s, s');
    forall i | 0 <= i < |s.checkers| ensures CheckerFits(saved, steps + [step], s', i) {
      CheckerStep(saved, steps, step, s, i);
    }
    forall e | e in s.log ensures CommandFits(saved, steps + [step], s', e) {
      CommandStays(saved, steps, step, s, e);
    }
    LogStep(saved, steps, step, s, s');
  }

  lemma {:induction false} LogStep(saved: set<int>, steps: seq<Step>, step: Step, s: State, s': State)
    requires s == Run(Start(saved), steps) && Fits(saved, steps, s) && s' == Next(s, step) && Frame(s, step, s')
    requires forall e :: e in s.log ==> CommandFits(saved, steps + [step], s', e)
    ensures && (forall e :: e in s'.log ==> CommandFits(saved, steps + [step], s', e))
            && (forall i: nat :: Commanded(Told(saved, steps + [step], i)) ==> HasCommand(s'.log, i))
            && (forall a, b :: 0 <= a < b < |s'.log| ==> s'.log[a].checker != s'.log[b].checker)
  {
    if step.Check? && step.who < |s.checkers| && s.checkers[step.who].stage.Fail? {
      LogGrows(saved, steps, step, s);
    } else {
      forall i: nat | Commanded(Told(saved, steps + [step], i)) ensures HasCommand(s'.log, i) {
        NothingGiven(saved, steps, step, s, i);
      }
    }
  }

  lemma {:induction false} LogGrows(saved: set<int>, steps: seq<Step>, step: Step, s: State)
    requires s == Run(Start(saved), steps) && Fits(saved, steps, s)
    requires step.Check? && step.who < |s.checkers| && s.checkers[step.who].stage.Fail?
    requires forall e :: e in s.log ==> CommandFits(saved, steps + [step], Next(s, step), e)
    ensures var s' := Next(s, step);
            && (forall e :: e in s'.log ==> CommandFits(saved, steps + [step], s', e))
            && (forall i: nat :: Commanded(Told(saved, steps + [step], i)) ==> HasCommand(s'.log, i))
            && (forall a, b :: 0 <= a < b < |s'.log| ==> s'.log[a].checker != s'.log[b].checker)
  {
    var s', n := Next(s, step), |s.log|;
    CommandGiven(saved, steps, s, step.who, step.ok);
    assert s'.log == s.log + [s'.log[n]];
    forall i: nat | Commanded(Told(saved, steps + [step], i)) ensures HasCommand(s'.log, i) {
      ToldMore(saved, steps, step, i);
      if i == step.who {
        assert s'.log[n] in s'.log;
      } else {
        assert HasCommand(s.log, i);
        var e :| e in s.log && e.checker == i;
        assert e in s'.log;
      }
    }
    forall a | 0 <= a < n ensures s'.log[a].checker != step.who {
      assert s'.log[a] == s.log[a] && s.log[a] in s.log;
    }
  }

  lemma {:induction false} RunFits(saved: set<int>, steps: seq<Step>)
    ensures Fits(saved, steps, Run(Start(saved), steps))
  {
    if steps != [] {
      var n := |steps| - 1;
      RunFits(saved, steps[..n]);
      FitsStep(saved, steps[..n], steps[n], Run(Start(saved), steps[..n]));
      assert steps == steps[..n] + [steps[n]];
    }
  }

  /** In every interleaving, from the outcomes of its own steps: where a checker stands; that it gives one command if its
      polling found no connection and it has come that far, and none otherwise; and that it reports the failure itself
      exactly if no wrong key had been reported since the attempt began when it looked. */
  lemma {:induction false} CheckersFollow(saved: set<int>, steps: seq<Step>)
    ensures var s := Run(Start(saved), steps);
            && (forall i :: 0 <= i < |s.checkers| ==> Stands(s.checkers[i].stage, Told(saved, steps, i)))
            && (forall i: nat :: HasCommand(s.log, i) <==> Commanded(Told(saved, steps, i)))
            && (forall a, b :: 0 <= a < b < |s.log| ==> s.log[a].checker != s.log[b].checker)
            && (forall e :: e in s.log ==>
                  && e.checker < |s.checkers| && JudgedRightly(saved, steps, e.checker, e.reports)
                  && e.kind == s.checkers[e.checker].kind && e.attempt == s.checkers[e.checker].attempt)
  {
    RunFits(saved, steps);
    Follows(saved, steps, Run(Start(saved), steps));
  }

  lemma {:induction false} Follows(saved: set<int>, steps: seq<Step>, s: State)
    requires Fits(saved, steps, s)
    ensures forall i :: 0 <= i < |s.checkers| ==> Stands(s.checkers[i].stage, Told(saved, steps, i))
    ensures forall i: nat :: HasCommand(s.log, i) <==> Commanded(Told(saved, steps, i))
    ensures forall e :: e in s.log ==>
              && e.checker < |s.checkers| && JudgedRightly(saved, steps, e.checker, e.reports)
              && e.kind == s.checkers[e.checker].kind && e.attempt == s.checkers[e.checker].attempt
  {
    forall i | 0 <= i < |s.checkers| ensures Stands(s.checkers[i].stage, Told(saved, steps, i)) {
      assert CheckerFits(saved, steps, s, i);
    }
    forall i: nat | HasCommand(s.log, i) ensures Commanded(Told(saved, steps, i)) {
      var e :| e in s.log && e.checker == i;
      assert CommandFits(saved, steps, s, e);
    }
  }

  lemma {:induction false} ToldOnlyOk(saved: set<int>, steps: seq<Step>, i: nat)
    requires forall ok, who :: Check(who, ok) in steps ==> ok
    ensures forall k :: 0 <= k < |Told(saved, steps, i)| ==> Told(saved, steps, i)[k]
  {
    if steps != [] {
      var n := |steps| - 1;
      assert steps[n] in steps;
      ToldOnlyOk(saved, steps[..n], i);
    }
  }

  /** If every connection comes up, no command is given and no saved network is lost. */
  lemma {:induction false} NoFailureNoCommand(saved: set<int>, steps: seq<Step>)
    requires forall ok, who :: Check(who, ok) in steps ==> ok
    ensures Run(Start(saved), steps).log == [] && saved <= Run(Start(saved), steps).networks
  {
    var s := Run(Start(saved), steps);
    CheckersFollow(saved, steps);
    AttemptSafety(saved, steps);
    if s.log != [] {
      var e := s.log[0];
      assert HasCommand(s.log, e.checker);
      ToldOnlyOk(saved, steps, e.checker);
      assert false;
    }
    forall n | n in saved ensures n in s.networks {
      assert !Forgotten(s.log, n);
    }
  }

  // ---- one attempt after the other ----

  /** What goes on, as if there were one attempt at a time and nothing happened between its steps. */
  datatype Phase =
    | Free
    | Seeking(kind: Kind)
    | Chosen(kind: Kind, id: int)
    | Ready(kind: Kind, id: int)
    | Trying(kind: Kind, id: int)
    | Lost(kind: Kind, id: int)
    | Over

  /** A call that has not begun an attempt. */
  datatype Call = Asking(kind: Kind) | Granted(kind: Kind) | Looking | Setting | Waiting

  datatype Plain = Plain(call: Option<Call>, cancel: bool, phase: Phase, networks: set<int>, log: seq<Command>)

  ghost function CallOf(pc: Pc): Option<Call> {
    match pc
    case Look(k) => Some(Asking(k))
    case Take(k) => Some(Granted(k))
    case CancelLook => Some(Looking)
    case CancelSet => Some(Setting)
    case CancelWait => Some(Waiting)
    case _ => None
  }

  ghost function ApiPhase(pc: Pc): Phase {
    match pc
    case Reset(k) => Seeking(k)
    case Mark => Seeking(Saved)
    case Search(k) => Seeking(k)
    case Create => Seeking(Fresh)
    case Aim(k, i) => Chosen(k, i)
    case Configure(k, i) => Ready(k, i)
    case Spawn(k, i) => Trying(k, i)
    case Unmark => Over
    case Unlock => Over
    case _ => Free
  }

  ghost function CheckerPhase(c: Checker): Phase {
    match c.stage
    case ReadId => Trying(c.kind, c.attempt)
    case Watch => Trying(c.kind, c.attempt)
    case Judge => Lost(c.kind, c.attempt)
    case Fail(_) => Lost(c.kind, c.attempt)
    case ClearExist => Over
    case ReleaseLock => Over
    case _ => Free
  }

  /** The plain state is what the thread that holds the lock makes of it. */
  ghost predicate Shows(s: State, a: Plain) {
    && a.call == CallOf(s.api) && a.cancel == s.cancel && a.networks == s.networks && a.log == s.log
    && (ApiHolds(s.api) ==> a.phase == ApiPhase(s.api))
    && (forall i :: 0 <= i < |s.checkers| && Holds(s.checkers[i]) ==> a.phase == CheckerPhase(s.checkers[i]))
    && (!ApiHolds(s.api) && !SomeHolds(s.checkers) ==> a.phase == Free)
  }

  /** What the search comes to: a network that is there, or for a connection by name and key a new one, or nothing. */
  ghost predicate Finds(a: Plain, ok: bool, id: int, b: Plain)
    requires a.phase.Seeking?
  {
    || (ok && id in a.networks && b == a.(phase := Chosen(a.phase.kind, id)))
    || (ok && id !in a.networks && a.phase.kind.Fresh? && b == a.(phase := Chosen(Fresh, id), networks := a.networks + {id}))
    || (!(ok && if a.phase.kind.Fresh? then id !in a.networks else id in a.networks) && b == a.(phase := Over))
  }

  /** A call begins an attempt if none is under way, and a cancel sets its flag if one is. */
  ghost predicate CallPlainly(a: Plain, ok: bool, b: Plain)
    requires a.call.Some?
  {
    match a.call.value
    case Asking(k) => b == a.(call := if a.phase.Free? then Some(Granted(k)) else None)
    case Granted(k) => a.phase.Free? && b == a.(call := None, phase := Seeking(k))
    case Looking => b == a.(call := if a.phase.Free? then None else Some(Setting))
    case Setting => b == a.(call := Some(Waiting), cancel := true)
    case Waiting => b == a.(call := if ok || !a.cancel then None else a.call)
  }

  /** The attempt of a call: the network it found or made is the one it tries, if it can be configured. */
  ghost predicate AttemptPlainly(a: Plain, ok: bool, id: int, b: Plain) {
    match a.phase
    case Seeking(_) => b == a || Finds(a, ok, id, b)
    case Chosen(k, i) => b == a.(phase := Ready(k, i))
    case Ready(k, i) => b == a.(phase := if ok then Trying(k, i) else Over)
    case Over => b == a || b == a.(phase := Free)
    case _ => b == a
  }

  /** The failed attempt of the plain state gives its command: the network goes if it was not a saved one. */
  ghost predicate Gives(a: Plain, b: Plain) {
    && a.phase.Lost?
    && (exists c: Command :: && c.kind == a.phase.kind && c.attempt == c.network == a.phase.id && (c.removes <==> c.kind.Fresh?)
                             && b == a.(phase := Over, log := a.log + [c],
                                        networks := if c.removes then a.networks - {c.network} else a.networks))
  }

  /** What a step of a checker may do to it: the outcome of the polling decides. */
  ghost predicate CheckPlainly(a: Plain, ok: bool, b: Plain) {
    || b == a || b == a.(cancel := false) || Gives(a, b)
    || (a.phase.Trying? && b == a.(phase := if ok then Over else Lost(a.phase.kind, a.phase.id)))
    || (a.phase.Over? && b == a.(phase := Free))
  }

  ghost predicate Plainly(a: Plain, step: Step, b: Plain) {
    match step
    case Connect(k) => b == a || (a.call.None? && b == a.(call := Some(Asking(k))))
    case Cancel => b == a || (a.call.None? && b == a.(call := Some(Looking)))
    case Api(ok, id) => if a.call.Some? then CallPlainly(a, ok, b) else AttemptPlainly(a, ok, id, b)
    case Check(_, ok) => CheckPlainly(a, ok, b)
    case WrongKey => b == a
  }

  lemma SomePhase(s: State, a: Plain)
    requires Inv(s) && Shows(s, a)
    ensures s.lock <==> !a.phase.Free?
  {
    if !ApiHolds(s.api) && SomeHolds(s.checkers) {
      var i :| 0 <= i < |s.checkers| && Holds(s.checkers[i]);
      assert a.phase == CheckerPhase(s.checkers[i]);
    }
  }

  /** A call outside its attempt. */
  lemma CallShows(s: State, a: Plain, ok: bool, id: int) returns (b: Plain)
    requires Inv(s) && Shows(s, a) && CallOf(s.api).Some?
    ensures Shows(ApiStep(s, ok, id), b) && CallPlainly(a, ok, b)
  {
    SomePhase(s, a);
    if s.api.Take? {
      b := a.(call := None, phase := Seeking(s.api.kind));
    } else if s.api.Look? {
      b := a.(call := if a.phase.Free? then Some(Granted(s.api.kind)) else None);
    } else {
      b := CancelShows(s, a, ok, id);
    }
  }

  lemma CancelShows(s: State, a: Plain, ok: bool, id: int) returns (b: Plain)
    requires Inv(s) && Shows(s, a) && (s.lock <==> !a.phase.Free?) && (s.api.CancelLook? || s.api.CancelSet? || s.api.CancelWait?)
    ensures Shows(ApiStep(s, ok, id), b) && CallPlainly(a, ok, b)
  {
    b := a.(call := CallOf(ApiStep(s, ok, id).api), cancel := ApiStep(s, ok, id).cancel);
  }

  /** A call in its attempt: no checker holds the lock. */
  lemma AttemptShows(s: State, a: Plain, ok: bool, id: int) returns (b: Plain)
    requires Inv(s) && Shows(s, a) && ApiHolds(s.api) && !s.api.Spawn?
    ensures Shows(ApiStep(s, ok, id), b) && AttemptPlainly(a, ok, id, b)
  {
    var s' := ApiStep(s, ok, id);
    b := InAttempt(a, s');
    assert !SomeHolds(s.checkers);
    AttemptPlain(s, a, ok, id, b);
  }

  /** What the interface in its attempt shows. */
  ghost function InAttempt(a: Plain, s: State): Plain {
    a.(phase := if ApiHolds(s.api) then ApiPhase(s.api) else Free, networks := s.networks)
  }

  lemma AttemptPlain(s: State, a: Plain, ok: bool, id: int, b: Plain)
    requires ApiHolds(s.api) && !s.api.Spawn? && a.phase == ApiPhase(s.api) && a.networks == s.networks
    requires b == InAttempt(a, ApiStep(s, ok, id))
    ensures AttemptPlainly(a, ok, id, b)
  {
    if s.api.Search? || s.api.Create? { SearchPlain(s, a, ok, id, b); } else { PlacePlain(s, a, ok, id, b); }
  }

  lemma SearchPlain(s: State, a: Plain, ok: bool, id: int, b: Plain)
    requires (s.api.Search? || s.api.Create?) && a.phase == ApiPhase(s.api) && a.networks == s.networks
    requires b == InAttempt(a, ApiStep(s, ok, id))
    ensures AttemptPlainly(a, ok, id, b)
  {
  }

  lemma PlacePlain(s: State, a: Plain, ok: bool, id: int, b: Plain)
    requires s.api.Reset? || s.api.Mark? || s.api.Aim? || s.api.Configure? || s.api.Unmark? || s.api.Unlock?
    requires a.phase == ApiPhase(s.api) && a.networks == s.networks && b == InAttempt(a, ApiStep(s, ok, id))
    ensures AttemptPlainly(a, ok, id, b)
  {
  }

  /** The attempt goes over to the new checker. */
  lemma SpawnShows(s: State, a: Plain, ok: bool, id: int)
    requires Inv(s) && Shows(s, a) && s.api.Spawn?
    ensures Shows(ApiStep(s, ok, id), a)
  {
    var s', n := ApiStep(s, ok, id), |s.checkers|;
    assert s'.checkers[n] == Checker(s.api.kind, s.api.id, ReadId, 0);
    assert Holds(s'.checkers[n]);
    assert forall i :: 0 <= i < n ==> s'.checkers[i] == s.checkers[i] && !Holds(s.checkers[i]);
  }

  lemma OnlyHolder(s: State, i: nat)
    requires Inv(s) && i < |s.checkers| && Holds(s.checkers[i])
    ensures !ApiHolds(s.api) && forall j :: 0 <= j < |s.checkers| && j != i ==> !Holds(s.checkers[j])
  {
    assert SomeHolds(s.checkers);
  }

  /** The checker that holds the lock. */
  lemma HolderShows(s: State, a: Plain, i: nat, ok: bool, s': State) returns (b: Plain)
    requires Inv(s) && Shows(s, a) && i < |s.checkers| && Holds(s.checkers[i]) && s' == CheckStep(s, i, ok)
    ensures Shows(s', b) && CheckPlainly(a, ok, b)
  {
    OnlyHolder(s, i);
    b := a.(phase := CheckerPhase(s'.checkers[i]), networks := s'.networks, log := s'.log);
    assert forall j :: 0 <= j < |s.checkers| && j != i ==> s'.checkers[j] == s.checkers[j];
    if s.checkers[i].stage.Fail? { FailGives(s, a, i, ok, s', b); }
  }

  lemma FailGives(s: State, a: Plain, i: nat, ok: bool, s': State, b: Plain)
    requires Inv(s) && Shows(s, a) && i < |s.checkers| && s.checkers[i].stage.Fail? && s' == CheckStep(s, i, ok)
    requires b == a.(phase := Over, networks := s'.networks, log := s'.log)
    ensures Gives(a, b)
  {
    var c := s.checkers[i];
    HolderMoves(s.checkers, i, c);
    assert s.checkers[i := c] == s.checkers;
    assert Holds(c) && SomeHolds(s.checkers);
    var e := Command(i, c.kind, c.attempt, !s.isExist, c.id, c.stage.reports);
    assert b.log == a.log + [e];
  }

  /** A checker that has let go of the lock. */
  lemma LeaverShows(s: State, a: Plain, i: nat, ok: bool, s': State) returns (b: Plain)
    requires Inv(s) && Shows(s, a) && i < |s.checkers| && !Holds(s.checkers[i]) && s' == CheckStep(s, i, ok)
    ensures Shows(s', b) && CheckPlainly(a, ok, b)
  {
    b := a.(cancel := s'.cancel);
    assert forall j :: 0 <= j < |s.checkers| && j != i ==> s'.checkers[j] == s.checkers[j];
    assert !Holds(s'.checkers[i]);
    OthersMove(s.checkers, i, s'.checkers[i]);
    assert s'.checkers == s.checkers[i := s'.checkers[i]];
  }

  lemma ApiShows(s: State, a: Plain, ok: bool, id: int) returns (b: Plain)
    requires Inv(s) && Shows(s, a)
    ensures Shows(ApiStep(s, ok, id), b) && Plainly(a, Api(ok, id), b)
  {
    if s.api.Idle? {
      b := a;
      SomePhase(s, a);
      IdlePlain(s, a, ok, id);
    } else if s.api.Spawn? {
      b := a;
      SpawnShows(s, a, ok, id);
    } else if ApiHolds(s.api) {
      b := AttemptShows(s, a, ok, id);
    } else {
      b := CallShows(s, a, ok, id);
    }
  }

  /** Without a call the interface does nothing: the attempt under way is with its checker. */
  lemma IdlePlain(s: State, a: Plain, ok: bool, id: int)
    requires Inv(s) && Shows(s, a) && s.api.Idle?
    ensures AttemptPlainly(a, ok, id, a)
  {
    if SomeHolds(s.checkers) {
      var i :| 0 <= i < |s.checkers| && Holds(s.checkers[i]);
      assert a.phase == CheckerPhase(s.checkers[i]);
    }
  }

  lemma StepShows(s: State, a: Plain, step: Step) returns (b: Plain)
    requires Inv(s) && Shows(s, a)
    ensures Shows(Next(s, step), b) && Plainly(a, step, b)
  {
    b := a;
    match step
    case Connect(k) => if s.api.Idle? { b := a.(call := Some(Asking(k))); }
    case Cancel => if s.api.Idle? { b := a.(call := Some(Looking)); }
    case Api(ok, id) => b := ApiShows(s, a, ok, id);
    case Check(i, ok) =>
      if i < |s.checkers| {
        if Holds(s.checkers[i]) { b := HolderShows(s, a, i, ok, CheckStep(s, i, ok)); }
        else { b := LeaverShows(s, a, i, ok, CheckStep(s, i, ok)); }
      }
    case WrongKey =>
  }

  ghost predicate StepsPlain(steps: seq<Step>, plain: seq<Plain>) {
    |plain| == |steps| + 1 && forall k :: 0 <= k < |steps| ==> Plainly(plain[k], steps[k], plain[k + 1])
  }

  ghost predicate StatesShown(saved: set<int>, steps: seq<Step>, plain: seq<Plain>) {
    |plain| == |steps| + 1 && forall k :: 0 <= k <= |steps| ==> Shows(Run(Start(saved), steps[..k]), plain[k])
  }

  lemma MorePlain(steps: seq<Step>, plain: seq<Plain>, step: Step, b: Plain)
    requires StepsPlain(steps, plain) && Plainly(plain[|steps|], step, b)
    ensures StepsPlain(steps + [step], plain + [b])
  {
    var more, all := steps + [step], plain + [b];
    forall k | 0 <= k < |more| ensures Plainly(all[k], more[k], all[k + 1]) {
      assert all[k] == plain[k] && more[k] == if k < |steps| then steps[k] else step;
      assert all[k + 1] == if k < |steps| then plain[k + 1] else b;
    }
  }

  lemma {:induction false} MoreShown(saved: set<int>, steps: seq<Step>, plain: seq<Plain>, step: Step, b: Plain)
    requires StatesShown(saved, steps, plain) && Shows(Run(Start(saved), steps + [step]), b)
    ensures StatesShown(saved, steps + [step], plain + [b])
  {
    var more, all := steps + [step], plain + [b];
    forall k | 0 <= k <= |more| ensures Shows(Run(Start(saved), more[..k]), all[k]) {
      if k <= |steps| { assert more[..k] == steps[..k]; } else { assert more[..k] == more; }
    }
  }

  /** Every interleaving of the threads looks like one attempt after the other: a search that finds or makes a network, a
      connection that comes up or does not, and in the second case one command about that network. */
  lemma {:induction false} LooksSequential(saved: set<int>, steps: seq<Step>) returns (plain: seq<Plain>)
    ensures StepsPlain(steps, plain) && StatesShown(saved, steps, plain) && plain[0] == Plain(None, false, Free, saved, [])
    decreases |steps|
  {
    if steps == [] {
      plain := [Plain(None, false, Free, saved, [])];
    } else {
      var n := |steps| - 1;
      var s := Run(Start(saved), steps[..n]);
      var p := LooksSequential(saved, steps[..n]);
      RunInv(saved, steps[..n]);
      assert steps[..n][..n] == steps[..n] && steps == steps[..n] + [steps[n]];
      var b := StepShows(s, p[n], steps[n]);
      MorePlain(steps[..n], p, steps[n], b);
      MoreShown(saved, steps[..n], p, steps[n], b);
      plain := p + [b];
    }
  }

  // ---- a cancel that comes too late ----

  /** A checker that will still clear the cancel flag. */
  ghost predicate SomeToClear(cs: seq<Checker>) {
    exists i :: 0 <= i < |cs| && !cs[i].stage.Finish?
  }

  /** Whether the last cancel was set when no checker was left to clear the flag, and none has cleared it since. */
  ghost predicate TooLate(saved: set<int>, steps: seq<Step>) {
    steps != [] &&
    var front, last := steps[..|steps| - 1], steps[|steps| - 1];
    var s := Run(Start(saved), front);
    if last.Api? && s.api.CancelSet? then !SomeToClear(s.checkers)
    else if last.Check? && last.who < |s.checkers| && s.checkers[last.who].stage.ClearCancel? then false
    else TooLate(saved, front)
  }

  lemma ToClear(s: State, step: Step, s': State)
    requires s' == Next(s, step) && SomeToClear(s.checkers)
    requires !(step.Check? && step.who < |s.checkers| && s.checkers[step.who].stage.ClearCancel?)
    ensures SomeToClear(s'.checkers)
  {
    var i :| 0 <= i < |s.checkers| && !s.checkers[i].stage.Finish?;
    NextFrame(s, step);
    assert !s'.checkers[i].stage.Finish?;
  }

  lemma {:induction false} CancelRun(saved: set<int>, steps: seq<Step>)
    ensures CancelFits(saved, steps, Run(Start(saved), steps))
  {
    if steps != [] {
      var n := |steps| - 1;
      var s := Run(Start(saved), steps[..n]);
      CancelRun(saved, steps[..n]);
      CancelStep(saved, steps, s, steps[n], Next(s, steps[n]));
    }
  }

  ghost predicate CancelFits(saved: set<int>, steps: seq<Step>, s: State) {
    (TooLate(saved, steps) ==> s.cancel) && (s.cancel && !TooLate(saved, steps) ==> SomeToClear(s.checkers))
  }

  lemma {:induction false} CancelStep(saved: set<int>, steps: seq<Step>, s: State, step: Step, s': State)
    requires steps != [] && step == steps[|steps| - 1] && s == Run(Start(saved), steps[..|steps| - 1]) && s' == Next(s, step)
    requires CancelFits(saved, steps[..|steps| - 1], s)
    ensures CancelFits(saved, steps, s')
  {
    var clears := step.Check? && step.who < |s.checkers| && s.checkers[step.who].stage.ClearCancel?;
    CancelFlag(s, step);
    if SomeToClear(s.checkers) && !clears { ToClear(s, step, s'); }
  }

  lemma CancelFlag(s: State, step: Step)
    ensures Next(s, step).cancel
            <==> || (step.Api? && s.api.CancelSet?)
                 || (s.cancel && !(step.Check? && step.who < |s.checkers| && s.checkers[step.who].stage.ClearCancel?))
  {
  }

  /** When all threads have come to rest the cancel flag is set exactly if the last cancel came too late: the lock was still
      set when it looked, and when it set the flag every checker had cleared it. The next attempt then starts cancelled. */
  lemma {:induction false} CancelStaysIff(saved: set<int>, steps: seq<Step>)
    requires var s := Run(Start(saved), steps); forall i :: 0 <= i < |s.checkers| ==> s.checkers[i].stage.Finish?
    ensures Run(Start(saved), steps).cancel <==> TooLate(saved, steps)
  {
    CancelRun(saved, steps);
  }

  /** Connecting, and a cancel that looks before the checker lets go of the lock and sets the flag after it is done. */
  function LateCancel(n: int): seq<Step> {
    Connecting(n) + [Check(0, true), Check(0, true), Check(0, true), Cancel] + [Api(true, 0), Check(0, true), Check(0, true), Api(true, 0)]
  }

  /** After it all threads are done or about to return, no attempt is under way, and the flag is set. */
  lemma LateCancelStays(saved: set<int>, n: int)
    requires n in saved
    ensures var s := Run(Start(saved), LateCancel(n));
            s.cancel && !s.lock && s.api.CancelWait? && |s.checkers| == 1 && s.checkers[0].stage.Finish?
  {
    var s := Start(saved);
    ConnectingRun(s, n);
    var s8 := Run(s, Connecting(n));
    assert s8.checkers == [Checker(Fresh, n, ReadId, 0)];
    var s12 := LateLook(s8, n);
    var s16 := LateSet(s12, n);
    RunConcat(s, Connecting(n), [Check(0, true), Check(0, true), Check(0, true), Cancel]);
    RunConcat(s, Connecting(n) + [Check(0, true), Check(0, true), Check(0, true), Cancel],
              [Api(true, 0), Check(0, true), Check(0, true), Api(true, 0)]);
  }

  lemma LateLook(s: State, n: int) returns (s': State)
    requires s.api.Idle? && s.lock && s.checkers == [Checker(Fresh, n, ReadId, 0)]
    ensures s' == Run(s, [Check(0, true), Check(0, true), Check(0, true), Cancel])
    ensures s'.api.CancelLook? && s'.lock && |s'.checkers| == 1 && s'.checkers[0].stage.ReleaseLock?
  {
    s' := Run(s, [Check(0, true), Check(0, true), Check(0, true), Cancel]);
    RunFour(s, Check(0, true), Check(0, true), Check(0, true), Cancel);
  }

  lemma LateSet(s: State, n: int) returns (s': State)
    requires s.api.CancelLook? && s.lock && |s.checkers| == 1 && s.checkers[0].stage.ReleaseLock?
    ensures s' == Run(s, [Api(true, 0), Check(0, true), Check(0, true), Api(true, 0)])
    ensures s'.cancel && !s'.lock && s'.api.CancelWait? && |s'.checkers| == 1 && s'.checkers[0].stage.Finish?
  {
    s' := Run(s, [Api(true, 0), Check(0, true), Check(0, true), Api(true, 0)]);
    RunFour(s, Api(true, 0), Check(0, true), Check(0, true), Api(true, 0));
  }
}
