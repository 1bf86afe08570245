/** The connect attempts of the Wi-Fi service. One thread makes the calls of the interface, each attempt ends in a checker
    thread of its own, and a monitor thread sets a flag; they share plain variables. Every access to a shared variable is
    a step, except that the polling of a checker is one step with any outcome, and the steps of the threads interleave
    freely.
 */
module Wifi {

  /** A connection to an access point given by name and key, or to a network already saved. */
  datatype Kind = Fresh | Saved

  /** Where the thread of the interface stands. */
  datatype Pc =
    | Idle
    | Look(kind: Kind)
    | Take(kind: Kind)
    | Reset(kind: Kind)
    | Mark
    | Search(kind: Kind)
    | Create
    | Aim(kind: Kind, id: int)
    | Configure(kind: Kind, id: int)
    | Spawn(kind: Kind, id: int)
    | Unmark
    | Unlock
    | CancelLook
    | CancelSet
    | CancelWait

  datatype Stage = ReadId | Watch | Judge | Fail(reports: bool) | ClearExist | ReleaseLock | ClearCancel | Finish

  /** A checker thread: which attempt started it, where it stands, and the network id it has read. */
  datatype Checker = Checker(kind: Kind, attempt: int, stage: Stage, id: int)

  /** A command about a network, which checker gave it after a failed attempt, and whether the checker itself reports the
      failure, which it leaves to the monitor after a wrong key. */
  datatype Command = Command(checker: nat, kind: Kind, attempt: int, removes: bool, network: int, reports: bool)

  datatype State = State(lock: bool, isExist: bool, wrongKey: bool, cancel: bool, connectingId: int,
                         networks: set<int>, api: Pc, checkers: seq<Checker>, log: seq<Command>)

  /** The service starts with the networks that were saved before. */
  function Start(networks: set<int>): State {
    State(false, false, false, false, -1, networks, Idle, [], [])
  }

  /** A call of the interface, or the next step of the call in progress; a step of a checker; the monitor reporting a wrong
      key. The flag says how a command or a search in this step turned out, and id which network it found or made. */
  datatype Step = Connect(kind: Kind) | Cancel | Api(ok: bool, id: int) | Check(who: nat, ok: bool) | WrongKey

  function ApiStep(s: State, ok: bool, id: int): State {
    match s.api
    case Idle => s
    case Look(k) => s.(api := if s.lock then Idle else Take(k))
    case Take(k) => s.(lock := true, api := Reset(k))
    case Reset(k) => s.(wrongKey := false, api := if k.Saved? then Mark else Search(k))
    case Mark => s.(isExist := true, api := Search(Saved))
    case Search(k) => s.(api := if ok && id in s.networks then Aim(k, id) else if k.Fresh? then Create else Failed(k))
    case Create =>
      if ok && id !in s.networks then s.(networks := s.networks + {id}, api := Aim(Fresh, id)) else s.(api := Failed(Fresh))
    case Aim(k, i) => s.(connectingId := i, api := Configure(k, i))
    case Configure(k, i) => s.(api := if ok then Spawn(k, i) else Failed(k))
    case Spawn(k, i) => s.(checkers := s.checkers + [Checker(k, i, ReadId, 0)], api := Idle)
    case Unmark => s.(isExist := false, api := Unlock)
    case Unlock => s.(lock := false, api := Idle)
    case CancelLook => s.(api := if s.lock then CancelSet else Idle)
    case CancelSet => s.(cancel := true, api := CancelWait)
    case CancelWait => s.(api := if !s.cancel || ok then Idle else CancelWait)
  }

  function Failed(k: Kind): Pc {
    if k.Saved? then Unmark else Unlock
  }

  function CheckStep(s: State, i: nat, ok: bool): State
    requires i < |s.checkers|
  {
    var c := s.checkers[i];
    match c.stage
    case ReadId => s.(checkers := s.checkers[i := c.(id := s.connectingId, stage := Watch)])
    case Watch => s.(checkers := s.checkers[i := c.(stage := if ok then ClearExist else Judge)])
    case Judge => s.(checkers := s.checkers[i := c.(stage := Fail(!s.wrongKey))])
    case Fail(reports) => s.(checkers := s.checkers[i := c.(stage := ClearExist)],
                    networks := if s.isExist then s.networks else s.networks - {c.id},
                    log := s.log + [Command(i, c.kind, c.attempt, !s.isExist, c.id, reports)])
    case ClearExist => s.(isExist := false, checkers := s.checkers[i := c.(stage := ReleaseLock)])
    case ReleaseLock => s.(lock := false, checkers := s.checkers[i := c.(stage := ClearCancel)])
    case ClearCancel => s.(cancel := false, checkers := s.checkers[i := c.(stage := Finish)])
    case Finish => s
  }

  function Next(s: State, step: Step): State {
    match step
    case Connect(k) => if s.api.Idle? then s.(api := Look(k)) else s
    case Cancel => if s.api.Idle? then s.(api := CancelLook) else s
    case Api(ok, id) => ApiStep(s, ok, id)
    case Check(i, ok) => if i < |s.checkers| then CheckStep(s, i, ok) else s
    case WrongKey => s.(wrongKey := true)
  }

  function Run(s: State, steps: seq<Step>): State {
    if steps == [] then s else Next(Run(s, steps[..|steps| - 1]), steps[|steps| - 1])
  }

  // ---- who holds the lock ----

  predicate ApiHolds(pc: Pc) {
    pc.Reset? || pc.Mark? || pc.Search? || pc.Create? || pc.Aim? || pc.Configure? || pc.Spawn? || pc.Unmark? || pc.Unlock?
  }

  predicate Holds(c: Checker) {
    c.stage.ReadId? || c.stage.Watch? || c.stage.Judge? || c.stage.Fail? || c.stage.ClearExist? || c.stage.ReleaseLock?
  }

  predicate ApiMarked(pc: Pc) {
    pc.Unmark? || ((pc.Search? || pc.Aim? || pc.Configure? || pc.Spawn?) && pc.kind.Saved?)
  }

  predicate Marked(c: Checker) {
    c.kind.Saved? && Holds(c) && !c.stage.ReleaseLock?
  }

  ghost predicate SomeHolds(cs: seq<Checker>) {
    exists i :: 0 <= i < |cs| && Holds(cs[i])
  }

  ghost predicate SomeMarked(cs: seq<Checker>) {
    exists i :: 0 <= i < |cs| && Marked(cs[i])
  }

  ghost predicate OneHolds(cs: seq<Checker>) {
    forall i, j :: 0 <= i < j < |cs| ==> !(Holds(cs[i]) && Holds(cs[j]))
  }

  /** A checker has, or will read, the id of the attempt that started it. */
  ghost predicate OwnIds(cs: seq<Checker>, connectingId: int) {
    forall i :: 0 <= i < |cs| ==> (if cs[i].stage.ReadId? then connectingId else cs[i].id) == cs[i].attempt
  }

  /** A failed attempt on a saved network disables it, and any other removes its network; each its own. */
  ghost predicate LogIsRight(log: seq<Command>) {
    forall e :: e in log ==> e.network == e.attempt && (e.removes <==> e.kind.Fresh?)
  }

  /** A network that was saved goes only by a command after a failed connection by name and key. */
  ghost predicate Forgotten(log: seq<Command>, n: int) {
    exists e :: e in log && e.removes && e.kind.Fresh? && e.network == n
  }

  ghost predicate OnlyForgotten(saved: set<int>, networks: set<int>, log: seq<Command>) {
    forall n :: n in saved && n !in networks ==> Forgotten(log, n)
  }

  ghost predicate Inv(s: State) {
    && OneHolds(s.checkers) && !(ApiHolds(s.api) && SomeHolds(s.checkers))
    && (s.lock <==> ApiHolds(s.api) || SomeHolds(s.checkers))
    && (s.isExist <==> ApiMarked(s.api) || SomeMarked(s.checkers))
    && OwnIds(s.checkers, s.connectingId)
    && (s.api.Configure? || s.api.Spawn? ==> s.connectingId == s.api.id)
    && LogIsRight(s.log) && (s.api.Take? ==> !s.lock)
  }

  lemma MarkedHolds(cs: seq<Checker>)
    ensures SomeMarked(cs) ==> SomeHolds(cs)
  {
    if SomeMarked(cs) {
      var i :| 0 <= i < |cs| && Marked(cs[i]);
      assert Holds(cs[i]);
    }
  }

  lemma ApiInv(s: State, ok: bool, id: int)
    requires Inv(s) && !s.api.Spawn?
    ensures Inv(ApiStep(s, ok, id))
  {
    if s.api.Aim? {
      AimInv(s, ok, id);
    } else if s.api.Take? || s.api.Unlock? || s.api.Mark? || s.api.Unmark? {
      FlagInv(s, ok, id);
    } else {
      PlaceInv(s, ok, id);
    }
  }

  /** Setting the id that the checker will read. */
  lemma AimInv(s: State, ok: bool, id: int)
    requires Inv(s) && s.api.Aim?
    ensures Inv(ApiStep(s, ok, id))
  {
    assert forall i :: 0 <= i < |s.checkers| && s.checkers[i].stage.ReadId? ==> Holds(s.checkers[i]);
  }

  /** Setting the lock or the mark. */
  lemma FlagInv(s: State, ok: bool, id: int)
    requires Inv(s) && (s.api.Take? || s.api.Unlock? || s.api.Mark? || s.api.Unmark?)
    ensures Inv(ApiStep(s, ok, id))
  {
    MarkedHolds(s.checkers);
  }

  /** Only going on to another place, or changing what the invariant does not speak of. */
  lemma PlaceInv(s: State, ok: bool, id: int)
    requires Inv(s) && !s.api.Aim? && !s.api.Spawn?
    requires !s.api.Take? && !s.api.Unlock? && !s.api.Mark? && !s.api.Unmark?
    ensures Inv(ApiStep(s, ok, id))
  {
    MarkedHolds(s.checkers);
  }

  lemma SpawnInv(s: State)
    requires Inv(s) && s.api.Spawn?
    ensures Inv(ApiStep(s, true, 0))
  {
    MarkedHolds(s.checkers);
    var s' := ApiStep(s, true, 0);
    var n := |s.checkers|;
    var c := s'.checkers[n];
    assert Holds(c) && (Marked(c) <==> ApiMarked(s.api));
    assert forall i :: 0 <= i < n ==> s'.checkers[i] == s.checkers[i];
  }

  /** The holder moves on. */
  lemma HolderMoves(cs: seq<Checker>, i: nat, c: Checker)
    requires OneHolds(cs) && i < |cs| && Holds(cs[i])
    ensures var cs' := cs[i := c];
            OneHolds(cs') && (SomeHolds(cs') <==> Holds(c)) && (SomeMarked(cs') <==> Marked(c)) && (SomeMarked(cs) <==> Marked(cs[i]))
  {
    forall j | 0 <= j < |cs| && j != i ensures !Holds(cs[j]) && !Marked(cs[j]) {
      assert i < j || j < i;
    }
    assert cs[i := c][i] == c;
  }

  lemma OthersMove(cs: seq<Checker>, i: nat, c: Checker)
    requires OneHolds(cs) && i < |cs| && !Holds(cs[i]) && !Holds(c)
    ensures var cs' := cs[i := c];
            OneHolds(cs') && (SomeHolds(cs') <==> SomeHolds(cs)) && (SomeMarked(cs') <==> SomeMarked(cs))
  {
    var cs' := cs[i := c];
    assert forall j :: 0 <= j < |cs| && j != i ==> cs'[j] == cs[j];
  }

  lemma CheckInv(s: State, i: nat, ok: bool)
    requires Inv(s) && i < |s.checkers|
    ensures Inv(CheckStep(s, i, ok))
  {
    if Holds(s.checkers[i]) { HolderInv(s, i, ok, CheckStep(s, i, ok)); } else { LeaverInv(s, i, ok, CheckStep(s, i, ok)); }
  }

  lemma HolderInv(s: State, i: nat, ok: bool, s': State)
    requires Inv(s) && i < |s.checkers| && Holds(s.checkers[i]) && s' == CheckStep(s, i, ok)
    ensures Inv(s')
  {
    assert SomeHolds(s.checkers);
    HolderMoves(s.checkers, i, s'.checkers[i]);
  }

  lemma LeaverInv(s: State, i: nat, ok: bool, s': State)
    requires Inv(s) && i < |s.checkers| && !Holds(s.checkers[i]) && s' == CheckStep(s, i, ok)
    ensures Inv(s')
  {
    OthersMove(s.checkers, i, s'.checkers[i]);
    assert s'.checkers == s.checkers[i := s'.checkers[i]];
  }

  lemma NextInv(s: State, step: Step)
    requires Inv(s)
    ensures Inv(Next(s, step))
  {
    match step
    case Api(ok, id) => if s.api.Spawn? { SpawnInv(s); } else { ApiInv(s, ok, id); }
    case Check(i, ok) => if i < |s.checkers| { CheckInv(s, i, ok); }
    case Connect(_) =>
    case Cancel =>
    case WrongKey =>
  }

  /** In the step that gives a command the flag says which kind of attempt it was. */
  lemma FailForgets(s: State, i: nat, saved: set<int>)
    requires Inv(s) && i < |s.checkers| && s.checkers[i].stage.Fail? && OnlyForgotten(saved, s.networks, s.log)
    ensures var s' := CheckStep(s, i, true);
            OnlyForgotten(saved, s'.networks, s'.log) && (s.checkers[i].kind.Saved? ==> s'.networks == s.networks)
  {
    var c := s.checkers[i];
    var s' := CheckStep(s, i, true);
    HolderMoves(s.checkers, i, c);
    assert s.checkers[i := c] == s.checkers;
    assert SomeHolds(s.checkers);
    var e := Command(i, c.kind, c.attempt, !s.isExist, c.id, c.stage.reports);
    assert e in s'.log;
    forall n | n in saved && n !in s'.networks ensures Forgotten(s'.log, n) {
      if n !in s.networks {
        assert Forgotten(s.log, n);
        var f :| f in s.log && f.removes && f.kind.Fresh? && f.network == n;
        assert f in s'.log;
      }
    }
  }

  lemma NextForgets(s: State, step: Step, saved: set<int>)
    requires Inv(s) && OnlyForgotten(saved, s.networks, s.log)
    ensures var s' := Next(s, step); OnlyForgotten(saved, s'.networks, s'.log)
  {
    if step.Check? && step.who < |s.checkers| && s.checkers[step.who].stage.Fail? { FailForgets(s, step.who, saved); }
  }

  lemma {:induction false} RunInv(saved: set<int>, steps: seq<Step>)
    ensures var s := Run(Start(saved), steps); Inv(s) && OnlyForgotten(saved, s.networks, s.log)
  {
    if steps != [] {
      RunInv(saved, steps[..|steps| - 1]);
      var s := Run(Start(saved), steps[..|steps| - 1]);
      NextInv(s, steps[|steps| - 1]);
      NextForgets(s, steps[|steps| - 1], saved);
    }
  }

  /** In every interleaving: the lock is set exactly while one attempt is under way, and never two; a checker past its
      first step has the id of its own attempt; a failed connection to a saved network gives the command to disable that
      network, and any other the command to remove its own; a network saved at the start goes only by such a command. */
  lemma AttemptSafety(saved: set<int>, steps: seq<Step>)
    ensures var s := Run(Start(saved), steps);
            && (s.lock <==> ApiHolds(s.api) || exists i :: 0 <= i < |s.checkers| && Holds(s.checkers[i]))
            && (forall i, j :: 0 <= i < j < |s.checkers| ==> !(Holds(s.checkers[i]) && Holds(s.checkers[j])))
            && (ApiHolds(s.api) ==> forall i :: 0 <= i < |s.checkers| ==> !Holds(s.checkers[i]))
            && (forall i :: 0 <= i < |s.checkers| && !s.checkers[i].stage.ReadId? ==> s.checkers[i].id == s.checkers[i].attempt)
            && (forall e :: e in s.log ==> e.network == e.attempt && (e.removes <==> e.kind.Fresh?))
            && (forall n :: n in saved && n !in s.networks ==> Forgotten(s.log, n))
  {
    RunInv(saved, steps);
  }

  /** A call that connects by name and key to a network it finds, up to the start of the checker. */
  function Connecting(n: int): seq<Step> {
    [Connect(Fresh), Api(true, 0), Api(true, 0), Api(true, 0)] + [Api(true, n), Api(true, 0), Api(true, 0), Api(true, 0)]
  }

  lemma ConnectingRun(s: State, n: int)
    requires s.api.Idle? && !s.lock && n in s.networks
    ensures Run(s, Connecting(n))
            == s.(lock := true, wrongKey := false, connectingId := n, checkers := s.checkers + [Checker(Fresh, n, ReadId, 0)])
  {
    var s4 := Next(Next(Next(Next(s, Connect(Fresh)), Api(true, 0)), Api(true, 0)), Api(true, 0));
    assert s4 == s.(lock := true, wrongKey := false, api := Search(Fresh));
    RunFour(s, Connect(Fresh), Api(true, 0), Api(true, 0), Api(true, 0));
    SearchRun(s4, n);
    RunConcat(s, [Connect(Fresh), Api(true, 0), Api(true, 0), Api(true, 0)],
              [Api(true, n), Api(true, 0), Api(true, 0), Api(true, 0)]);
  }

  lemma SearchRun(s: State, n: int)
    requires s.api == Search(Fresh) && n in s.networks
    ensures Run(s, [Api(true, n), Api(true, 0), Api(true, 0), Api(true, 0)])
            == s.(connectingId := n, checkers := s.checkers + [Checker(Fresh, n, ReadId, 0)], api := Idle)
  {
    var s2 := s.(connectingId := n, api := Configure(Fresh, n));
    FoundAndAimed(s, n, s2);
    ConfiguredAndSpawned(s2, n);
    RunFour(s, Api(true, n), Api(true, 0), Api(true, 0), Api(true, 0));
  }

  lemma FoundAndAimed(s: State, n: int, s2: State)
    requires s.api == Search(Fresh) && n in s.networks && s2 == s.(connectingId := n, api := Configure(Fresh, n))
    ensures Next(Next(s, Api(true, n)), Api(true, 0)) == s2
  {
    assert Next(s, Api(true, n)) == s.(api := Aim(Fresh, n));
  }

  lemma ConfiguredAndSpawned(s: State, n: int)
    requires s.api == Configure(Fresh, n)
    ensures Next(Next(s, Api(true, 0)), Api(true, 0)) == s.(checkers := s.checkers + [Checker(Fresh, n, ReadId, 0)], api := Idle)
  {
    assert Next(s, Api(true, 0)) == s.(api := Spawn(Fresh, n));
  }

  /** Connecting by name and key to a network that is saved, and failing, forgets it. */
  lemma FailureForgetsSaved(saved: set<int>, n: int)
    requires n in saved
    ensures n !in Run(Start(saved), Connecting(n) + [Check(0, true), Check(0, false), Check(0, true), Check(0, true)]).networks
  {
    var s := Start(saved);
    ConnectingRun(s, n);
    var s8 := Run(s, Connecting(n));
    assert s8.checkers == [Checker(Fresh, n, ReadId, 0)];
    RunFour(s8, Check(0, true), Check(0, false), Check(0, true), Check(0, true));
    RunConcat(s, Connecting(n), [Check(0, true), Check(0, false), Check(0, true), Check(0, true)]);
  }

  lemma {:induction false} RunConcat(s: State, a: seq<Step>, b: seq<Step>)
    ensures Run(s, a + b) == Run(Run(s, a), b)
  {
    if b == [] {
      assert a + b == a;
    } else {
      RunConcat(s, a, b[..|b| - 1]);
      assert (a + b)[..|a + b| - 1] == a + b[..|b| - 1];
    }
  }

  lemma RunTwo(s: State, a: Step, b: Step)
    ensures Run(s, [a, b]) == Next(Next(s, a), b)
  {
    var one, two := [a], [a, b];
    assert one[..|one| - 1] == [] && two[..|two| - 1] == one;
    assert Run(s, one) == Next(Run(s, []), a);
  }

  lemma RunThree(s: State, a: Step, b: Step, c: Step)
    ensures Run(s, [a, b, c]) == Next(Next(Next(s, a), b), c)
  {
    RunTwo(s, a, b);
    assert [a, b, c][..2] == [a, b];
  }

  lemma RunFour(s: State, a: Step, b: Step, c: Step, d: Step)
    ensures Run(s, [a, b, c, d]) == Next(Next(Next(Next(s, a), b), c), d)
  {
    RunThree(s, a, b, c);
    assert [a, b, c, d][..3] == [a, b, c];
  }
}
