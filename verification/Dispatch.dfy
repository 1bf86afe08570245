/** The dispatch loop takes the head of a list that callbacks change under it. It does what walking once through
    the list as it was at the start would do, and in every run a removed watch is never called again.
 */
module Dispatch {
  import opened Bus
  import opened Watches
  import opened WatchSafety
  import opened Delivery
  import opened Weave

  /** Walking through a fixed list: whoever is still there has its turn. */
  ghost function Walk(r: Registry, h: nat, todo: seq<Callback>, notice: Notice, react: Environment): Registry
    requires Locked(r, h)
    decreases |todo|
  {
    if todo == [] then r
    else if todo[0] in r.heap[h].callbacks then
      TurnShrinks(r, h, todo[0], notice, react);
      Walk(Turn(r, h, todo[0], notice, react), h, todo[1..], notice, react)
    else Walk(r, h, todo[1..], notice, react)
  }

  lemma KeepHead(cs: seq<Callback>, gone: set<nat>)
    requires cs != []
    ensures Keep(cs, gone) == (if cs[0].id in gone then [] else [cs[0]]) + Keep(cs[1..], gone)
  {
    assert cs == [cs[0]] + cs[1..];
    KeepConcat([cs[0]], cs[1..], gone);
    KeepOne(cs[0], gone);
  }

  /** The callbacks still to come, when the first of them has had its turn. */
  lemma KeepRest(cs: seq<Callback>, gone: set<nat>, more: set<nat>)
    requires cs != [] && Distinct(cs)
    ensures Keep(Keep(cs, gone), more + {cs[0].id}) == Keep(cs[1..], gone + more)
  {
    KeepTwice(cs, gone, more + {cs[0].id});
    KeepHead(cs, gone + (more + {cs[0].id}));
    assert forall c :: c in cs[1..] ==> c.id != cs[0].id;
    KeepSame(cs[1..], gone + (more + {cs[0].id}), gone + more);
  }

  /** The loop over the changing list is the walk through the list as it was. */
  lemma {:induction false} LoopIsWalk(r: Registry, h: nat, todo: seq<Callback>, gone: set<nat>, notice: Notice, react: Environment)
    requires Inv(r) && Locked(r, h) && Distinct(todo) && r.heap[h].callbacks == Keep(todo, gone)
    ensures Loop(r, h, notice, react) == Walk(r, h, todo, notice, react)
    decreases |todo|
  {
    if todo != [] {
      HeadIsNext(r.heap[h].callbacks, todo, gone);
      if todo[0].id in gone {
        LoopIsWalk(r, h, todo[1..], gone, notice, react);
      } else {
        var m, gone' := BothTurn(r, h, todo, gone, notice, react);
        LoopIsWalk(m, h, todo[1..], gone', notice, react);
      }
    }
  }

  lemma {:induction false} BothTurn(r: Registry, h: nat, todo: seq<Callback>, gone: set<nat>, notice: Notice, react: Environment)
    returns (m: Registry, gone': set<nat>)
    requires Inv(r) && Locked(r, h) && todo != [] && Distinct(todo) && r.heap[h].callbacks == Keep(todo, gone)
    requires r.heap[h].callbacks != [] && r.heap[h].callbacks[0] == todo[0]
    ensures Inv(m) && Locked(m, h) && Distinct(todo[1..]) && m.heap[h].callbacks == Keep(todo[1..], gone')
    ensures Loop(r, h, notice, react) == Loop(m, h, notice, react)
    ensures Walk(r, h, todo, notice, react) == Walk(m, h, todo[1..], notice, react)
  {
    m := Turn(r, h, todo[0], notice, react);
    gone' := TurnLeaves(r, h, todo, gone, notice, react);
    Unfolded(r, h, todo, notice, react, m);
  }

  lemma {:induction false} Unfolded(r: Registry, h: nat, todo: seq<Callback>, notice: Notice, react: Environment, m: Registry)
    requires Locked(r, h) && todo != [] && r.heap[h].callbacks != [] && r.heap[h].callbacks[0] == todo[0]
    requires m == Turn(r, h, todo[0], notice, react)
    ensures Locked(m, h) && Loop(r, h, notice, react) == Loop(m, h, notice, react)
    ensures Walk(r, h, todo, notice, react) == Walk(m, h, todo[1..], notice, react)
  {
    TurnShrinks(r, h, todo[0], notice, react);
  }

  lemma HeadIsNext(cs: seq<Callback>, todo: seq<Callback>, gone: set<nat>)
    requires cs == Keep(todo, gone) && todo != []
    ensures todo[0] in cs <==> todo[0].id !in gone
    ensures if todo[0].id in gone then cs == Keep(todo[1..], gone) else cs != [] && cs[0] == todo[0]
  {
    KeepHead(todo, gone);
    KeepMembers(todo, gone);
  }

  lemma TurnLeaves(r: Registry, h: nat, todo: seq<Callback>, gone: set<nat>, notice: Notice, react: Environment)
    returns (gone': set<nat>)
    requires Inv(r) && Locked(r, h) && todo != [] && Distinct(todo) && r.heap[h].callbacks == Keep(todo, gone)
    requires todo[0] in r.heap[h].callbacks
    ensures var r' := Turn(r, h, todo[0], notice, react);
            Inv(r') && Locked(r', h) && r'.heap[h].callbacks == Keep(todo[1..], gone')
  {
    var t := TurnSafe(r, h, todo[0], notice, react);
    KeepRest(todo, gone, Gone(t));
    gone' := gone + Gone(t);
  }

  // ---- half way through ----

  /** The state of the listener after some turns of the callbacks in the list s. */
  ghost predicate Mid(s: seq<Callback>, first: nat, r: Registry, h: nat, turns: seq<seq<Event>>) {
    && |turns| <= |s| && Locked(r, h) && Dated(Flat(turns), first, r.lastId)
    && r.heap[h].callbacks == Keep(s[|turns|..], Gone(Flat(turns)))
    && r.heap[h].processed == Keep(Woven(s, turns, h), Gone(Flat(turns)))
  }

  /** The callback s[k] was removed before its turn: when only callbacks in front of it had been called. */
  ghost predicate RemovedBeforeTurn(s: seq<Callback>, k: nat, u: seq<Event>)
    requires k < |s|
  {
    exists j :: 0 <= j < |u| && u[j] == Destroyed(s[k].id) && forall id :: id in Calls(u[..j]) ==> id in Ids(s[..k])
  }

  ghost predicate MissedRightly(l: Listener, s: seq<Callback>, notice: Notice, i: nat, u: seq<Event>, missed: set<nat>)
    requires i <= |s|
  {
    forall k :: 0 <= k < i && s[k].id in missed ==> RemovedBeforeTurn(s, k, u) || !Hears(l, s[k], notice)
  }

  /** The callbacks that were called are those of s without the missed ones; a missed one was removed before its turn or
      had nothing to hear. */
  ghost predicate CalledSoFar(l: Listener, s: seq<Callback>, notice: Notice, i: nat, u: seq<Event>, missed: set<nat>) {
    && i <= |s| && missed <= Ids(s[..i]) && Calls(u) == IdList(Keep(s[..i], missed))
    && MissedRightly(l, s, notice, i, u, missed)
    && (forall c :: c in s[..i] && !Hears(l, c, notice) ==> c.id in missed)
  }

  lemma {:induction false} DatedAdditions(u: seq<Event>, h: nat, from: nat, to: nat)
    requires Dated(u, from, to)
    ensures forall c :: c in Additions(u, h) ==> from < c.id <= to && c.id in AddedIds(u)
  {
    AdditionsAreAdded(u, h);
  }

  /** What a turn added is new, and its callback was still there: neither had been removed before. */
  lemma WovenTurn(w: seq<Callback>, c: Callback, p: seq<Callback>, p': seq<Callback>, g: set<nat>, h: nat, t: seq<Event>, last: nat, to: nat)
    requires p == Keep(w, g) && p' == Keep(p + Additions(t, h) + [c], Gone(t))
    requires Dated(t, last, to) && (forall d :: d in g ==> d <= last) && c.id !in g
    ensures p' == Keep(w + (Additions(t, h) + [c]), g + Gone(t))
  {
    DatedAdditions(t, h, last, to);
    CallbacksTwice(p, Additions(t, h), [c]);
    KeepMore(w, Additions(t, h) + [c], g, Gone(t));
  }

  lemma RestAfter(s: seq<Callback>, i: nat, g: set<nat>, more: set<nat>)
    requires i < |s| && Distinct(s)
    ensures Keep(Keep(s[i..], g), more + {s[i].id}) == Keep(s[i + 1..], g + more)
  {
    assert s[i..][0] == s[i] && s[i..][1..] == s[i + 1..];
    assert Distinct(s[i..]) by { assert forall k :: 0 <= k < |s[i..]| ==> s[i..][k] == s[i + k]; }
    KeepRest(s[i..], g, more);
  }

  lemma MidTurn(s: seq<Callback>, first: nat, r: Registry, r': Registry, h: nat, turns: seq<seq<Event>>, heard: bool, t: seq<Event>)
    requires |turns| < |s| && Distinct(s) && Mid(s, first, r, h, turns) && s[|turns|].id !in Gone(Flat(turns))
    requires TurnEffect(r, r', h, s[|turns|], heard, t)
    ensures Mid(s, first, r', h, turns + [t])
  {
    DatedTwice(Flat(turns), t, first, r.lastId, r'.lastId);
    FlatMore(turns, t);
    TurnLists(s, turns, t, h, r.heap[h], r'.heap[h], Gone(Flat(turns)), r.lastId, r'.lastId);
  }

  lemma TurnLists(s: seq<Callback>, turns: seq<seq<Event>>, t: seq<Event>, h: nat, l: Listener, l': Listener, g: set<nat>,
                  last: nat, to: nat)
    requires |turns| < |s| && Distinct(s) && l.callbacks == Keep(s[|turns|..], g) && l.processed == Keep(Woven(s, turns, h), g)
    requires l'.callbacks == Keep(l.callbacks, Gone(t) + {s[|turns|].id})
    requires l'.processed == Keep(l.processed + Additions(t, h) + [s[|turns|]], Gone(t))
    requires Dated(t, last, to) && (forall d :: d in g ==> d <= last) && s[|turns|].id !in g
    ensures l'.callbacks == Keep(s[|turns + [t]|..], g + Gone(t)) && l'.processed == Keep(Woven(s, turns + [t], h), g + Gone(t))
  {
    WovenMore(s, turns, t, h);
    RestAfter(s, |turns|, g, Gone(t));
    WovenTurn(Woven(s, turns, h), s[|turns|], l.processed, l'.processed, g, h, t, last, to);
  }

  lemma MidSkip(s: seq<Callback>, first: nat, r: Registry, h: nat, turns: seq<seq<Event>>)
    requires |turns| < |s| && Mid(s, first, r, h, turns) && s[|turns|].id in Gone(Flat(turns))
    ensures Mid(s, first, r, h, turns + [[]]) && Flat(turns + [[]]) == Flat(turns)
  {
    var i, g := |turns|, Gone(Flat(turns));
    FlatMore(turns, []);
    WovenMore(s, turns, [], h);
    KeepHead(s[i..], g);
    assert s[i..][0] == s[i] && s[i..][1..] == s[i + 1..];
    assert Flat(turns) + [] == Flat(turns);
    assert Additions([], h) + [s[i]] == [s[i]];
    LeavesBehind(Woven(s, turns, h), s[i], g);
  }

  lemma {:induction false} CallsOfPrefix(u: seq<Event>, j: nat)
    requires j <= |u|
    ensures forall id :: id in Calls(u[..j]) ==> id in Calls(u)
  {
    assert u == u[..j] + u[j..];
    CallsConcat(u[..j], u[j..]);
  }

  lemma SkippedBeforeTurn(s: seq<Callback>, k: nat, u: seq<Event>, missed: set<nat>)
    requires k < |s| && s[k].id in Gone(u) && Calls(u) == IdList(Keep(s[..k], missed))
    ensures RemovedBeforeTurn(s, k, u)
  {
    var j :| 0 <= j < |u| && u[j] == Destroyed(s[k].id);
    CallsOfPrefix(u, j);
    KeepMembers(s[..k], missed);
    forall id | id in Calls(u[..j]) ensures id in Ids(s[..k]) {
      var i :| 0 <= i < |IdList(Keep(s[..k], missed))| && IdList(Keep(s[..k], missed))[i] == id;
      assert Keep(s[..k], missed)[i] in s[..k];
    }
  }

  lemma StillBeforeTurn(s: seq<Callback>, k: nat, u: seq<Event>, t: seq<Event>)
    requires k < |s| && RemovedBeforeTurn(s, k, u)
    ensures RemovedBeforeTurn(s, k, u + t)
  {
    var j :| 0 <= j < |u| && u[j] == Destroyed(s[k].id) && forall id :: id in Calls(u[..j]) ==> id in Ids(s[..k]);
    assert (u + t)[..j] == u[..j] && (u + t)[j] == u[j];
  }

  lemma CalledSkip(l: Listener, s: seq<Callback>, notice: Notice, i: nat, u: seq<Event>, missed: set<nat>)
    requires i < |s| && CalledSoFar(l, s, notice, i, u, missed) && s[i].id in Gone(u) && Distinct(s)
    ensures CalledSoFar(l, s, notice, i + 1, u, missed + {s[i].id})
  {
    CallsSkip(s, i, u, missed);
    SkippedBeforeTurn(s, i, u, missed);
    MoreMissed(l, s, notice, i, u, missed);
    OneFurther(s, i);
  }

  lemma CalledTurn(l: Listener, s: seq<Callback>, notice: Notice, i: nat, u: seq<Event>, missed: set<nat>, t: seq<Event>, missed': set<nat>)
    requires i < |s| && CalledSoFar(l, s, notice, i, u, missed) && Distinct(s)
    requires Calls(t) == if Hears(l, s[i], notice) then [s[i].id] else []
    requires missed' == if Hears(l, s[i], notice) then missed else missed + {s[i].id}
    ensures CalledSoFar(l, s, notice, i + 1, u + t, missed')
  {
    CallsTurn(s, i, u, missed, t, Hears(l, s[i], notice));
    MissedTurn(l, s, notice, i, u, missed, t);
    OneFurther(s, i);
  }

  lemma CallsTurn(s: seq<Callback>, i: nat, u: seq<Event>, missed: set<nat>, t: seq<Event>, heard: bool)
    requires i < |s| && Distinct(s) && missed <= Ids(s[..i]) && Calls(u) == IdList(Keep(s[..i], missed))
    requires Calls(t) == if heard then [s[i].id] else []
    ensures Calls(u + t) == IdList(Keep(s[..i + 1], if heard then missed else missed + {s[i].id}))
  {
    CallsConcat(u, t);
    if heard {
      MoreDone(s, i, missed);
      assert IdList(Keep(s[..i], missed) + [s[i]]) == IdList(Keep(s[..i], missed)) + [s[i].id];
    } else {
      KeepSame(s[..i], missed, missed + {s[i].id});
      MoreDone(s, i, missed + {s[i].id});
      NothingMore(Keep(s[..i], missed));
    }
  }

  lemma OneFurther(s: seq<Callback>, i: nat)
    requires i < |s|
    ensures Ids(s[..i + 1]) == Ids(s[..i]) + {s[i].id} && forall c :: c in s[..i + 1] <==> c in s[..i] || c == s[i]
  {
    assert s[..i + 1] == s[..i] + [s[i]];
  }

  lemma MoreMissed(l: Listener, s: seq<Callback>, notice: Notice, i: nat, u: seq<Event>, missed: set<nat>)
    requires i < |s| && Distinct(s) && RemovedBeforeTurn(s, i, u)
    requires MissedRightly(l, s, notice, i, u, missed)
    ensures MissedRightly(l, s, notice, i + 1, u, missed + {s[i].id})
  {
  }

  lemma CallsSkip(s: seq<Callback>, i: nat, u: seq<Event>, missed: set<nat>)
    requires i < |s| && Distinct(s) && missed <= Ids(s[..i]) && Calls(u) == IdList(Keep(s[..i], missed))
    ensures Calls(u) == IdList(Keep(s[..i + 1], missed + {s[i].id}))
  {
    CallsTurn(s, i, u, missed, [], false);
    assert u + [] == u;
  }

  lemma MissedTurn(l: Listener, s: seq<Callback>, notice: Notice, i: nat, u: seq<Event>, missed: set<nat>, t: seq<Event>)
    requires i < |s| && CalledSoFar(l, s, notice, i, u, missed) && Distinct(s)
    ensures MissedRightly(l, s, notice, i + 1, u + t, if Hears(l, s[i], notice) then missed else missed + {s[i].id})
  {
    forall k | 0 <= k < i && s[k].id in missed ensures RemovedBeforeTurn(s, k, u + t) || !Hears(l, s[k], notice) {
      if RemovedBeforeTurn(s, k, u) { StillBeforeTurn(s, k, u, t); }
    }
  }

  /** The callback is to go after its turn: it asked for its own removal, or it said so on a signal, or it waits for one
      direction only of a unique bus name. */
  ghost predicate Dismissed(l: Listener, c: Callback, called: bool, reaction: Reaction) {
    || (called && Remove(c.id) in reaction.actions)
    || (if l.service then l.unique && !(c.conn && c.disc) else called && !reaction.keep)
  }

  /** The turn of a callback that is gone already is empty; in any other its callback goes exactly if it is to go. */
  ghost predicate LeftRightly(l: Listener, s: seq<Callback>, trace: seq<Event>, turns: seq<seq<Event>>, missed: set<nat>,
                              react: Environment) {
    && |turns| <= |s|
    && forall k :: 0 <= k < |turns| ==> OneLeft(l, s[k], trace + Flat(turns[..k]), Gone(Flat(turns[..k])), turns[k], missed, react)
  }

  ghost predicate OneLeft(l: Listener, c: Callback, trace: seq<Event>, gone: set<nat>, t: seq<Event>, missed: set<nat>,
                          react: Environment) {
    if c.id in gone then t == [] else c.id in Gone(t) <==> Dismissed(l, c, c.id !in missed, react(trace, c.id))
  }

  lemma LeftMore(l: Listener, s: seq<Callback>, trace: seq<Event>, turns: seq<seq<Event>>, missed: set<nat>, react: Environment,
                 t: seq<Event>, missed': set<nat>)
    requires LeftRightly(l, s, trace, turns, missed, react) && |turns| < |s| && Distinct(s)
    requires missed <= Ids(s[..|turns|]) && missed <= missed' <= missed + {s[|turns|].id}
    requires OneLeft(l, s[|turns|], trace + Flat(turns), Gone(Flat(turns)), t, missed', react)
    ensures LeftRightly(l, s, trace, turns + [t], missed', react)
  {
    var more := turns + [t];
    forall k | 0 <= k < |more| ensures OneLeft(l, s[k], trace + Flat(more[..k]), Gone(Flat(more[..k])), more[k], missed', react) {
      assert more[..k] == turns[..k];
      if k < |turns| {
        assert s[k].id in missed <==> s[k].id in missed';
      } else {
        assert turns[..k] == turns;
      }
    }
  }

  ghost predicate Halfway(r: Registry, l: Listener, s: seq<Callback>, first: nat, trace: seq<Event>, h: nat, notice: Notice,
                          turns: seq<seq<Event>>, missed: set<nat>, react: Environment) {
    && Inv(r) && Mid(s, first, r, h, turns) && LeftRightly(l, s, trace, turns, missed, react)
    && CalledSoFar(l, s, notice, |turns|, Flat(turns), missed) && TurnsOf(h, s, Asked(l, notice), missed, turns)
    && r.trace == trace + Flat(turns) && r.heap[h].service == l.service && r.heap[h].unique == l.unique
  }

  lemma HalfwayTurn(r: Registry, l: Listener, s: seq<Callback>, first: nat, trace: seq<Event>, h: nat, notice: Notice,
                    turns: seq<seq<Event>>, missed: set<nat>, react: Environment, m: Registry)
    returns (t: seq<Event>, missed': set<nat>)
    requires Halfway(r, l, s, first, trace, h, notice, turns, missed, react) && |turns| < |s| && s[|turns|] in r.heap[h].callbacks
    requires Distinct(s) && m == Turn(r, h, s[|turns|], notice, react)
    ensures Halfway(m, l, s, first, trace, h, notice, turns + [t], missed', react)
  {
    var c := s[|turns|];
    t := TurnSafe(r, h, c, notice, react);
    KeepMembers(s[|turns|..], Gone(Flat(turns)));
    missed' := if Hears(l, c, notice) then missed else missed + {c.id};
    HalfwayAfter(r, l, s, first, trace, h, notice, turns, missed, react, m, t, missed');
  }

  lemma HalfwayAfter(r: Registry, l: Listener, s: seq<Callback>, first: nat, trace: seq<Event>, h: nat, notice: Notice,
                     turns: seq<seq<Event>>, missed: set<nat>, react: Environment, m: Registry, t: seq<Event>, missed': set<nat>)
    requires Halfway(r, l, s, first, trace, h, notice, turns, missed, react) && |turns| < |s| && s[|turns|].id !in Gone(Flat(turns))
    requires Distinct(s) && Inv(m) && TurnEffect(r, m, h, s[|turns|], Hears(l, s[|turns|], notice), t)
    requires TurnOf(h, s[|turns|], Asked(l, notice), Hears(l, s[|turns|], notice), t)
    requires missed' == if Hears(l, s[|turns|], notice) then missed else missed + {s[|turns|].id}
    requires s[|turns|].id in Gone(t) <==> Dismissed(l, s[|turns|], Hears(l, s[|turns|], notice), react(r.trace, s[|turns|].id))
    ensures Halfway(m, l, s, first, trace, h, notice, turns + [t], missed', react)
  {
    MidTurn(s, first, r, m, h, turns, Hears(l, s[|turns|], notice), t);
    ToldAfter(l, s, trace, h, notice, turns, missed, react, t, missed');
    TraceTwice(trace, Flat(turns), t);
    FlatMore(turns, t);
  }

  lemma ToldAfter(l: Listener, s: seq<Callback>, trace: seq<Event>, h: nat, notice: Notice, turns: seq<seq<Event>>,
                  missed: set<nat>, react: Environment, t: seq<Event>, missed': set<nat>)
    requires |turns| < |s| && Distinct(s) && s[|turns|].id !in Gone(Flat(turns))
    requires CalledSoFar(l, s, notice, |turns|, Flat(turns), missed) && TurnsOf(h, s, Asked(l, notice), missed, turns)
    requires LeftRightly(l, s, trace, turns, missed, react)
    requires Calls(t) == if Hears(l, s[|turns|], notice) then [s[|turns|].id] else []
    requires TurnOf(h, s[|turns|], Asked(l, notice), Hears(l, s[|turns|], notice), t)
    requires missed' == if Hears(l, s[|turns|], notice) then missed else missed + {s[|turns|].id}
    requires s[|turns|].id in Gone(t)
             <==> Dismissed(l, s[|turns|], Hears(l, s[|turns|], notice), react(trace + Flat(turns), s[|turns|].id))
    ensures CalledSoFar(l, s, notice, |turns + [t]|, Flat(turns + [t]), missed')
    ensures TurnsOf(h, s, Asked(l, notice), missed', turns + [t]) && LeftRightly(l, s, trace, turns + [t], missed', react)
  {
    CalledTurn(l, s, notice, |turns|, Flat(turns), missed, t, missed');
    FlatMore(turns, t);
    NotMissedYet(s, |turns|, missed);
    TurnsMore(h, s, Asked(l, notice), missed, missed', turns, t);
    LeftMore(l, s, trace, turns, missed, react, t, missed');
  }

  lemma NotMissedYet(s: seq<Callback>, i: nat, missed: set<nat>)
    requires i < |s| && Distinct(s) && missed <= Ids(s[..i])
    ensures s[i].id !in missed
  {
  }

  lemma HalfwaySkip(r: Registry, l: Listener, s: seq<Callback>, first: nat, trace: seq<Event>, h: nat, notice: Notice,
                    turns: seq<seq<Event>>, missed: set<nat>, react: Environment)
    requires Halfway(r, l, s, first, trace, h, notice, turns, missed, react) && |turns| < |s| && s[|turns|].id in Gone(Flat(turns))
    requires Distinct(s)
    ensures Halfway(r, l, s, first, trace, h, notice, turns + [[]], missed + {s[|turns|].id}, react)
  {
    MidSkip(s, first, r, h, turns);
    CalledSkip(l, s, notice, |turns|, Flat(turns), missed);
    TurnsMore(h, s, Asked(l, notice), missed, missed + {s[|turns|].id}, turns, []);
    LeftMore(l, s, trace, turns, missed, react, [], missed + {s[|turns|].id});
  }

  lemma {:induction false} WalkExact(r: Registry, l: Listener, s: seq<Callback>, first: nat, trace: seq<Event>, h: nat,
                                     notice: Notice, turns: seq<seq<Event>>, missed: set<nat>, react: Environment)
    returns (w: Registry, turns': seq<seq<Event>>, missed': set<nat>)
    requires Halfway(r, l, s, first, trace, h, notice, turns, missed, react) && Distinct(s)
    ensures |turns'| == |s| && w == Walk(r, h, s[|turns|..], notice, react)
    ensures Halfway(w, l, s, first, trace, h, notice, turns', missed', react)
    decreases |s| - |turns|
  {
    if |turns| == |s| {
      w, turns', missed' := r, turns, missed;
    } else {
      var m, t, missed1 := WalkOne(r, l, s, first, trace, h, notice, turns, missed, react);
      assert |turns + [t]| == |turns| + 1;
      w, turns', missed' := WalkExact(m, l, s, first, trace, h, notice, turns + [t], missed1, react);
    }
  }

  lemma WalkOne(r: Registry, l: Listener, s: seq<Callback>, first: nat, trace: seq<Event>, h: nat, notice: Notice,
                turns: seq<seq<Event>>, missed: set<nat>, react: Environment)
    returns (m: Registry, t: seq<Event>, missed': set<nat>)
    requires Halfway(r, l, s, first, trace, h, notice, turns, missed, react) && |turns| < |s| && Distinct(s)
    ensures Halfway(m, l, s, first, trace, h, notice, turns + [t], missed', react)
    ensures Walk(r, h, s[|turns|..], notice, react) == Walk(m, h, s[|turns| + 1..], notice, react)
  {
    var c := s[|turns|];
    WalkNext(r, h, s, |turns|, notice, react);
    HeadIsNext(r.heap[h].callbacks, s[|turns|..], Gone(Flat(turns)));
    if c in r.heap[h].callbacks {
      m := Turn(r, h, c, notice, react);
      t, missed' := HalfwayTurn(r, l, s, first, trace, h, notice, turns, missed, react, m);
    } else {
      HalfwaySkip(r, l, s, first, trace, h, notice, turns, missed, react);
      m, t, missed' := r, [], missed + {c.id};
    }
  }

  lemma {:induction false} WalkNext(r: Registry, h: nat, s: seq<Callback>, i: nat, notice: Notice, react: Environment)
    requires Locked(r, h) && i < |s|
    ensures s[i..][0] == s[i]
    ensures var m := if s[i] in r.heap[h].callbacks then Turn(r, h, s[i], notice, react) else r;
            Locked(m, h) && Walk(r, h, s[i..], notice, react) == Walk(m, h, s[i + 1..], notice, react)
  {
    assert s[i..][0] == s[i] && s[i..][1..] == s[i + 1..];
    if s[i] in r.heap[h].callbacks { TurnShrinks(r, h, s[i], notice, react); }
  }

  lemma LockInv(r: Registry, h: nat)
    requires Inv(r) && h in r.heap
    ensures Inv(WithLock(r, h)) && Locked(WithLock(r, h), h)
  {
    assert Neat(r.heap[h], r.lastId);
    assert All(WithLock(r, h).heap[h]) == All(r.heap[h]);
    SameMembers(r, WithLock(r, h), h);
  }

  lemma UnlockInv(r: Registry, h: nat)
    requires Inv(r) && h in r.heap
    ensures Inv(Unlocked(r, h))
  {
    assert Neat(r.heap[h], r.lastId);
    var l := Unlocked(r, h).heap[h];
    assert Distinct(l.callbacks) by {
      assert forall i :: 0 <= i < |l.callbacks| ==> l.callbacks[i] == All(r.heap[h])[|r.heap[h].callbacks| + i];
    }
    assert All(l) == l.callbacks;
    SameMembers(r, Unlocked(r, h), h);
  }

  lemma StartsHalfway(r: Registry, h: nat, notice: Notice, react: Environment)
    requires Inv(r) && Locked(r, h) && r.heap[h].processed == []
    ensures Halfway(r, r.heap[h], r.heap[h].callbacks, r.lastId, r.trace, h, notice, [], {}, react)
    ensures Distinct(r.heap[h].callbacks) && forall c :: c in r.heap[h].callbacks ==> c.id <= r.lastId
    ensures Keep(r.heap[h].callbacks, {}) == r.heap[h].callbacks
  {
    var s := r.heap[h].callbacks;
    assert Neat(r.heap[h], r.lastId) && All(r.heap[h]) == s;
    KeepAll(s, {});
    assert s[0..] == s && s[..0] == [] && r.trace + [] == r.trace;
    assert Keep([], {}) == [] && IdList([]) == [];
  }

  ghost predicate Has(c: Callback, f: Function) {
    match f
    case Connect => c.conn
    case Disconnect => c.disc
    case Signal => c.signal
  }

  /** The watches called are those of the list s, in order and each once, without the missed ones, and it is their function
      f that is called; a watch is missed exactly if it has no such function or was removed before its turn. */
  ghost predicate CalledOnce(s: seq<Callback>, h: nat, f: Function, turns: seq<seq<Event>>, missed: set<nat>) {
    && |turns| == |s| && TurnsOf(h, s, f, missed, turns)
    && Calls(Flat(turns)) == IdList(Keep(s, missed)) && missed <= Ids(s)
    && (forall k :: 0 <= k < |s| ==> (s[k].id in missed <==> !Has(s[k], f) || RemovedBeforeTurn(s, k, Flat(turns))))
  }

  /** Afterwards the list holds, for each turn, what was added in it and then its callback, without what was removed; so the
      survivors are in their old order, and what was added is in the order of addition. */
  ghost predicate ListedAfter(s: seq<Callback>, l': Listener, h: nat, turns: seq<seq<Event>>) {
    var u := Flat(turns);
    && |turns| == |s| && !l'.lock && l'.processed == []
    && l'.callbacks == Keep(Woven(s, turns, h), Gone(u))
    && Keep(l'.callbacks, AddedIds(u)) == Keep(s, Gone(u))
    && Keep(l'.callbacks, Ids(s)) == Keep(Additions(u, h), Gone(u))
  }

  /** What one delivery did to the listener l, which is l' afterwards, turn by turn: each watch with the function f was
      called once unless it was removed before, a watch went in its own turn exactly if it was to go, and those added
      meanwhile were not called. */
  ghost predicate Delivered(l: Listener, l': Listener, h: nat, f: Function, trace: seq<Event>, react: Environment,
                            turns: seq<seq<Event>>, missed: set<nat>) {
    && CalledOnce(l.callbacks, h, f, turns, missed) && ListedAfter(l.callbacks, l', h, turns)
    && LeftRightly(l, l.callbacks, trace, turns, missed, react)
  }

  /** The function is the one for signals, or for a name that appeared, or for one that vanished. */
  ghost predicate DeliveredOnce(l: Listener, l': Listener, h: nat, notice: Notice, trace: seq<Event>, react: Environment,
                                turns: seq<seq<Event>>, missed: set<nat>) {
    && (!l.service ==> Delivered(l, l', h, Signal, trace, react, turns, missed))
    && (l.service && notice.Appeared? ==> Delivered(l, l', h, Connect, trace, react, turns, missed))
    && (l.service && notice.Vanished? ==> Delivered(l, l', h, Disconnect, trace, react, turns, missed))
  }

  lemma {:induction false} CallsMember(u: seq<Event>, id: nat)
    requires id in Calls(u)
    ensures exists j :: 0 <= j < |u| && u[j].Called? && u[j].id == id
  {
    var n := |u| - 1;
    if u[n].Called? && u[n].id == id {
    } else {
      CallsMember(u[..n], id);
      var j :| 0 <= j < n && u[..n][j].Called? && u[..n][j].id == id;
      assert u[j] == u[..n][j];
    }
  }

  lemma {:induction false} CallsHas(u: seq<Event>, j: nat)
    requires j < |u| && u[j].Called?
    ensures u[j].id in Calls(u)
  {
    if j < |u| - 1 {
      assert u[..|u| - 1][j] == u[j];
      CallsHas(u[..|u| - 1], j);
    }
  }

  /** Whoever was removed before its turn is not called. */
  lemma {:induction false} RemovedIsMissed(s: seq<Callback>, k: nat, trace: seq<Event>, u: seq<Event>, missed: set<nat>)
    requires k < |s| && Distinct(s) && Final(trace + u) && Calls(u) == IdList(Keep(s, missed)) && RemovedBeforeTurn(s, k, u)
    ensures s[k].id in missed
  {
    if s[k].id !in missed {
      var j :| 0 <= j < |u| && u[j] == Destroyed(s[k].id) && forall id :: id in Calls(u[..j]) ==> id in Ids(s[..k]);
      KeepMembers(s, missed);
      var n :| 0 <= n < |Keep(s, missed)| && Keep(s, missed)[n] == s[k];
      assert Calls(u)[n] == s[k].id;
      CallsMember(u, s[k].id);
      var i :| 0 <= i < |u| && u[i].Called? && u[i].id == s[k].id;
      if i < j {
        assert u[..j][i] == u[i];
        CallsHas(u[..j], i);
        assert false;
      } else {
        assert (trace + u)[|trace| + i] == u[i] && (trace + u)[|trace| + j] == u[j];
        assert Concerns(u[i], s[k].id);
        assert false;
      }
    }
  }

  lemma CallsAtEnd(l: Listener, s: seq<Callback>, notice: Notice, h: nat, f: Function, trace: seq<Event>,
                   turns: seq<seq<Event>>, missed: set<nat>)
    requires CalledSoFar(l, s, notice, |s|, Flat(turns), missed) && Distinct(s) && Final(trace + Flat(turns))
    requires |turns| == |s| && TurnsOf(h, s, f, missed, turns) && forall c :: c in s ==> (Hears(l, c, notice) <==> Has(c, f))
    ensures CalledOnce(s, h, f, turns, missed)
  {
    var u := Flat(turns);
    assert s[..|s|] == s;
    forall k | 0 <= k < |s| ensures s[k].id in missed <==> !Has(s[k], f) || RemovedBeforeTurn(s, k, u) {
      if RemovedBeforeTurn(s, k, u) { RemovedIsMissed(s, k, trace, u, missed); }
    }
  }

  /** Both parts of the list are in order. */
  lemma InOrder(s: seq<Callback>, turns: seq<seq<Event>>, h: nat, first: nat, to: nat)
    requires |turns| == |s| && Dated(Flat(turns), first, to) && forall c :: c in s ==> c.id <= first
    ensures var u := Flat(turns); var w := Keep(Woven(s, turns, h), Gone(u));
            Keep(w, AddedIds(u)) == Keep(s, Gone(u)) && Keep(w, Ids(s)) == Keep(Additions(u, h), Gone(u))
  {
    var u := Flat(turns);
    DatedAdditions(u, h, first, to);
    WovenOld(s, turns, h, Gone(u), AddedIds(u));
    WovenNew(s, turns, h, Gone(u), Ids(s));
    KeepTwice(Woven(s, turns, h), Gone(u), AddedIds(u));
    KeepTwice(Woven(s, turns, h), Gone(u), Ids(s));
    assert s[..|s|] == s;
  }

  lemma AllTheWay(r: Registry, w: Registry, h: nat, notice: Notice, f: Function, react: Environment, turns: seq<seq<Event>>,
                  missed: set<nat>)
    requires h in r.heap && |turns| == |r.heap[h].callbacks| && f == Asked(r.heap[h], notice)
    requires !(r.heap[h].service && notice.Malformed?)
    requires Distinct(r.heap[h].callbacks) && forall c :: c in r.heap[h].callbacks ==> c.id <= r.lastId
    requires Halfway(w, WithLock(r, h).heap[h], r.heap[h].callbacks, r.lastId, r.trace, h, notice, turns, missed, react)
    ensures Inv(Unlocked(w, h)) && Delivered(r.heap[h], Unlocked(w, h).heap[h], h, f, r.trace, react, turns, missed)
  {
    var l := r.heap[h];
    UnlockInv(w, h);
    ListsAtEnd(l.callbacks, r.lastId, w, h, turns, Unlocked(w, h).heap[h]);
    CallsAtEnd(l.(lock := true), l.callbacks, notice, h, f, r.trace, turns, missed);
    LockedLeft(l, l.(lock := true), l.callbacks, r.trace, turns, missed, react);
  }

  lemma ListsAtEnd(s: seq<Callback>, first: nat, w: Registry, h: nat, turns: seq<seq<Event>>, l': Listener)
    requires |turns| == |s| && Mid(s, first, w, h, turns) && (forall c :: c in s ==> c.id <= first) && l' == Unlocked(w, h).heap[h]
    ensures ListedAfter(s, l', h, turns)
  {
    InOrder(s, turns, h, first, w.lastId);
  }

  lemma LockedLeft(l: Listener, m: Listener, s: seq<Callback>, trace: seq<Event>, turns: seq<seq<Event>>, missed: set<nat>,
                   react: Environment)
    requires m == l.(lock := true) && LeftRightly(m, s, trace, turns, missed, react)
    ensures LeftRightly(l, s, trace, turns, missed, react)
  {
  }

  /** Exactly-once delivery: the loop has the effect of one walk through the list as it was at the start, where whoever
      is still there has its turn. */
  lemma ExactlyOnce(r: Registry, h: nat, notice: Notice, react: Environment) returns (turns: seq<seq<Event>>, missed: set<nat>)
    requires Inv(r) && h in r.heap && h in r.order && !r.heap[h].lock && !(r.heap[h].service && notice.Malformed?)
    ensures Locked(WithLock(r, h), h)
    ensures var w := Walk(WithLock(r, h), h, r.heap[h].callbacks, notice, react); var r' := Deliver(r, h, notice, react);
            && h in w.heap && r' == Unlocked(w, h)
            && Inv(r') && r'.trace == r.trace + Flat(turns) && Dated(Flat(turns), r.lastId, r'.lastId)
            && DeliveredOnce(r.heap[h], r'.heap[h], h, notice, r.trace, react, turns, missed)
  {
    turns, missed := LoopExact(r, WithLock(r, h), h, notice, react);
    assert Neat(r.heap[h], r.lastId);
    assert All(r.heap[h]) == r.heap[h].callbacks;
    AllTheWay(r, Walk(WithLock(r, h), h, r.heap[h].callbacks, notice, react), h, notice, Asked(r.heap[h], notice), react, turns, missed);
  }

  /** After a delivery the added watches stand behind all survivors exactly when none of them has a survivor of the turn
      that added it, or of a later one, behind it. */
  lemma AddedAtEndIff(r: Registry, h: nat, notice: Notice, react: Environment) returns (turns: seq<seq<Event>>, missed: set<nat>)
    requires Inv(r) && h in r.heap && h in r.order && !r.heap[h].lock && !(r.heap[h].service && notice.Malformed?)
    ensures var s := r.heap[h].callbacks; var r' := Deliver(r, h, notice, react); var u := Flat(turns);
            && h in r'.heap && r'.trace == r.trace + u && DeliveredOnce(r.heap[h], r'.heap[h], h, notice, r.trace, react, turns, missed)
            && (r'.heap[h].callbacks == Keep(s, Gone(u)) + Keep(Additions(u, h), Gone(u)) <==> AddedLast(s, turns, h, Gone(u)))
  {
    turns, missed := ExactlyOnce(r, h, notice, react);
    assert Neat(r.heap[h], r.lastId);
    AtEndIff(r.heap[h].callbacks, turns, h, r.lastId, Deliver(r, h, notice, react).lastId);
  }

  lemma AtEndIff(s: seq<Callback>, turns: seq<seq<Event>>, h: nat, first: nat, to: nat)
    requires |turns| == |s| && Dated(Flat(turns), first, to) && forall c :: c in s ==> c.id <= first
    ensures var u := Flat(turns);
            Keep(Woven(s, turns, h), Gone(u)) == Keep(s, Gone(u)) + Keep(Additions(u, h), Gone(u)) <==> AddedLast(s, turns, h, Gone(u))
  {
    DatedAdditions(Flat(turns), h, first, to);
    AddedLastIff(s, turns, h, Gone(Flat(turns)), first);
    assert s[..|s|] == s;
  }

  lemma LoopExact(r: Registry, r1: Registry, h: nat, notice: Notice, react: Environment)
    returns (turns: seq<seq<Event>>, missed: set<nat>)
    requires Inv(r) && h in r.heap && h in r.order && !r.heap[h].lock && r1 == WithLock(r, h)
    ensures Locked(r1, h) && Loop(r1, h, notice, react) == Walk(r1, h, r.heap[h].callbacks, notice, react)
    ensures |turns| == |r.heap[h].callbacks|
    ensures Halfway(Walk(r1, h, r.heap[h].callbacks, notice, react), r1.heap[h], r.heap[h].callbacks, r.lastId, r.trace, h, notice,
                    turns, missed, react)
  {
    var s := r.heap[h].callbacks;
    LockInv(r, h);
    assert Neat(r.heap[h], r.lastId);
    StartsHalfway(r1, h, notice, react);
    LoopIsWalk(r1, h, s, {}, notice, react);
    assert s[0..] == s;
    var w;
    w, turns, missed := WalkExact(r1, r1.heap[h], s, r.lastId, r.trace, h, notice, [], {}, react);
  }

  /** A message the NameOwnerChanged handler cannot read empties the listener: the callbacks are not called, not
      moved to the second list, and then dropped with the first. */
  lemma MalformedForgets(r: Registry, h: nat, react: Environment)
    requires Inv(r) && h in r.heap && h in r.order && !r.heap[h].lock && r.heap[h].service
    ensures var r' := Deliver(r, h, Malformed, react);
            Inv(r') && h in r'.heap && r'.heap[h].callbacks == [] && r'.trace == r.trace
  {
    assert r.heap[h].processed == [] by { assert Neat(r.heap[h], r.lastId); }
    LockInv(r, h);
    UnlockInv(WithLock(r, h), h);
  }

  lemma MalformedLoses(s: seq<Callback>, cs: seq<Callback>, trace: seq<Event>)
    requires cs == []
    ensures trace + [] == trace && (Keep(cs, AddedIds([])) == Keep(s, Gone([])) <==> s == [])
  {
    KeepAll(s, Gone([]));
  }

  /** The survivors of a delivery stay in the list exactly when it was not such a message to a listener with
      callbacks. */
  lemma SurvivorsStayIff(r: Registry, h: nat, notice: Notice, react: Environment) returns (u: seq<Event>)
    requires Inv(r) && h in r.heap && h in r.order && !r.heap[h].lock
    ensures var s := r.heap[h].callbacks; var r' := Deliver(r, h, notice, react);
            && r'.trace == r.trace + u && h in r'.heap
            && (Keep(r'.heap[h].callbacks, AddedIds(u)) == Keep(s, Gone(u))
                <==> !(r.heap[h].service && notice.Malformed? && s != []))
  {
    if r.heap[h].service && notice.Malformed? {
      u := [];
      MalformedForgets(r, h, react);
      MalformedLoses(r.heap[h].callbacks, Deliver(r, h, notice, react).heap[h].callbacks, r.trace);
    } else {
      var turns, missed := ExactlyOnce(r, h, notice, react);
      u := Flat(turns);
    }
  }

  // ---- whole runs ----

  datatype Step = Do(action: Action) | Message(listener: nat, notice: Notice) | Sweep(listener: nat)

  ghost function Next(r: Registry, step: Step, react: Environment): Registry {
    match step
    case Do(a) => Perform(r, a)
    case Message(h, notice) => if h in r.heap && h in r.order then Deliver(r, h, notice, react) else r
    case Sweep(h) =>
      if h in r.heap && !r.heap[h].lock && r.heap[h].callbacks == [] then RemoveWatch(Freed(r, h), r.heap[h].nameWatch) else r
  }

  ghost function Run(r: Registry, steps: seq<Step>, react: Environment): Registry {
    if steps == [] then r else Next(Run(r, steps[..|steps| - 1], react), steps[|steps| - 1], react)
  }

  const NOTHING := Registry([], map[], 0, [])

  /** Only the listeners in the set are being dispatched. */
  ghost predicate Locks(r: Registry, locked: set<nat>) {
    forall k :: k in r.heap && r.heap[k].lock ==> k in locked
  }

  lemma RemovalLocks(r: Registry, id: nat, locked: set<nat>)
    requires Inv(r) && Locks(r, locked)
    ensures Locks(RemoveWatch(r, id), locked) && r.trace <= RemoveWatch(r, id).trace
  {
    var t := RemoveSafe(r, id);
  }

  lemma AddCallbackLocks(r: Registry, at: Target, conn: bool, disc: bool, signal: bool, locked: set<nat>)
    requires Locks(r, locked)
    ensures var r' := AddCallback(Get(r, at), at.listener, conn, disc, signal);
            Locks(r', locked) && r.trace <= r'.trace && at.listener in r'.heap && r.heap.Keys <= r'.heap.Keys
  {
  }

  lemma NoteLocks(r: Registry, h: nat, id: nat, locked: set<nat>)
    requires Locks(r, locked) && h in r.heap
    ensures Locks(r.(heap := r.heap[h := r.heap[h].(nameWatch := id)]), locked)
  {
  }

  lemma AddLocks(r: Registry, at: Target, conn: bool, disc: bool, signal: bool, name: Option<Target>, locked: set<nat>)
    requires Locks(r, locked)
    ensures var r' := AddWatch(r, at, conn, disc, signal, name); Locks(r', locked) && r.trace <= r'.trace
  {
    var r1 := AddCallback(Get(r, at), at.listener, conn, disc, signal);
    AddCallbackLocks(r, at, conn, disc, signal, locked);
    if name.Some? {
      var r2 := AddCallback(Get(r1, name.value), name.value.listener, false, false, false);
      AddCallbackLocks(r1, name.value, false, false, false, locked);
      NoteLocks(r2, at.listener, r2.lastId, locked);
    }
  }

  lemma PerformLocks(r: Registry, a: Action, locked: set<nat>)
    requires Inv(r) && Locks(r, locked)
    ensures Locks(Perform(r, a), locked) && r.trace <= Perform(r, a).trace
  {
    match a
    case Remove(id) => RemovalLocks(r, id, locked);
    case Add(at, conn, disc, signal, name) => AddLocks(r, at, conn, disc, signal, name, locked);
  }

  lemma {:induction false} ActionsLocks(r: Registry, actions: seq<Action>, locked: set<nat>)
    requires Inv(r) && Locks(r, locked)
    ensures Locks(PerformAll(r, actions), locked)
    decreases |actions|
  {
    if actions != [] {
      PerformLocks(r, actions[0], locked);
      PerformSafe(r, actions[0]);
      ActionsLocks(Perform(r, actions[0]), actions[1..], locked);
    }
  }

  lemma SettleLocks(r: Registry, h: nat, c: Callback, leaves: bool, locked: set<nat>)
    requires Locked(r, h) && Locks(r, locked)
    ensures Locks(Settle(r, h, c, leaves), locked)
  {
  }

  lemma TurnLocks(r: Registry, h: nat, c: Callback, notice: Notice, react: Environment, locked: set<nat>)
    requires Inv(r) && Locked(r, h) && c in r.heap[h].callbacks && Locks(r, locked)
    ensures Locks(Turn(r, h, c, notice, react), locked)
  {
    var reaction := react(r.trace, c.id);
    var f := Asked(r.heap[h], notice);
    var r0 := r.(trace := r.trace + [Called(h, c.id, f)]);
    var heard := Hears(r.heap[h], c, notice);
    if heard {
      CalledInv(r, h, c, f);
      ActionsLocks(r0, reaction.actions, locked);
      PerformAllHeld(r0, h, reaction.actions);
      SettleLocks(PerformAll(r0, reaction.actions), h, c, Leaves(r.heap[h], c, heard, reaction.keep), locked);
    } else {
      SettleLocks(r, h, c, Leaves(r.heap[h], c, heard, reaction.keep), locked);
    }
  }

  lemma {:induction false} LoopLocks(r: Registry, h: nat, notice: Notice, react: Environment, locked: set<nat>)
    requires Inv(r) && Locked(r, h) && Locks(r, locked)
    ensures Inv(Loop(r, h, notice, react)) && Locks(Loop(r, h, notice, react), locked)
    ensures r.trace <= Loop(r, h, notice, react).trace
    decreases |r.heap[h].callbacks|
  {
    if r.heap[h].callbacks != [] {
      var c := r.heap[h].callbacks[0];
      var t := TurnSafe(r, h, c, notice, react);
      TurnLocks(r, h, c, notice, react, locked);
      TurnShrinks(r, h, c, notice, react);
      LoopLocks(Turn(r, h, c, notice, react), h, notice, react, locked);
    }
  }

  lemma DeliverIdle(r: Registry, h: nat, notice: Notice, react: Environment)
    requires Inv(r) && Locks(r, {}) && h in r.heap && h in r.order
    ensures var r' := Deliver(r, h, notice, react); Inv(r') && Locks(r', {}) && r.trace <= r'.trace
  {
    var r1 := WithLock(r, h);
    LockInv(r, h);
    LoopHeld(r1, h, notice, react);
    LoopLocks(r1, h, notice, react, {h});
    UnlockIdle(r1, h);
    UnlockIdle(Loop(r1, h, notice, react), h);
  }

  lemma UnlockIdle(r: Registry, h: nat)
    requires Inv(r) && h in r.heap && Locks(r, {h})
    ensures Inv(Unlocked(r, h)) && Locks(Unlocked(r, h), {})
  {
    UnlockInv(r, h);
  }

  lemma SweepIdle(r: Registry, h: nat)
    requires Inv(r) && Locks(r, {}) && h in r.heap
    ensures var n := r.heap[h].nameWatch; var r' := RemoveWatch(Freed(r, h), n);
            Inv(r') && Locks(r', {}) && r.trace <= r'.trace && h !in r'.heap && (n != 0 ==> !Live(r', n))
  {
    FreedInv(r, h);
    RemovalLocks(Freed(r, h), r.heap[h].nameWatch, {});
    var t := RemoveSafe(Freed(r, h), r.heap[h].nameWatch);
  }

  /** The cleanup after a message takes a listener that is idle and empty, with the watch on the owner of its name, and leaves
      any other. */
  lemma SweepTakes(r: Registry, h: nat, react: Environment)
    requires Inv(r) && Locks(r, {}) && h in r.heap
    ensures var r' := Next(r, Sweep(h), react); var n := r.heap[h].nameWatch;
            if r.heap[h].callbacks == [] then h !in r'.heap && (n != 0 ==> !Live(r', n)) else r' == r
  {
    SweepIdle(r, h);
  }

  lemma NextIdle(r: Registry, step: Step, react: Environment)
    requires Inv(r) && Locks(r, {})
    ensures var r' := Next(r, step, react); Inv(r') && Locks(r', {}) && r.trace <= r'.trace
  {
    match step
    case Do(a) =>
      PerformSafe(r, a);
      PerformLocks(r, a, {});
    case Message(h, notice) => if h in r.heap && h in r.order { DeliverIdle(r, h, notice, react); }
    case Sweep(h) => if h in r.heap { SweepIdle(r, h); }
  }

  lemma {:induction false} RunIdle(r: Registry, steps: seq<Step>, react: Environment)
    requires Inv(r) && Locks(r, {})
    ensures var r' := Run(r, steps, react); Inv(r') && Locks(r', {}) && r.trace <= r'.trace
    decreases |steps|
  {
    if steps != [] {
      RunIdle(r, steps[..|steps| - 1], react);
      NextIdle(Run(r, steps[..|steps| - 1], react), steps[|steps| - 1], react);
    }
  }

  /** Watch identity, in every run from the empty registry: each live watch is in one list of one listener, the second
      list is empty, and nothing happens to a watch after its removal. */
  lemma WatchIdentity(steps: seq<Step>, react: Environment)
    ensures var r := Run(NOTHING, steps, react);
            && (forall h :: h in r.heap ==> r.heap[h].processed == [] && Distinct(r.heap[h].callbacks))
            && (forall h, k, id :: h in r.heap && k in r.heap && Holds(r.heap[h], id) && Holds(r.heap[k], id) ==> h == k)
            && Final(r.trace)
  {
    RunIdle(NOTHING, steps, react);
    var r := Run(NOTHING, steps, react);
    forall h | h in r.heap ensures r.heap[h].processed == [] && Distinct(r.heap[h].callbacks) {
      assert Neat(r.heap[h], r.lastId);
      assert All(r.heap[h]) == r.heap[h].callbacks;
    }
    forall h, k, id | h in r.heap && k in r.heap && Holds(r.heap[h], id) && Holds(r.heap[k], id) ensures h == k {
      if h != k { OnlyHolder(r, h, k, id); }
    }
  }

  /** After a live watch is removed it is never called again, whatever happens next. */
  lemma RemovedIsNeverCalled(before: seq<Step>, id: nat, after: seq<Step>, react: Environment)
    requires id != 0 && Live(Run(NOTHING, before, react), id)
    ensures var r := Run(NOTHING, before, react); var r' := Run(RemoveWatch(r, id), after, react);
            r.trace <= r'.trace && forall i :: |r.trace| <= i < |r'.trace| ==> !(r'.trace[i].Called? && r'.trace[i].id == id)
  {
    var r := Run(NOTHING, before, react);
    RunIdle(NOTHING, before, react);
    var t := RemoveSafe(r, id);
    RemovalLocks(r, id, {});
    RunIdle(RemoveWatch(r, id), after, react);
    SilentAfter(r.trace, t, Run(RemoveWatch(r, id), after, react).trace, id);
  }

  lemma SilentAfter(trace: seq<Event>, t: seq<Event>, trace': seq<Event>, id: nat)
    requires trace + t <= trace' && OnlyDestroys(t) && Destroyed(id) in t && Final(trace')
    ensures trace <= trace' && forall i :: |trace| <= i < |trace'| ==> !(trace'[i].Called? && trace'[i].id == id)
  {
    var j :| 0 <= j < |t| && t[j] == Destroyed(id);
    assert (trace + t)[|trace| + j] == Destroyed(id);
    forall i | |trace| <= i < |trace'| ensures !(trace'[i].Called? && trace'[i].id == id) {
      if i <= |trace| + j { assert trace'[i] == (trace + t)[i] == t[i - |trace|]; }
    }
  }

  /** Callbacks that ask to stay when they remove their own watch. */
  ghost predicate Polite(react: Environment) {
    forall trace, id :: Remove(id) in react(trace, id).actions ==> react(trace, id).keep
  }

  /** With such callbacks the loop never goes on to remove a callback that is already gone. */
  lemma NeverRemovesTwice(r: Registry, h: nat, c: Callback, notice: Notice, react: Environment)
    requires Inv(r) && Locked(r, h) && c in r.heap[h].callbacks && Polite(react)
    requires !r.heap[h].service && Hears(r.heap[h], c, notice) && !react(r.trace, c.id).keep
    ensures var m := CallOut(r, h, c, Signal, react); h in m.heap && c in m.heap[h].callbacks
  {
    var r0 := r.(trace := r.trace + [Called(h, c.id, Signal)]);
    CalledInv(r, h, c, Signal);
    var t := ActionsSafe(r0, h, react(r.trace, c.id).actions, c);
    KeepMembers(r.heap[h].callbacks, Gone(t));
  }

  // ---- where an added watch comes to stand ----

  ghost function Watch(at: Target): Action {
    Add(at, false, false, true, None)
  }

  /** Whoever is called adds a watch to the same listener, and stays or goes. */
  ghost function Adding(at: Target, keep: bool): Environment {
    (trace, id) => Reaction([Watch(at)], keep)
  }

  lemma FirstTurn(r: Registry, at: Target, notice: Notice, keep: bool)
    requires at.listener in r.heap && at.listener in r.order && r.lastId == 1 && !at.service
    requires r.heap[at.listener] == Listener(false, at.unique, [Callback(1, false, false, true)], [], 0, true)
    ensures var r' := Turn(r, at.listener, Callback(1, false, false, true), notice, Adding(at, keep));
            && at.listener in r'.heap && r'.heap[at.listener].callbacks == []
            && r'.heap[at.listener].processed
               == [Callback(2, false, false, true)] + if keep then [Callback(1, false, false, true)] else []
  {
    var c, h := Callback(1, false, false, true), at.listener;
    var r0 := r.(trace := r.trace + [Called(h, 1, Signal)]);
    var actions := [Watch(at)];
    assert actions[1..] == [];
    assert PerformAll(r0, actions) == PerformAll(Perform(r0, actions[0]), actions[1..]);
    var m := Perform(r0, Watch(at));
    assert m.heap[h].callbacks == [c] && m.heap[h].processed == [Callback(2, false, false, true)];
    assert RemoveFirst([c], 1) == [] && RemoveFirst(m.heap[h].processed, 1) == m.heap[h].processed;
  }

  /** One watch whose callback adds another to the same listener: the new one is in front of it if it stays. */
  lemma AddedComesFirst(at: Target, notice: Notice, keep: bool)
    requires !at.service
    ensures var r := Run(NOTHING, [Do(Watch(at)), Message(at.listener, notice)], Adding(at, keep));
            && at.listener in r.heap
            && r.heap[at.listener].callbacks
               == [Callback(2, false, false, true)] + if keep then [Callback(1, false, false, true)] else []
  {
    var react, h, c := Adding(at, keep), at.listener, Callback(1, false, false, true);
    var steps := [Do(Watch(at)), Message(h, notice)];
    var r1 := Next(NOTHING, Do(Watch(at)), react);
    assert steps[..1] == [Do(Watch(at))] && steps[..1][..0] == [];
    assert Run(NOTHING, [], react) == NOTHING;
    assert Run(NOTHING, steps[..1], react) == r1;
    assert r1.heap[h] == Listener(false, at.unique, [c], [], 0, false);
    assert Run(NOTHING, steps, react) == Next(Run(NOTHING, steps[..1], react), steps[1], react);
    OnlyTurn(r1, at, notice, keep);
  }

  lemma OnlyTurn(r: Registry, at: Target, notice: Notice, keep: bool)
    requires at.listener in r.heap && at.listener in r.order && r.lastId == 1 && !at.service
    requires r.heap[at.listener] == Listener(false, at.unique, [Callback(1, false, false, true)], [], 0, false)
    ensures var r' := Deliver(r, at.listener, notice, Adding(at, keep));
            && at.listener in r'.heap
            && r'.heap[at.listener].callbacks
               == [Callback(2, false, false, true)] + if keep then [Callback(1, false, false, true)] else []
  {
    var react, h, c := Adding(at, keep), at.listener, Callback(1, false, false, true);
    var r1 := WithLock(r, h);
    FirstTurn(r1, at, notice, keep);
    TurnShrinks(r1, h, c, notice, react);
    assert Loop(r1, h, notice, react) == Loop(Turn(r1, h, c, notice, react), h, notice, react);
  }
}
