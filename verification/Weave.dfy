/** Where the watches added while a message is delivered end up: those of a turn stand directly in front of the callback
    whose turn it was, unless that one is gone.
 */
module Weave {
  import opened Bus
  import opened Watches
  import opened WatchSafety
  import opened Delivery

  /** What happened in all turns together. */
  ghost function Flat(turns: seq<seq<Event>>): seq<Event> {
    if turns == [] then [] else Flat(turns[..|turns| - 1]) + turns[|turns| - 1]
  }

  /** The list that a delivery builds up, before removals: for each turn what it added, and then its callback. */
  ghost function Woven(s: seq<Callback>, turns: seq<seq<Event>>, h: nat): seq<Callback>
    requires |turns| <= |s|
  {
    if turns == [] then []
    else
      var n := |turns| - 1;
      Woven(s, turns[..n], h) + (Additions(turns[n], h) + [s[n]])
  }

  /** One turn begins with the call of its callback; a turn without a call adds nothing. */
  ghost predicate TurnOf(h: nat, c: Callback, f: Function, called: bool, t: seq<Event>) {
    if called then t != [] && t[0] == Called(h, c.id, f) && Calls(t) == [c.id] else Calls(t) == [] && Additions(t, h) == []
  }

  ghost predicate TurnsOf(h: nat, s: seq<Callback>, f: Function, missed: set<nat>, turns: seq<seq<Event>>) {
    |turns| <= |s| && forall k :: 0 <= k < |turns| ==> TurnOf(h, s[k], f, s[k].id !in missed, turns[k])
  }

  lemma FlatMore(turns: seq<seq<Event>>, t: seq<Event>)
    ensures Flat(turns + [t]) == Flat(turns) + t
  {
    assert (turns + [t])[..|turns|] == turns;
  }

  lemma WovenMore(s: seq<Callback>, turns: seq<seq<Event>>, t: seq<Event>, h: nat)
    requires |turns| < |s|
    ensures Woven(s, turns + [t], h) == Woven(s, turns, h) + (Additions(t, h) + [s[|turns|]])
  {
    assert (turns + [t])[..|turns|] == turns;
  }

  lemma TurnsMore(h: nat, s: seq<Callback>, f: Function, missed: set<nat>, missed': set<nat>, turns: seq<seq<Event>>, t: seq<Event>)
    requires TurnsOf(h, s, f, missed, turns) && |turns| < |s| && Distinct(s)
    requires missed <= Ids(s[..|turns|]) && missed <= missed' <= missed + {s[|turns|].id}
    requires TurnOf(h, s[|turns|], f, s[|turns|].id !in missed', t)
    ensures TurnsOf(h, s, f, missed', turns + [t])
  {
    forall k | 0 <= k < |turns| + 1 ensures TurnOf(h, s[k], f, s[k].id !in missed', (turns + [t])[k]) {
      if k < |turns| { assert s[k].id in missed <==> s[k].id in missed'; }
    }
  }

  /** The additions of all turns come from the turns before the last and from the last. */
  lemma AdditionsOfTurns(turns: seq<seq<Event>>, h: nat)
    requires turns != []
    ensures var n := |turns| - 1;
            Additions(Flat(turns), h) == Additions(Flat(turns[..n]), h) + Additions(turns[n], h)
  {
    AdditionsConcat(Flat(turns[..|turns| - 1]), turns[|turns| - 1], h);
  }

  lemma KeepWoven(w: seq<Callback>, a: seq<Callback>, c: Callback, g: set<nat>)
    ensures Keep(w + (a + [c]), g) == Keep(w, g) + (Keep(a, g) + if c.id in g then [] else [c])
  {
    KeepConcat(w, a + [c], g);
    KeepConcat(a, [c], g);
    KeepOne(c, g);
  }

  lemma {:induction false} NoneKeptOf(a: seq<Callback>, gone: set<nat>)
    requires forall c :: c in a ==> c.id in gone
    ensures Keep(a, gone) == []
  {
    if a != [] { NoneKeptOf(a[..|a| - 1], gone); }
  }

  lemma KeepOnlyLast(w: seq<Callback>, a: seq<Callback>, c: Callback, g: set<nat>)
    requires forall d :: d in a ==> d.id in g
    ensures Keep(w + (a + [c]), g) == Keep(w, g) + if c.id in g then [] else [c]
  {
    KeepWoven(w, a, c, g);
    NoneKeptOf(a, g);
    NothingLess(if c.id in g then [] else [c]);
  }

  lemma KeepAllButLast(w: seq<Callback>, a: seq<Callback>, c: Callback, g: set<nat>)
    requires c.id in g
    ensures Keep(w + (a + [c]), g) == Keep(w, g) + Keep(a, g)
  {
    KeepWoven(w, a, c, g);
    NothingMore(Keep(a, g));
  }

  lemma GoneDone(s: seq<Callback>, i: nat, gone: set<nat>)
    requires i < |s| && s[i].id in gone
    ensures Keep(s[..i + 1], gone) == Keep(s[..i], gone)
  {
    MoreDone(s, i, gone);
    NothingMore(Keep(s[..i], gone));
  }

  lemma MoreDone(s: seq<Callback>, i: nat, gone: set<nat>)
    requires i < |s|
    ensures Keep(s[..i + 1], gone) == Keep(s[..i], gone) + if s[i].id in gone then [] else [s[i]]
  {
    assert s[..i + 1][..i] == s[..i];
  }

  /** Without what was added the list is the old one. */
  lemma {:induction false} WovenOld(s: seq<Callback>, turns: seq<seq<Event>>, h: nat, g: set<nat>, x: set<nat>)
    requires |turns| <= |s| && (forall c :: c in s ==> c.id !in x) && forall c :: c in Additions(Flat(turns), h) ==> c.id in x
    ensures Keep(Woven(s, turns, h), g + x) == Keep(s[..|turns|], g)
    decreases |turns|
  {
    if turns != [] {
      var n := |turns| - 1;
      AdditionsOfTurns(turns, h);
      WovenOld(s, turns[..n], h, g, x);
      OldTurn(s, turns[..n], h, g, x, Additions(turns[n], h), Woven(s, turns[..n], h));
    }
  }

  lemma OldTurn(s: seq<Callback>, front: seq<seq<Event>>, h: nat, g: set<nat>, x: set<nat>, a: seq<Callback>, w: seq<Callback>)
    requires |front| < |s| && (forall c :: c in s ==> c.id !in x) && (forall c :: c in a ==> c.id in x)
    requires Keep(w, g + x) == Keep(s[..|front|], g)
    ensures Keep(w + (a + [s[|front|]]), g + x) == Keep(s[..|front| + 1], g)
  {
    KeepOnlyLast(w, a, s[|front|], g + x);
    MoreDone(s, |front|, g);
  }

  /** Without the old ones the list is what was added. */
  lemma {:induction false} WovenNew(s: seq<Callback>, turns: seq<seq<Event>>, h: nat, g: set<nat>, x: set<nat>)
    requires |turns| <= |s| && (forall c :: c in s ==> c.id in x) && forall c :: c in Additions(Flat(turns), h) ==> c.id !in x
    ensures Keep(Woven(s, turns, h), g + x) == Keep(Additions(Flat(turns), h), g)
    decreases |turns|
  {
    if turns != [] {
      var n := |turns| - 1;
      var a := Additions(turns[n], h);
      AdditionsOfTurns(turns, h);
      WovenNew(s, turns[..n], h, g, x);
      KeepWoven(Woven(s, turns[..n], h), a, s[n], g + x);
      KeepSame(a, g + x, g);
      KeepConcat(Additions(Flat(turns[..n]), h), a, g);
    }
  }

  // ---- additions at the end ----

  /** What turn `k` added and is still there has no survivor of that turn or a later one behind it. */
  ghost predicate AddedLast(s: seq<Callback>, turns: seq<seq<Event>>, h: nat, g: set<nat>)
    requires |turns| <= |s|
  {
    forall k, j :: 0 <= k <= j < |turns| && Keep(Additions(turns[k], h), g) != [] ==> s[j].id in g
  }

  ghost predicate SurvivorsThenAdded(s: seq<Callback>, turns: seq<seq<Event>>, h: nat, g: set<nat>)
    requires |turns| <= |s|
  {
    Keep(Woven(s, turns, h), g) == Keep(s[..|turns|], g) + Keep(Additions(Flat(turns), h), g)
  }

  lemma {:induction false} NothingAdded(turns: seq<seq<Event>>, h: nat, g: set<nat>)
    ensures Keep(Additions(Flat(turns), h), g) == [] <==> forall k :: 0 <= k < |turns| ==> Keep(Additions(turns[k], h), g) == []
    decreases |turns|
  {
    if turns == [] {
      assert Additions([], h) == [];
    } else {
      var n := |turns| - 1;
      NothingAdded(turns[..n], h, g);
      AdditionsOfTurns(turns, h);
      KeepConcat(Additions(Flat(turns[..n]), h), Additions(turns[n], h), g);
      assert forall k :: 0 <= k < n ==> turns[..n][k] == turns[k];
    }
  }

  /** The added watches are at the end, behind all survivors, exactly when none of them has a survivor of its own turn
      or of a later one behind it. */
  lemma {:induction false} AddedLastIff(s: seq<Callback>, turns: seq<seq<Event>>, h: nat, g: set<nat>, first: nat)
    requires |turns| <= |s| && (forall c :: c in s ==> c.id <= first)
    requires forall c :: c in Additions(Flat(turns), h) ==> first < c.id
    ensures SurvivorsThenAdded(s, turns, h, g) <==> AddedLast(s, turns, h, g)
    decreases |turns|
  {
    if turns == [] {
      assert Additions([], h) == [];
    } else {
      var n := |turns| - 1;
      AdditionsOfTurns(turns, h);
      AddedLastIff(s, turns[..n], h, g, first);
      if s[n].id in g { GoneTurn(s, turns, h, g); } else { SurvivingTurn(s, turns, h, g, first); }
    }
  }

  lemma {:induction false} GoneTurn(s: seq<Callback>, turns: seq<seq<Event>>, h: nat, g: set<nat>)
    requires 0 < |turns| <= |s| && s[|turns| - 1].id in g
    ensures SurvivorsThenAdded(s, turns, h, g) <==> SurvivorsThenAdded(s, turns[..|turns| - 1], h, g)
    ensures AddedLast(s, turns, h, g) <==> AddedLast(s, turns[..|turns| - 1], h, g)
  {
    var n := |turns| - 1;
    var front, a := turns[..n], Additions(turns[n], h);
    AdditionsOfTurns(turns, h);
    KeepConcat(Additions(Flat(front), h), a, g);
    KeepAllButLast(Woven(s, front, h), a, s[n], g);
    GoneDone(s, n, g);
    SameParts(Keep(Woven(s, turns, h), g), Keep(s[..|turns|], g), Keep(Additions(Flat(turns), h), g),
              Keep(Woven(s, front, h), g), Keep(s[..n], g), Keep(Additions(Flat(front), h), g), Keep(a, g));
    FrontLast(s, turns, h, g);
  }

  lemma SameParts(w': seq<Callback>, x': seq<Callback>, y': seq<Callback>, w: seq<Callback>, x: seq<Callback>, y: seq<Callback>,
                  a: seq<Callback>)
    requires w' == w + a && x' == x && y' == y + a
    ensures w' == x' + y' <==> w == x + y
  {
    SameEnd(w, x, y, a);
  }

  lemma FrontLast(s: seq<Callback>, turns: seq<seq<Event>>, h: nat, g: set<nat>)
    requires 0 < |turns| <= |s| && s[|turns| - 1].id in g
    ensures AddedLast(s, turns, h, g) <==> AddedLast(s, turns[..|turns| - 1], h, g)
  {
    var front := turns[..|turns| - 1];
    assert forall k :: 0 <= k < |front| ==> front[k] == turns[k];
  }

  lemma SameEnd(w: seq<Callback>, x: seq<Callback>, y: seq<Callback>, a: seq<Callback>)
    ensures w + a == x + (y + a) <==> w == x + y
  {
    assert x + (y + a) == x + y + a;
    if w + a == x + y + a {
      assert |w| == |x + y|;
      assert w == (w + a)[..|w|] && x + y == (x + y + a)[..|w|];
    }
  }

  lemma SurvivingTurn(s: seq<Callback>, turns: seq<seq<Event>>, h: nat, g: set<nat>, first: nat)
    requires 0 < |turns| <= |s| && s[|turns| - 1].id !in g && s[|turns| - 1].id <= first
    requires forall c :: c in Additions(Flat(turns), h) ==> first < c.id
    ensures SurvivorsThenAdded(s, turns, h, g) <==> AddedLast(s, turns, h, g)
  {
    NothingAdded(turns, h, g);
    if Keep(Additions(Flat(turns), h), g) == [] {
      NoneWoven(s, turns, h, g);
      NothingMore(Keep(s[..|turns|], g));
    } else {
      SurvivorLast(s, turns, h, g, first);
    }
  }

  lemma NothingLess(cs: seq<Callback>)
    ensures [] + cs == cs
  {
  }

  lemma NothingMore(cs: seq<Callback>)
    ensures cs + [] == cs
  {
  }

  lemma SurvivorLast(s: seq<Callback>, turns: seq<seq<Event>>, h: nat, g: set<nat>, first: nat)
    requires 0 < |turns| <= |s| && s[|turns| - 1].id !in g && s[|turns| - 1].id <= first
    requires Keep(Additions(Flat(turns), h), g) != [] && forall c :: c in Additions(Flat(turns), h) ==> first < c.id
    ensures !SurvivorsThenAdded(s, turns, h, g)
  {
    var n := |turns| - 1;
    var w, a := Woven(s, turns[..n], h), Additions(turns[n], h);
    KeepMembers(Additions(Flat(turns), h), g);
    KeepWoven(w, a, s[n], g);
    LastDiffers(Keep(w, g) + Keep(a, g), s[n], Keep(s[..n + 1], g), Keep(Additions(Flat(turns), h), g), first);
    CallbacksTwice(Keep(w, g), Keep(a, g), [s[n]]);
  }

  /** A list that ends with an old callback is not one that ends with a new one. */
  lemma LastDiffers(w: seq<Callback>, c: Callback, x: seq<Callback>, y: seq<Callback>, first: nat)
    requires c.id <= first && y != [] && forall d :: d in y ==> first < d.id
    ensures w + [c] != x + y
  {
    assert (w + [c])[|w + [c]| - 1] == c;
    assert (x + y)[|x + y| - 1] == y[|y| - 1];
  }

  lemma {:induction false} NoneWoven(s: seq<Callback>, turns: seq<seq<Event>>, h: nat, g: set<nat>)
    requires |turns| <= |s| && forall k :: 0 <= k < |turns| ==> Keep(Additions(turns[k], h), g) == []
    ensures Keep(Woven(s, turns, h), g) == Keep(s[..|turns|], g)
    decreases |turns|
  {
    if turns != [] {
      var n := |turns| - 1;
      assert forall k :: 0 <= k < n ==> turns[..n][k] == turns[k];
      NoneWoven(s, turns[..n], h, g);
      KeepWoven(Woven(s, turns[..n], h), Additions(turns[n], h), s[n], g);
      NothingLess(if s[n].id in g then [] else [s[n]]);
      MoreDone(s, n, g);
    }
  }
}
