/** Lists that hold some of the elements of another list, in its order. */
module Picking {

  /** The elements of r are those of the list s that are marked, in its order and no other; they stand at the places in at. */
  ghost predicate Picks<T>(r: seq<T>, s: seq<T>, marked: seq<bool>, at: seq<nat>) {
    && |r| == |at| && |s| == |marked|
    && (forall j :: 0 <= j < |at| ==> at[j] < |s| && r[j] == s[at[j]])
    && (forall i, j :: 0 <= i < j < |at| ==> at[i] < at[j])
    && (forall k: nat :: k in at <==> k < |marked| && marked[k])
  }

  ghost predicate ListsExactly<T>(r: seq<T>, s: seq<T>, marked: seq<bool>) {
    exists at :: Picks(r, s, marked, at)
  }

  /** One more element in front of the list. */
  lemma ListsMore<T>(r: seq<T>, s: seq<T>, marked: seq<bool>, x: T, mark: bool)
    requires ListsExactly(r, s, marked)
    ensures ListsExactly((if mark then [x] else []) + r, [x] + s, [mark] + marked)
  {
    var at :| Picks(r, s, marked, at);
    var next := (if mark then [0] else []) + seq(|at|, j requires 0 <= j < |at| => at[j] + 1);
    NextPlaces(at, next, marked, mark);
    assert Picks((if mark then [x] else []) + r, [x] + s, [mark] + marked, next);
  }

  lemma NextPlaces(at: seq<nat>, next: seq<nat>, marked: seq<bool>, mark: bool)
    requires forall k: nat :: k in at <==> k < |marked| && marked[k]
    requires next == (if mark then [0] else []) + seq(|at|, j requires 0 <= j < |at| => at[j] + 1)
    ensures forall k: nat :: k in next <==> k < |[mark] + marked| && ([mark] + marked)[k]
  {
    var later := seq(|at|, j requires 0 <= j < |at| => at[j] + 1);
    forall k: nat ensures k in later <==> 0 < k && k - 1 in at {
      if 0 < k && k - 1 in at {
        var j :| 0 <= j < |at| && at[j] == k - 1;
        assert later[j] == k;
      }
    }
  }

  lemma NothingListed<T>()
    ensures ListsExactly<T>([], [], [])
  {
    assert Picks<T>([], [], [], []);
  }
}
