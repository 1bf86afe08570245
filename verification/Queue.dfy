/** A singly linked queue with a tail reference and a count. */
module Queue {
  import opened Bus
  import opened Picking

  /** The first index whose element matches, or the length. */
  function First<T>(s: seq<T>, p: T -> bool): (k: nat)
    ensures k <= |s| && (k < |s| ==> p(s[k])) && forall i :: 0 <= i < k ==> !p(s[i])
  {
    if s == [] then 0 else if p(s[0]) then 0 else 1 + First(s[1..], p)
  }

  function Select<T>(s: seq<T>, p: T -> bool): seq<T> {
    if s == [] then [] else (if p(s[0]) then [s[0]] else []) + Select(s[1..], p)
  }

  function Reject<T>(s: seq<T>, p: T -> bool): seq<T> {
    if s == [] then [] else (if p(s[0]) then [] else [s[0]]) + Reject(s[1..], p)
  }

  function Dropped<T>(s: seq<T>, k: nat): seq<T> {
    if k < |s| then s[..k] + s[k + 1..] else s
  }

  lemma DroppedTail<T>(s: seq<T>, k: nat)
    requires 0 < k < |s|
    ensures Dropped(s, k) != [] && Dropped(s, k)[0] == s[0] && Dropped(s, k)[1..] == Dropped(s[1..], k - 1)
    ensures s[1..][k - 1] == s[k]
  {
  }

  /** Taking out the first match takes the head off the matches and leaves the others alone. */
  lemma {:induction false} DropFirst<T>(s: seq<T>, p: T -> bool)
    requires First(s, p) < |s|
    ensures var k := First(s, p);
            Select(s, p) == [s[k]] + Select(Dropped(s, k), p) && Reject(s, p) == Reject(Dropped(s, k), p)
  {
    var k := First(s, p);
    if k == 0 {
      assert Dropped(s, 0) == s[1..];
      NoneInFront(Reject(s[1..], p));
    } else {
      DropFirst(s[1..], p);
      DroppedTail(s, k);
      NoneInFront(Select(s[1..], p));
      NoneInFront(Select(Dropped(s[1..], k - 1), p));
    }
  }

  lemma NoneInFront<T>(s: seq<T>)
    ensures [] + s == s
  {
  }

  lemma {:induction false} NoneLeft<T>(s: seq<T>, p: T -> bool)
    requires First(s, p) == |s|
    ensures Select(s, p) == [] && Reject(s, p) == s
  {
    if s != [] { NoneLeft(s[1..], p); }
  }

  /** Nothing is lost and nothing is kept twice. */
  lemma {:induction false} Partition<T>(s: seq<T>, p: T -> bool)
    ensures multiset(Select(s, p)) + multiset(Reject(s, p)) == multiset(s)
    ensures (forall x :: x in Select(s, p) ==> p(x)) && (forall x :: x in Reject(s, p) ==> !p(x))
  {
    if s != [] {
      Partition(s[1..], p);
      assert s == [s[0]] + s[1..];
    }
  }

  ghost function Marks<T>(s: seq<T>, p: T -> bool, mark: bool): seq<bool> {
    seq(|s|, i requires 0 <= i < |s| => p(s[i]) == mark)
  }

  lemma MarksCons<T>(s: seq<T>, p: T -> bool, mark: bool)
    requires s != []
    ensures [p(s[0]) == mark] + Marks(s[1..], p, mark) == Marks(s, p, mark) && [s[0]] + s[1..] == s
  {
  }

  lemma {:induction false} SelectInOrder<T>(s: seq<T>, p: T -> bool)
    ensures ListsExactly(Select(s, p), s, Marks(s, p, true))
  {
    if s == [] {
      NothingListed<T>();
      assert Marks(s, p, true) == [];
    } else {
      SelectInOrder(s[1..], p);
      ListsMore(Select(s[1..], p), s[1..], Marks(s[1..], p, true), s[0], p(s[0]) == true);
      MarksCons(s, p, true);
    }
  }

  lemma {:induction false} RejectInOrder<T>(s: seq<T>, p: T -> bool)
    ensures ListsExactly(Reject(s, p), s, Marks(s, p, false))
  {
    if s == [] {
      NothingListed<T>();
      assert Marks(s, p, false) == [];
    } else {
      RejectInOrder(s[1..], p);
      ListsMore(Reject(s[1..], p), s[1..], Marks(s[1..], p, false), s[0], p(s[0]) == false);
      MarksCons(s, p, false);
    }
  }

  /** Both parts keep the order. */
  lemma InOrder<T>(s: seq<T>, p: T -> bool)
    ensures ListsExactly(Select(s, p), s, Marks(s, p, true)) && ListsExactly(Reject(s, p), s, Marks(s, p, false))
  {
    SelectInOrder(s, p);
    RejectInOrder(s, p);
  }

  class Entry<T> {
    var data: T
    var next: Entry?<T>

    constructor (d: T)
      ensures data == d && next == null
    {
      data, next := d, null;
    }
  }

  class Queue<T(==)> {
    var head: Entry?<T>
    var tail: Entry?<T>
    var entries: nat
    ghost var spine: seq<Entry<T>>

    ghost predicate Valid()
      reads this, spine
    {
      && entries == |spine|
      && (forall i, j :: 0 <= i < j < |spine| ==> spine[i] != spine[j])
      && (if spine == [] then head == null && tail == null else head == spine[0] && tail == spine[|spine| - 1])
      && (forall i :: 0 <= i < |spine| - 1 ==> spine[i].next == spine[i + 1])
      && (spine != [] ==> spine[|spine| - 1].next == null)
    }

    ghost function Contents(): seq<T>
      reads this, spine
    {
      seq(|spine|, i requires 0 <= i < |spine| reads this, spine => spine[i].data)
    }

    constructor ()
      ensures Valid() && Contents() == [] && spine == []
    {
      head, tail, entries, spine := null, null, 0, [];
    }

    method PushTail(x: T)
      requires Valid()
      modifies this, spine
      ensures Valid() && Contents() == old(Contents()) + [x]
      ensures forall e :: e in spine ==> e in old(spine) || fresh(e)
    {
      var e := new Entry(x);
      if tail != null { tail.next := e; }
      tail := e;
      if head == null { head := e; }
      entries := entries + 1;
      spine := spine + [e];
    }

    method PushHead(x: T)
      requires Valid()
      modifies this
      ensures Valid() && Contents() == [x] + old(Contents())
      ensures forall e :: e in spine ==> e in old(spine) || fresh(e)
    {
      var e := new Entry(x);
      e.next := head;
      head := e;
      if tail == null { tail := e; }
      entries := entries + 1;
      spine := [e] + spine;
    }

    /** The first entry that matches and the one before it. */
    method Locate(p: T -> bool) returns (prev: Entry?<T>, entry: Entry?<T>, ghost k: nat)
      requires Valid()
      ensures k == First(Contents(), p)
      ensures entry == if k < |spine| then spine[k] else null
      ensures prev == if 0 < k <= |spine| then spine[k - 1] else null
    {
      prev, entry, k := null, head, 0;
      while entry != null && !p(entry.data)
        invariant k <= |spine| && entry == (if k < |spine| then spine[k] else null)
        invariant prev == (if 0 < k then spine[k - 1] else null)
        invariant forall i :: 0 <= i < k ==> !p(spine[i].data)
        decreases |spine| - k
      {
        prev := entry;
        entry := entry.next;
        k := k + 1;
      }
      FirstIs(Contents(), p, k);
    }

    method InsertAfter(entry: Entry<T>, ghost k: nat, x: T)
      requires Valid() && k < |spine| && entry == spine[k]
      modifies this, spine
      ensures Valid() && Contents() == old(Contents())[..k + 1] + [x] + old(Contents())[k + 1..]
      ensures forall e :: e in spine ==> e in old(spine) || fresh(e)
    {
      assert k < |spine| - 1 ==> entry.next == spine[k + 1];
      var e := new Entry(x);
      e.next := entry.next;
      if entry.next == null { tail := e; }
      entry.next := e;
      entries := entries + 1;
      spine := spine[..k + 1] + [e] + spine[k + 1..];
      assert forall i :: 0 <= i < |spine| && i != k + 1 ==> spine[i] == old(spine)[if i <= k then i else i - 1];
      assert forall i :: 0 <= i < |spine| - 1 ==> spine[i].next == spine[i + 1];
      assert Contents() == old(Contents())[..k + 1] + [x] + old(Contents())[k + 1..];
    }

    method PushAfter(at: T, x: T) returns (ok: bool)
      requires Valid()
      modifies this, spine
      ensures Valid() && (ok <==> at in old(Contents()))
      ensures ok ==> var k := First(old(Contents()), y => y == at);
                     k < |old(Contents())| && Contents() == old(Contents())[..k + 1] + [x] + old(Contents())[k + 1..]
      ensures !ok ==> Contents() == old(Contents())
      ensures forall e :: e in spine ==> e in old(spine) || fresh(e)
    {
      var prev, entry;
      ghost var k;
      prev, entry, k := Locate(y => y == at);
      if entry == null { return false; }
      InsertAfter(entry, k, x);
      return true;
    }

    method PopHead() returns (r: Option<T>)
      requires Valid()
      modifies this
      ensures Valid() && if old(Contents()) == [] then r == None && Contents() == []
                         else r == Some(old(Contents())[0]) && Contents() == old(Contents())[1..]
      ensures forall e :: e in spine ==> e in old(spine)
    {
      if head == null { return None; }
      var entry := head;
      if head.next == null {
        head, tail := null, null;
      } else {
        head := head.next;
      }
      r := Some(entry.data);
      entries := entries - 1;
      spine := spine[1..];
    }

    method PeekHead() returns (r: Option<T>)
      requires Valid()
      ensures r == if Contents() == [] then None else Some(Contents()[0])
    {
      if head == null { return None; }
      r := Some(head.data);
    }

    method PeekTail() returns (r: Option<T>)
      requires Valid()
      ensures r == if Contents() == [] then None else Some(Contents()[|Contents()| - 1])
    {
      if tail == null { return None; }
      r := Some(tail.data);
    }

    method Find(p: T -> bool) returns (r: Option<T>)
      requires Valid()
      ensures var k := First(Contents(), p); r == if k < |Contents()| then Some(Contents()[k]) else None
    {
      var prev, entry;
      ghost var k;
      prev, entry, k := Locate(p);
      r := if entry == null then None else Some(entry.data);
    }

    method Unlink(prev: Entry?<T>, entry: Entry<T>, ghost k: nat)
      requires Valid() && k < |spine| && entry == spine[k] && prev == if 0 < k then spine[k - 1] else null
      modifies this, spine
      ensures Valid() && Contents() == old(Contents())[..k] + old(Contents())[k + 1..]
      ensures forall e :: e in spine ==> e in old(spine)
    {
      assert k < |spine| - 1 ==> entry.next == spine[k + 1];
      if prev != null {
        prev.next := entry.next;
      } else {
        head := entry.next;
      }
      if entry.next == null { tail := prev; }
      entries := entries - 1;
      spine := spine[..k] + spine[k + 1..];
      assert forall i :: 0 <= i < k ==> spine[i] == old(spine)[i];
      assert forall i :: k <= i < |spine| ==> spine[i] == old(spine)[i + 1];
    }

    method RemoveIf(p: T -> bool) returns (r: Option<T>)
      requires Valid()
      modifies this, spine
      ensures Valid()
      ensures var k := First(old(Contents()), p);
              && Contents() == Dropped(old(Contents()), k)
              && r == if k < |old(Contents())| then Some(old(Contents())[k]) else None
      ensures forall e :: e in spine ==> e in old(spine)
    {
      var prev, entry;
      ghost var k;
      prev, entry, k := Locate(p);
      if entry == null { return None; }
      r := Some(entry.data);
      Unlink(prev, entry, k);
    }

    method Remove(x: T) returns (ok: bool)
      requires Valid()
      modifies this, spine
      ensures Valid() && (ok <==> x in old(Contents()))
      ensures Contents() == Dropped(old(Contents()), First(old(Contents()), y => y == x))
      ensures forall e :: e in spine ==> e in old(spine)
    {
      var prev, entry;
      ghost var k;
      prev, entry, k := Locate(y => y == x);
      if entry == null { return false; }
      Unlink(prev, entry, k);
      return true;
    }

    /** Removing everything that matches; the elements handed to destroy are listed in the order of the calls. */
    method RemoveAll(p: T -> bool) returns (count: nat, destroyed: seq<T>)
      requires Valid()
      modifies this, spine
      ensures Valid() && Contents() == Reject(old(Contents()), p)
      ensures destroyed == Select(old(Contents()), p) && count == |destroyed|
      ensures forall e :: e in spine ==> e in old(spine)
    {
      count, destroyed := 0, [];
      var entry := head;
      while entry != null
        invariant Valid() && count == |destroyed| && (entry == null ==> Contents() == [])
        invariant Select(old(Contents()), p) == destroyed + Select(Contents(), p)
        invariant Reject(old(Contents()), p) == Reject(Contents(), p)
        invariant forall i :: 0 <= i < |spine| ==> spine[i] in old(spine)
        decreases entries
      {
        ghost var before, chain := Contents(), spine;
        var n := entries;
        var data := RemoveIf(p);
        assert forall i :: 0 <= i < |spine| ==> spine[i] in chain;
        assert forall e :: e in chain ==> e in old(spine);
        if n == entries {
          NoneLeft(before, p);
          NothingMore(destroyed);
          return;
        }
        DropFirst(before, p);
        OneMore(destroyed, data.value, Select(Contents(), p));
        destroyed := destroyed + [data.value];
        count := count + 1;
      }
    }

    method Clear() returns (count: nat, destroyed: seq<T>)
      requires Valid()
      modifies this
      ensures Valid() && Contents() == [] && destroyed == old(Contents()) && count == |destroyed| && spine == []
    {
      var entry := head;
      ghost var chain := spine;
      head, tail, entries, spine := null, null, 0, [];
      count, destroyed := 0, [];
      while entry != null
        invariant count <= |chain| && entry == if count < |chain| then chain[count] else null
        invariant destroyed == old(Contents())[..count]
        decreases |chain| - count
      {
        var tmp := entry;
        entry := entry.next;
        destroyed := destroyed + [tmp.data];
        count := count + 1;
      }
    }
  }

  lemma OneMore<T>(a: seq<T>, x: T, b: seq<T>)
    ensures a + ([x] + b) == a + [x] + b
  {
  }

  lemma NothingMore<T>(a: seq<T>)
    ensures a + [] == a
  {
  }

  lemma {:induction false} FirstIs<T>(s: seq<T>, p: T -> bool, k: nat)
    requires k <= |s| && (forall i :: 0 <= i < k ==> !p(s[i])) && (k < |s| ==> p(s[k]))
    ensures First(s, p) == k
  {
  }
}
