/** The grammar of interface names in the D-Bus specification, section "Valid Names": two or more elements joined by periods,
    each of letters, digits and underscores and not beginning with a digit, and at most 255 bytes in all.
 */
module Names {
  import opened Bus

  ghost predicate Element(e: string) {
    e != "" && !('0' <= e[0] <= '9') && forall i :: 0 <= i < |e| ==> ElementChar(e[i])
  }

  ghost function Dotted(es: seq<string>): string {
    if es == [] then "" else if |es| == 1 then es[0] else es[0] + "." + Dotted(es[1..])
  }

  ghost predicate Elements(es: seq<string>) {
    es != [] && forall i :: 0 <= i < |es| ==> Element(es[i])
  }

  /** The test without the period and the length. */
  ghost predicate Shaped(n: Name) {
    n != "" && n[|n| - 1] != '.' && forall i :: 0 <= i < |n| ==> Fits(n, i)
  }

  /** The character may stand in its place. */
  ghost predicate Fits(n: Name, i: nat)
    requires i < |n|
  {
    (n[i] == '.' || ElementChar(n[i])) && (Begins(n, i) ==> n[i] != '.' && !('0' <= n[i] <= '9'))
  }

  /** The place of the first period. */
  ghost function FirstDot(n: Name): (k: nat)
    requires '.' in n
    ensures k < |n| && n[k] == '.' && forall i :: 0 <= i < k ==> n[i] != '.'
  {
    if n[0] == '.' then 0 else 1 + FirstDot(n[1..])
  }

  lemma ShapedRest(n: Name, k: nat)
    requires Shaped(n) && '.' in n && k == FirstDot(n)
    ensures Element(n[..k]) && Shaped(n[k + 1..]) && n == n[..k] + "." + n[k + 1..]
  {
    assert Fits(n, 0);
    forall i | 0 <= i < k ensures ElementChar(n[..k][i]) { assert Fits(n, i) && n[i] != '.'; }
    ShapedTail(n, k + 1, n[k + 1..]);
  }

  lemma ShapedTail(n: Name, k: nat, rest: Name)
    requires Shaped(n) && 0 < k < |n| && n[k - 1] == '.' && rest == n[k..]
    ensures Shaped(rest)
  {
    forall i | 0 <= i < |rest| ensures Fits(rest, i) {
      assert Fits(n, k + i) && rest[i] == n[k + i];
      assert i > 0 ==> n[k + i - 1] == rest[i - 1];
    }
  }

  lemma {:induction false} Split(n: Name) returns (es: seq<string>)
    requires Shaped(n)
    ensures Elements(es) && Dotted(es) == n && (|es| >= 2 <==> '.' in n)
    decreases |n|
  {
    if '.' in n {
      var k := FirstDot(n);
      ShapedRest(n, k);
      var rest := Split(n[k + 1..]);
      es := [n[..k]] + rest;
      assert es[1..] == rest;
    } else {
      OneElement(n);
      es := [n];
    }
  }

  lemma OneElement(n: Name)
    requires Shaped(n) && '.' !in n
    ensures Element(n)
  {
    assert Fits(n, 0);
    forall i | 0 <= i < |n| ensures ElementChar(n[i]) { assert Fits(n, i); }
  }

  lemma NoDot(e: string)
    requires Element(e)
    ensures '.' !in e && Shaped(e)
  {
    forall i | 0 <= i < |e| ensures Fits(e, i) && e[i] != '.' {
      assert ElementChar(e[i]);
      assert i > 0 ==> ElementChar(e[i - 1]);
    }
  }

  lemma OneMore(e: string, n: Name)
    requires Element(e) && Shaped(n)
    ensures Shaped(e + "." + n) && '.' in e + "." + n
  {
    var m := e + "." + n;
    assert m[|e|] == '.' && m[|m| - 1] == n[|n| - 1];
    forall i | 0 <= i < |m| ensures Fits(m, i) {
      if i <= |e| { FrontFits(e, n, m, i); } else { BackFits(e, n, m, i); }
    }
  }

  lemma FrontFits(e: string, n: Name, m: Name, i: nat)
    requires Element(e) && m == e + "." + n && i <= |e|
    ensures Fits(m, i)
  {
    assert i < |e| ==> m[i] == e[i] && ElementChar(e[i]);
    assert i > 0 ==> m[i - 1] == e[i - 1] && ElementChar(e[i - 1]);
  }

  lemma BackFits(e: string, n: Name, m: Name, i: nat)
    requires Shaped(n) && m == e + "." + n && |e| < i < |m|
    ensures Fits(m, i)
  {
    var j := i - |e| - 1;
    assert Fits(n, j) && m[i] == n[j];
    assert j > 0 ==> m[i - 1] == n[j - 1];
  }

  lemma {:induction false} Joins(es: seq<string>)
    requires Elements(es)
    ensures Shaped(Dotted(es)) && ('.' in Dotted(es) <==> |es| >= 2)
  {
    if |es| == 1 {
      NoDot(es[0]);
    } else {
      Joins(es[1..]);
      OneMore(es[0], Dotted(es[1..]));
    }
  }

  /** A name passes the test exactly when it is such a join. */
  lemma ValidInterfaceIff(n: Name)
    ensures ValidInterface(n) <==> |n| <= 255 && exists es :: Elements(es) && |es| >= 2 && Dotted(es) == n
  {
    ShapedIff(n);
    if ValidInterface(n) {
      var es := Split(n);
    }
    forall es | Elements(es) && |es| >= 2 && Dotted(es) == n ensures Shaped(n) && '.' in n {
      Joins(es);
    }
  }

  lemma ShapedIff(n: Name)
    ensures ValidInterface(n) <==> |n| <= 255 && '.' in n && Shaped(n)
  {
    if |n| <= 255 && '.' in n && Shaped(n) {
      forall i | 0 <= i < |n|
        ensures (n[i] == '.' || ElementChar(n[i])) && (Begins(n, i) ==> n[i] != '.' && !('0' <= n[i] <= '9'))
      {
        assert Fits(n, i);
      }
    }
  }
}
