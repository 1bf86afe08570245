/** The check whether a buffer has the shape of UTF-8: an automaton that counts the continuation bytes still due. */
module Utf8Shape {

  type Octet = bv8

  predicate TopBit(b: Octet, k: nat)
    requires k < 8
  {
    (b << k) & 0x80 != 0
  }

  /** The number of leading ones. */
  function Ones(b: Octet, k: nat): (n: nat)
    requires k <= 8
    ensures k <= n <= 8
    decreases 8 - k
  {
    if k < 8 && TopBit(b, k) then Ones(b, k + 1) else k
  }

  predicate Continues(b: Octet) {
    b & 0xc0 == 0x80
  }

  /** The leading ones and the continuing octets in numbers. */
  lemma OnesRanges(b: Octet)
    ensures Ones(b, 0) == if b < 0x80 then 0 else if b < 0xc0 then 1 else if b < 0xe0 then 2 else if b < 0xf0 then 3
                          else if b < 0xf8 then 4 else if b < 0xfc then 5 else if b < 0xfe then 6 else if b < 0xff then 7 else 8
    ensures b & 0x80 == 0 <==> b < 0x80
    ensures Continues(b) <==> 0x80 <= b < 0xc0
  {
  }

  /** The octets of one character in section 2 of RFC 2279: one octet without the top bit, or a lead octet with two to
      six leading ones and one octet less that continues it. */
  ghost predicate Character(c: seq<Octet>) {
    && c != []
    && (if c[0] & 0x80 == 0 then |c| == 1 else 2 <= Ones(c[0], 0) <= 6 && |c| == Ones(c[0], 0))
    && forall i :: 1 <= i < |c| ==> Continues(c[i])
  }

  ghost predicate Characters(cs: seq<seq<Octet>>) {
    forall i :: 0 <= i < |cs| ==> Character(cs[i])
  }

  ghost function Joined(cs: seq<seq<Octet>>): seq<Octet> {
    if cs == [] then [] else cs[0] + Joined(cs[1..])
  }

  /** What the automaton accepts with k continuation octets due. */
  ghost predicate Accepts(k: nat, s: seq<Octet>)
    decreases |s|
  {
    if s == [] then k == 0
    else if k > 0 then Continues(s[0]) && Accepts(k - 1, s[1..])
    else if s[0] & 0x80 == 0 then Accepts(0, s[1..])
    else 2 <= Ones(s[0], 0) <= 6 && Accepts(Ones(s[0], 0) - 1, s[1..])
  }

  lemma {:induction false} AcceptsTail(c: seq<Octet>, s: seq<Octet>)
    requires forall i :: 0 <= i < |c| ==> Continues(c[i])
    ensures Accepts(|c|, c + s) <==> Accepts(0, s)
  {
    if c == [] {
      assert c + s == s;
    } else {
      AcceptsTail(c[1..], s);
      assert (c + s)[1..] == c[1..] + s;
    }
  }

  lemma AcceptsCharacter(c: seq<Octet>, s: seq<Octet>)
    requires Character(c)
    ensures Accepts(0, c + s) <==> Accepts(0, s)
  {
    assert (c + s)[1..] == c[1..] + s;
    AcceptsTail(c[1..], s);
  }

  lemma {:induction false} AcceptsAll(cs: seq<seq<Octet>>)
    requires Characters(cs)
    ensures Accepts(0, Joined(cs))
  {
    if cs != [] {
      AcceptsAll(cs[1..]);
      AcceptsCharacter(cs[0], Joined(cs[1..]));
    }
  }

  /** An accepted stretch begins with the octets that are due. */
  lemma {:induction false} Due(k: nat, s: seq<Octet>)
    requires Accepts(k, s)
    ensures k <= |s| && (forall i :: 0 <= i < k ==> Continues(s[i])) && Accepts(0, s[k..])
  {
    if k == 0 {
      assert s[0..] == s;
    } else {
      Due(k - 1, s[1..]);
      assert s[1..][k - 1..] == s[k..];
      assert forall i :: 1 <= i < k ==> s[i] == s[1..][i - 1];
    }
  }

  lemma {:induction false} Split(s: seq<Octet>) returns (cs: seq<seq<Octet>>)
    requires Accepts(0, s)
    ensures Characters(cs) && Joined(cs) == s
    decreases |s|
  {
    if s == [] {
      cs := [];
    } else {
      var n := FirstCharacter(s);
      var rest := Split(s[n..]);
      cs := [s[..n]] + rest;
      JoinedOne(s[..n], rest);
      assert s[..n] + s[n..] == s;
    }
  }

  lemma FirstCharacter(s: seq<Octet>) returns (n: nat)
    requires s != [] && Accepts(0, s)
    ensures 1 <= n <= |s| && Character(s[..n]) && Accepts(0, s[n..])
  {
    n := if s[0] & 0x80 == 0 then 1 else Ones(s[0], 0);
    Due(n - 1, s[1..]);
    assert s[1..][n - 1..] == s[n..];
    assert forall i :: 1 <= i < n ==> s[i] == s[1..][i - 1];
  }

  lemma {:induction false} JoinedOne(c: seq<Octet>, rest: seq<seq<Octet>>)
    requires Character(c) && Characters(rest)
    ensures Characters([c] + rest) && Joined([c] + rest) == c + Joined(rest)
  {
    assert ([c] + rest)[1..] == rest;
  }

  /** The buffer is a sequence of characters exactly when the automaton accepts it. */
  lemma AcceptsIff(s: seq<Octet>)
    ensures Accepts(0, s) <==> exists cs :: Characters(cs) && Joined(cs) == s
  {
    if Accepts(0, s) {
      var cs := Split(s);
    }
    forall cs | Characters(cs) && Joined(cs) == s ensures Accepts(0, s) {
      AcceptsAll(cs);
    }
  }

  lemma SameLength(c: seq<Octet>, d: seq<Octet>, x: seq<Octet>, y: seq<Octet>)
    requires Character(c) && Character(d) && c + x == d + y
    ensures c == d && x == y
  {
    assert c[0] == (c + x)[0] == (d + y)[0] == d[0];
    assert c == (c + x)[..|c|] && x == (c + x)[|c|..];
    assert d == (d + y)[..|d|] && y == (d + y)[|d|..];
  }

  /** A buffer splits into characters in one way. */
  lemma {:induction false} SplitIsUnique(cs: seq<seq<Octet>>, ds: seq<seq<Octet>>)
    requires Characters(cs) && Characters(ds) && Joined(cs) == Joined(ds)
    ensures cs == ds
  {
    if cs != [] && ds != [] {
      SameLength(cs[0], ds[0], Joined(cs[1..]), Joined(ds[1..]));
      SplitIsUnique(cs[1..], ds[1..]);
      assert cs == [cs[0]] + cs[1..] && ds == [ds[0]] + ds[1..];
    }
  }

  /** The count that the inner loop makes of the leading ones, which stops past six. */
  method CountOnes(temp: Octet) returns (n: nat)
    ensures if Ones(temp, 0) > 6 then n == 7 else n == Ones(temp, 0)
  {
    n := 0;
    while TopBit(temp, n)
      invariant n <= 6 && Ones(temp, 0) == Ones(temp, n)
      decreases 7 - n
    {
      n := n + 1;
      if n > 6 { return; }
    }
  }

  /** One for an empty buffer, a buffer that starts with NUL, and a sequence of characters; zero for any other. */
  method IsUtf8(buf: seq<Octet>) returns (r: int)
    ensures r == 1 || r == 0
    ensures r == 1 <==> buf == [] || buf[0] == 0 || exists cs :: Characters(cs) && Joined(cs) == buf
  {
    AcceptsIff(buf);
    if |buf| == 0 || buf[0] == 0 { return 1; }
    var due := 0;
    var i := 0;
    while i < |buf|
      invariant i <= |buf| && (Accepts(0, buf) <==> Accepts(due, buf[i..]))
    {
      ghost var rest := buf[i..];
      assert rest[1..] == buf[i + 1..];
      if due == 0 && buf[i] & 0x80 == 0 {
      } else if due != 0 && buf[i] & 0xc0 == 0x80 {
        due := due - 1;
      } else if due != 0 && buf[i] & 0xc0 != 0x80 {
        return 0;
      } else {
        due := CountOnes(buf[i]);
        if due > 6 { return 0; }
        if due < 2 { return 0; }
        due := due - 1;
      }
      i := i + 1;
    }
    if due != 0 { return 0; }
    return 1;
  }
}
