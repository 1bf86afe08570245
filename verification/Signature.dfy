/** Matching the type signature of a message against the argument table of a method. */
module Signature {

  function Joined(args: seq<string>): string {
    if args == [] then [] else args[0] + Joined(args[1..])
  }

  /** How far two strings agree. */
  function Common(p: string, s: string): (n: nat)
    ensures n <= |p| && n <= |s| && p[..n] == s[..n]
    ensures n < |p| && n < |s| ==> p[n] != s[n]
  {
    if p == "" || s == "" || p[0] != s[0] then 0 else 1 + Common(p[1..], s[1..])
  }

  lemma {:induction false} CommonIs(p: string, s: string, n: nat)
    requires n <= |p| && n <= |s| && (forall i :: 0 <= i < n ==> p[i] == s[i])
    requires n == |p| || n == |s| || p[n] != s[n]
    ensures Common(p, s) == n
  {
    if n > 0 { CommonIs(p[1..], s[1..], n - 1); }
  }

  /** The inner loop: both pointers advance while neither string ends; false when two characters differ. */
  method Match(p: string, sig: string, at: nat) returns (same: bool, n: nat)
    requires at <= |sig|
    ensures n == Common(p, sig[at..]) && (same <==> n == |p| || n == |sig| - at)
  {
    n := 0;
    same := true;
    while at + n < |sig| && n < |p|
      invariant n <= |p| && at + n <= |sig| && forall i :: 0 <= i < n ==> p[i] == sig[at + i]
    {
      if p[n] != sig[at + n] {
        CommonIs(p, sig[at..], n);
        same := false;
        return;
      }
      n := n + 1;
    }
    CommonIs(p, sig[at..], n);
  }

  lemma {:induction false} Shorter(args: seq<string>, sig: string)
    requires args != [] && Common(args[0], sig) < |args[0]|
    ensures Joined(args) != sig
  {
    var n := Common(args[0], sig);
    assert n < |sig| ==> Joined(args)[n] == args[0][n];
  }

  lemma {:induction false} Whole(args: seq<string>, sig: string)
    requires args != [] && Common(args[0], sig) == |args[0]|
    ensures Joined(args) == sig <==> Joined(args[1..]) == sig[|args[0]|..]
  {
    assert sig == args[0] + sig[|args[0]|..];
    if Joined(args) == sig { assert Joined(args)[|args[0]|..] == Joined(args[1..]); }
  }

  lemma {:induction false} NothingJoined(args: seq<string>)
    requires Joined(args) == "" && args != []
    ensures args[|args| - 1] == ""
  {
    if |args| > 1 { NothingJoined(args[1..]); }
  }

  /** True exactly when the message signature is the concatenation of the argument signatures, for a table whose last
      signature is not empty; a table that ends in an empty one matches no message. */
  method ArgsHaveSignature(args: seq<string>, sig: string) returns (ok: bool)
    ensures ok <==> Joined(args) == sig && (args != [] ==> args[|args| - 1] != "")
  {
    var i: nat, at: nat := 0, 0;
    var leftover := false;
    assert args[0..] == args && sig[0..] == sig;
    while i < |args| && at < |sig|
      invariant i <= |args| && at <= |sig| && (leftover ==> at == |sig| && Joined(args) != sig)
      invariant !leftover ==> (Joined(args) == sig <==> Joined(args[i..]) == sig[at..])
      invariant 0 < i && at == |sig| ==> args[i - 1] != ""
      decreases |args| - i
    {
      var same, n := Match(args[i], sig, at);
      ghost var rest := args[i..];
      assert rest[0] == args[i] && rest[1..] == args[i + 1..];
      assert sig[at..][n..] == sig[at + n..];
      if n < |args[i]| { Shorter(rest, sig[at..]); } else { Whole(rest, sig[at..]); }
      if !same { return false; }
      leftover := n < |args[i]|;
      at := at + n;
      i := i + 1;
    }
    if i < |args| && !leftover && at == |sig| && Joined(args[i..]) == "" { NothingJoined(args[i..]); }
    ok := !(at < |sig| || leftover || i < |args|);
  }
}
