/** What the two decoders of network names make of any string: it falls into one sequence of single bytes and escapes, read
    from the left, and each of these becomes one byte.
 */
module SsidTokens {
  import opened Bus
  import opened Bytes
  import opened Ssid

  ghost function Joined(tokens: seq<seq<Byte>>): seq<Byte> {
    if tokens == [] then [] else tokens[0] + Joined(tokens[1..])
  }

  // ---- quotes and backslashes ----

  /** A backslash with the quote or backslash after it stands for the latter; any other byte stands for itself. */
  ghost predicate SlashToken(t: seq<Byte>, b: Byte) {
    t == [b] || (t == [BACKSLASH, b] && (b == BACKSLASH || b == QUOTE))
  }

  /** A backslash alone has no quote or backslash after it. */
  ghost predicate SlashAlone(tokens: seq<seq<Byte>>, i: nat)
    requires i < |tokens|
  {
    tokens[i] == [BACKSLASH] && i + 1 < |tokens| && tokens[i + 1] != [] ==> tokens[i + 1][0] != BACKSLASH && tokens[i + 1][0] != QUOTE
  }

  ghost predicate Unescapes(tokens: seq<seq<Byte>>, s: seq<Byte>, r: seq<Byte>) {
    && Joined(tokens) == s && |tokens| == |r|
    && forall i :: 0 <= i < |r| ==> SlashToken(tokens[i], r[i]) && SlashAlone(tokens, i)
  }

  lemma SlashMore(tokens: seq<seq<Byte>>, s: seq<Byte>, r: seq<Byte>, t: seq<Byte>, b: Byte)
    requires Unescapes(tokens, s, r) && SlashToken(t, b) && (t == [BACKSLASH] && s != [] ==> s[0] != BACKSLASH && s[0] != QUOTE)
    ensures Unescapes([t] + tokens, t + s, [b] + r)
  {
    var more := [t] + tokens;
    assert more[1..] == tokens;
    forall i | 0 <= i < |r| + 1 ensures SlashToken(more[i], ([b] + r)[i]) && SlashAlone(more, i) {
      if i > 0 {
        assert SlashAlone(tokens, i - 1);
      } else if tokens != [] {
        assert SlashToken(tokens[0], r[0]);
        assert s[0] == tokens[0][0];
      }
    }
  }

  /** The first decoder, on every string. */
  lemma {:induction false} UnescapeTokens(s: seq<Byte>) returns (tokens: seq<seq<Byte>>)
    ensures Unescapes(tokens, s, Unescape(s))
    decreases |s|
  {
    if s == [] {
      tokens := [];
    } else {
      var n := if Escaped(s) then 2 else 1;
      var rest := UnescapeTokens(s[n..]);
      var b := s[n - 1];
      assert s[..n] == if n == 2 then [BACKSLASH, b] else [b];
      SlashMore(rest, s[n..], Unescape(s[n..]), s[..n], b);
      assert s[..n] + s[n..] == s;
      tokens := [s[..n]] + rest;
    }
  }

  // ---- hexadecimal escapes ----

  const LOWER: seq<Byte> := [48, 49, 50, 51, 52, 53, 54, 55, 56, 57, 97, 98, 99, 100, 101, 102]
  const UPPER: seq<Byte> := [48, 49, 50, 51, 52, 53, 54, 55, 56, 57, 65, 66, 67, 68, 69, 70]

  /** The digit has the value, in either case. */
  ghost predicate IsDigit(c: Byte, d: int) {
    0 <= d < 16 && (c == LOWER[d] || c == UPPER[d])
  }

  lemma DigitIff(c: Byte, d: int)
    ensures DigitValue(c) == Some(d) <==> IsDigit(c, d)
  {
    if 0 <= d < 16 {
      if d < 10 { DecimalDigit(d); } else { LetterDigit(d); }
    }
  }

  lemma DecimalDigit(d: int)
    requires 0 <= d < 10
    ensures LOWER[d] == 48 + d && UPPER[d] == 48 + d
  {
  }

  lemma LetterDigit(d: int)
    requires 10 <= d < 16
    ensures LOWER[d] == 87 + d && UPPER[d] == 55 + d
  {
  }

  /** The number that two characters denote, up to the first that is no digit. */
  ghost predicate Denotes(a: Byte, b: Byte, v: Byte) {
    || ((forall d :: !IsDigit(a, d)) && v == 0)
    || ((forall d :: !IsDigit(b, d)) && IsDigit(a, v))
    || (exists d, e :: IsDigit(a, d) && IsDigit(b, e) && v == 16 * d + e)
  }

  lemma HexDenotes(a: Byte, b: Byte)
    ensures Denotes(a, b, HexValue(a, b))
  {
    forall d ensures (DigitValue(a) == Some(d) <==> IsDigit(a, d)) && (DigitValue(b) == Some(d) <==> IsDigit(b, d)) {
      DigitIff(a, d);
      DigitIff(b, d);
    }
    if DigitValue(a).Some? && DigitValue(b).Some? {
      assert IsDigit(a, DigitValue(a).value) && IsDigit(b, DigitValue(b).value);
    }
  }

  /** A backslash with an x and two characters stands for the number they denote; any other byte stands for itself. */
  ghost predicate HexToken(t: seq<Byte>, v: Byte) {
    t == [v] || (|t| == 4 && t[0] == BACKSLASH && t[1] == X && Denotes(t[2], t[3], v))
  }

  ghost predicate HexAlone(tokens: seq<seq<Byte>>, i: nat)
    requires i < |tokens|
  {
    tokens[i] == [BACKSLASH] && i + 1 < |tokens| && tokens[i + 1] != [] ==> tokens[i + 1][0] != X
  }

  ghost predicate Converts(tokens: seq<seq<Byte>>, s: seq<Byte>, r: seq<Byte>) {
    && Joined(tokens) == s && |tokens| == |r|
    && forall i :: 0 <= i < |r| ==> HexToken(tokens[i], r[i]) && HexAlone(tokens, i)
  }

  lemma HexMore(tokens: seq<seq<Byte>>, s: seq<Byte>, r: seq<Byte>, t: seq<Byte>, v: Byte)
    requires Converts(tokens, s, r) && HexToken(t, v) && (t == [BACKSLASH] && s != [] ==> s[0] != X)
    ensures Converts([t] + tokens, t + s, [v] + r)
  {
    var more := [t] + tokens;
    assert more[1..] == tokens;
    forall i | 0 <= i < |r| + 1 ensures HexToken(more[i], ([v] + r)[i]) && HexAlone(more, i) {
      if i > 0 {
        assert HexAlone(tokens, i - 1);
      } else if tokens != [] {
        assert HexToken(tokens[0], r[0]);
        assert s[0] == tokens[0][0];
      }
    }
  }

  /** The second decoder, on every string that does not end within an escape. */
  lemma {:induction false} ConvertTokens(s: seq<Byte>) returns (tokens: seq<seq<Byte>>)
    requires Complete(s)
    ensures Converts(tokens, s, Convert(s))
    decreases |s|
  {
    if s == [] {
      tokens := [];
    } else {
      ConvertStep(s);
      var n := if Hex(s) then 4 else 1;
      var rest := ConvertTokens(s[n..]);
      var v := if n == 4 then HexValue(s[2], s[3]) else s[0];
      if n == 4 { HexDenotes(s[2], s[3]); } else { assert s[..1] == [v]; }
      HexMore(rest, s[n..], Convert(s[n..]), s[..n], v);
      assert s[..n] + s[n..] == s;
      tokens := [s[..n]] + rest;
    }
  }

  /** Any other string ends within an escape. */
  lemma {:induction false} CutShort(s: seq<Byte>) returns (tokens: seq<seq<Byte>>, r: seq<Byte>, tail: seq<Byte>)
    requires !Complete(s)
    ensures |tail| == 2 || |tail| == 3
    ensures tail[0] == BACKSLASH && tail[1] == X && Joined(tokens) + tail == s && |tokens| == |r|
    ensures forall i :: 0 <= i < |r| ==> HexToken(tokens[i], r[i]) && HexAlone(tokens, i)
    decreases |s|
  {
    if Hex(s) && |s| < 4 {
      tokens, r, tail := [], [], s;
    } else {
      var n := if Hex(s) then 4 else 1;
      var rest, q, e := CutShort(s[n..]);
      var v := if n == 4 then HexValue(s[2], s[3]) else s[0];
      if n == 4 { HexDenotes(s[2], s[3]); } else { assert s[..1] == [v]; }
      FirstIsNext(rest, q, e, s[n..]);
      HexMore(rest, Joined(rest), q, s[..n], v);
      tokens, r, tail := [s[..n]] + rest, [v] + q, e;
      assert s[..n] + Joined(rest) + e == s;
    }
  }

  lemma FirstIsNext(tokens: seq<seq<Byte>>, r: seq<Byte>, tail: seq<Byte>, s: seq<Byte>)
    requires Joined(tokens) + tail == s && |tokens| == |r| && forall i :: 0 <= i < |r| ==> HexToken(tokens[i], r[i])
    ensures Joined(tokens) != [] ==> s != [] && s[0] == Joined(tokens)[0]
  {
  }
}
