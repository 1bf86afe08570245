/** Two decoders for the network names that wpa_supplicant prints: one undoes backslash escapes of quotes and
    backslashes, the other turns hexadecimal escapes into bytes. The service runs them in both orders.
 */
module Ssid {
  import opened Bus
  import opened Bytes

  const QUOTE: Byte := 34
  const BACKSLASH: Byte := 92
  const X: Byte := 120

  // ---- the decoders ----

  predicate Escaped(s: seq<Byte>) {
    |s| > 1 && s[0] == BACKSLASH && (s[1] == BACKSLASH || s[1] == QUOTE)
  }

  function Unescape(s: seq<Byte>): (r: seq<Byte>)
    ensures |r| <= |s|
  {
    if s == [] then []
    else if Escaped(s) then [s[1]] + Unescape(s[2..])
    else [s[0]] + Unescape(s[1..])
  }

  function DigitValue(c: Byte): Option<int> {
    if 48 <= c <= 57 then Some(c - 48)
    else if 97 <= c <= 102 then Some(c - 87)
    else if 65 <= c <= 70 then Some(c - 55)
    else None
  }

  /** The number that strtoul reads from "0x" and two characters: it stops at what is not a digit. */
  function HexValue(a: Byte, b: Byte): (r: Byte)
    ensures DigitValue(a).None? ==> r == 0
  {
    var x := DigitValue(a);
    var y := DigitValue(b);
    if x.None? then 0 else if y.None? then x.value else 16 * x.value + y.value
  }

  predicate Hex(s: seq<Byte>) {
    |s| > 1 && s[0] == BACKSLASH && s[1] == X
  }

  /** Every hexadecimal escape the decoder meets has its two characters; it would run past the end otherwise. */
  predicate Complete(s: seq<Byte>) {
    s == [] || if Hex(s) then |s| >= 4 && Complete(s[4..]) else Complete(s[1..])
  }

  function Convert(s: seq<Byte>): (r: seq<Byte>)
    requires Complete(s)
    ensures |r| <= |s|
  {
    if s == [] then []
    else if Hex(s) then [HexValue(s[2], s[3])] + Convert(s[4..])
    else [s[0]] + Convert(s[1..])
  }

  /** What a reader of a C string sees. */
  function Terminated(s: seq<Byte>): seq<Byte> {
    if s == [] || s[0] == 0 then [] else [s[0]] + Terminated(s[1..])
  }

  lemma UnescapeStep(s: seq<Byte>)
    requires s != []
    ensures Unescape(s) == if Escaped(s) then [s[1]] + Unescape(s[2..]) else [s[0]] + Unescape(s[1..])
  {
  }

  method RemoveEscapeCharacter(buf: seq<Byte>, dst: array<Byte>) returns (n: nat)
    requires dst.Length > |buf|
    modifies dst
    ensures n == |Unescape(buf)| && dst[..n] == Unescape(buf) && dst[n] == 0
  {
    var at := 0;
    n := 0;
    while at < |buf|
      invariant at <= |buf| && n <= at && Unescape(buf) == dst[..n] + Unescape(buf[at..])
      decreases |buf| - at
    {
      UnescapeStep(buf[at..]);
      var skip := if buf[at] == BACKSLASH && at + 1 < |buf| && (buf[at + 1] == BACKSLASH || buf[at + 1] == QUOTE) then 1 else 0;
      ghost var done := dst[..n];
      assert buf[at..][skip + 1..] == buf[at + skip + 1..];
      dst[n] := buf[at + skip];
      OneWritten(done, dst[n], Unescape(buf[at + skip + 1..]));
      at := at + skip + 1;
      n := n + 1;
      assert dst[..n] == done + [dst[n - 1]];
    }
    dst[n] := 0;
  }

  lemma ConvertStep(s: seq<Byte>)
    requires s != [] && Complete(s)
    ensures if Hex(s) then |s| >= 4 && Complete(s[4..]) && Convert(s) == [HexValue(s[2], s[3])] + Convert(s[4..])
            else Complete(s[1..]) && Convert(s) == [s[0]] + Convert(s[1..])
  {
  }

  lemma OneWritten(done: seq<Byte>, b: Byte, rest: seq<Byte>)
    ensures done + ([b] + rest) == done + [b] + rest
  {
  }

  /** The number of bytes written, or nothing when the decoder has run past the end of the string. */
  method SpecCharConvers(buf: seq<Byte>, dst: array<Byte>) returns (r: Option<nat>)
    requires dst.Length > |buf|
    modifies dst
    ensures r.None? <==> !Complete(buf)
    ensures r.Some? ==> r.value == |Convert(buf)| && dst[..r.value] == Convert(buf) && dst[r.value] == 0
  {
    var at, n := 0, 0;
    while at < |buf|
      invariant at <= |buf| && n <= at && (Complete(buf) <==> Complete(buf[at..]))
      invariant Complete(buf) ==> Convert(buf) == dst[..n] + Convert(buf[at..])
      decreases |buf| - at
    {
      if Complete(buf[at..]) { ConvertStep(buf[at..]); }
      var hex := buf[at] == BACKSLASH && at + 1 < |buf| && buf[at + 1] == X;
      if hex && at + 3 >= |buf| { return None; }
      var skip := if hex then 4 else 1;
      ghost var done := dst[..n];
      assert buf[at..][skip..] == buf[at + skip..];
      dst[n] := if hex then HexValue(buf[at + 2], buf[at + 3]) else buf[at];
      if Complete(buf) { OneWritten(done, dst[n], Convert(buf[at + skip..])); }
      at := at + skip;
      n := n + 1;
      assert dst[..n] == done + [dst[n - 1]];
    }
    dst[n] := 0;
    return Some(n);
  }

  // ---- the printed form ----

  function Digit(d: int): Byte
    requires 0 <= d < 16
  {
    if d < 10 then 48 + d else 87 + d
  }

  /** Escape, tab, newline and carriage return have escapes of their own, which neither decoder knows. */
  predicate Control(b: Byte) {
    b == 27 || b == 10 || b == 13 || b == 9
  }

  function ControlLetter(b: Byte): Byte {
    if b == 27 then 101 else if b == 10 then 110 else if b == 13 then 114 else 116
  }

  /** How wpa_supplicant prints one byte of a network name. */
  function Printed(b: Byte): seq<Byte> {
    if b == QUOTE || b == BACKSLASH then [BACKSLASH, b]
    else if Control(b) then [BACKSLASH, ControlLetter(b)]
    else if 32 <= b <= 126 then [b]
    else [BACKSLASH, X, Digit(b / 16), Digit(b % 16)]
  }

  function Print(ssid: seq<Byte>): seq<Byte> {
    if ssid == [] then [] else Printed(ssid[0]) + Print(ssid[1..])
  }

  /** A name without NUL and control bytes with escapes of their own, and with no backslash before an x. */
  predicate Plain(ssid: seq<Byte>) {
    && (forall i :: 0 <= i < |ssid| ==> ssid[i] != 0 && !Control(ssid[i]))
    && (forall i :: 0 <= i < |ssid| - 1 ==> !(ssid[i] == BACKSLASH && ssid[i + 1] == X))
  }

  /** Half decoded, quotes and backslashes first or hexadecimal escapes first. */
  function HexLeft(b: Byte): seq<Byte> {
    if b == QUOTE || b == BACKSLASH then [b] else Printed(b)
  }

  function SlashLeft(b: Byte): seq<Byte> {
    if b == QUOTE || b == BACKSLASH then [BACKSLASH, b] else [b]
  }

  function HexLeftAll(ssid: seq<Byte>): seq<Byte> {
    if ssid == [] then [] else HexLeft(ssid[0]) + HexLeftAll(ssid[1..])
  }

  function SlashLeftAll(ssid: seq<Byte>): seq<Byte> {
    if ssid == [] then [] else SlashLeft(ssid[0]) + SlashLeftAll(ssid[1..])
  }

  lemma PlainTail(ssid: seq<Byte>)
    requires Plain(ssid) && ssid != []
    ensures Plain(ssid[1..]) && ssid[0] != 0 && !Control(ssid[0])
    ensures ssid[0] == BACKSLASH ==> ssid[1..] == [] || ssid[1..][0] != X
  {
  }

  lemma DigitBack(d: int)
    requires 0 <= d < 16
    ensures DigitValue(Digit(d)) == Some(d) && Digit(d) != BACKSLASH && Digit(d) != QUOTE && Digit(d) != 0
  {
  }

  /** Characters that are no backslash pass through the first decoder. */
  lemma {:induction false} UnescapePlain(a: seq<Byte>, t: seq<Byte>)
    requires forall i :: 0 <= i < |a| ==> a[i] != BACKSLASH
    ensures Unescape(a + t) == a + Unescape(t)
  {
    if a == [] {
      assert a + t == t;
    } else {
      UnescapePlain(a[1..], t);
      assert (a + t)[1..] == a[1..] + t;
    }
  }

  lemma UnescapeToken(b: Byte, t: seq<Byte>)
    ensures Unescape(Printed(b) + t) == HexLeft(b) + Unescape(t)
  {
    var s := Printed(b) + t;
    if b == QUOTE || b == BACKSLASH {
      assert s[2..] == t;
    } else if Control(b) || !(32 <= b <= 126) {
      var a := Printed(b)[1..];
      if !Control(b) {
        DigitBack(b / 16);
        DigitBack(b % 16);
      }
      assert s[1..] == a + t && !Escaped(s);
      UnescapePlain(a, t);
    } else {
      UnescapePlain([b], t);
    }
  }

  lemma {:induction false} UnescapePrinted(ssid: seq<Byte>)
    ensures Unescape(Print(ssid)) == HexLeftAll(ssid)
  {
    if ssid != [] {
      UnescapeToken(ssid[0], Print(ssid[1..]));
      UnescapePrinted(ssid[1..]);
    }
  }

  lemma {:induction false} UnescapeSlash(ssid: seq<Byte>)
    ensures Unescape(SlashLeftAll(ssid)) == ssid
  {
    if ssid != [] {
      var b := ssid[0];
      var t := SlashLeftAll(ssid[1..]);
      UnescapeSlash(ssid[1..]);
      if b == QUOTE || b == BACKSLASH {
        assert SlashLeftAll(ssid)[2..] == t;
      } else {
        assert SlashLeftAll(ssid)[1..] == t;
      }
    }
  }

  /** One byte through the second decoder: a character that does not start a hexadecimal escape. */
  lemma ConvertLiteral(b: Byte, t: seq<Byte>)
    requires Complete(t) && (b == BACKSLASH ==> t == [] || t[0] != X)
    ensures Complete([b] + t) && Convert([b] + t) == [b] + Convert(t)
  {
    assert ([b] + t)[1..] == t;
  }

  lemma ConvertHex(b: Byte, t: seq<Byte>)
    requires Complete(t)
    ensures var s := [BACKSLASH, X, Digit(b / 16), Digit(b % 16)] + t; Complete(s) && Convert(s) == [b] + Convert(t)
  {
    var s := [BACKSLASH, X, Digit(b / 16), Digit(b % 16)] + t;
    DigitBack(b / 16);
    DigitBack(b % 16);
    assert s[4..] == t;
  }

  lemma {:induction false} ConvertHexLeft(ssid: seq<Byte>)
    requires Plain(ssid)
    ensures Complete(HexLeftAll(ssid)) && Convert(HexLeftAll(ssid)) == ssid
    ensures ssid != [] ==> HexLeftAll(ssid) != [] && (HexLeftAll(ssid)[0] == X ==> ssid[0] == X)
  {
    if ssid != [] {
      var b := ssid[0];
      var t := HexLeftAll(ssid[1..]);
      PlainTail(ssid);
      ConvertHexLeft(ssid[1..]);
      if |HexLeft(b)| == 1 { ConvertLiteral(b, t); } else { ConvertHex(b, t); }
    }
  }

  lemma ConvertPair(b: Byte, t: seq<Byte>)
    requires Complete(t) && (b == QUOTE || b == BACKSLASH) && (t != [] ==> t[0] != X || b == QUOTE)
    ensures Complete([BACKSLASH, b] + t) && Convert([BACKSLASH, b] + t) == [BACKSLASH, b] + Convert(t)
  {
    ConvertLiteral(b, t);
    ConvertLiteral(BACKSLASH, [b] + t);
    assert [BACKSLASH, b] + t == [BACKSLASH] + ([b] + t);
    assert [BACKSLASH, b] + Convert(t) == [BACKSLASH] + ([b] + Convert(t));
  }

  lemma {:induction false} ConvertPrinted(ssid: seq<Byte>)
    requires Plain(ssid)
    ensures Complete(Print(ssid)) && Convert(Print(ssid)) == SlashLeftAll(ssid)
    ensures ssid != [] ==> Print(ssid) != [] && (Print(ssid)[0] == X ==> ssid[0] == X)
  {
    if ssid != [] {
      var b := ssid[0];
      var t := Print(ssid[1..]);
      PlainTail(ssid);
      ConvertPrinted(ssid[1..]);
      if b == QUOTE || b == BACKSLASH {
        ConvertPair(b, t);
      } else if |Printed(b)| == 1 {
        ConvertLiteral(b, t);
      } else {
        ConvertHex(b, t);
      }
    }
  }

  lemma {:induction false} NoTerminator(s: seq<Byte>)
    requires forall i :: 0 <= i < |s| ==> s[i] != 0
    ensures Terminated(s) == s
  {
    if s != [] { NoTerminator(s[1..]); }
  }

  lemma {:induction false} SlashLeftNonzero(ssid: seq<Byte>)
    requires Plain(ssid)
    ensures forall i :: 0 <= i < |SlashLeftAll(ssid)| ==> SlashLeftAll(ssid)[i] != 0
  {
    if ssid != [] {
      PlainTail(ssid);
      SlashLeftNonzero(ssid[1..]);
    }
  }

  // ---- no other name comes back ----

  /** The first byte, when what follows it is decoded to d. */
  lemma FirstUnescaped(b: Byte, d: seq<Byte>)
    requires b != BACKSLASH
    ensures Unescape([b] + d) == [b] + Unescape(d)
  {
    assert ([b] + d)[1..] == d;
  }

  lemma FirstTerminated(b: Byte, d: seq<Byte>)
    ensures Terminated([b] + d) == if b == 0 then [] else [b] + Terminated(d)
  {
    assert ([b] + d)[1..] == d;
  }

  /** Hexadecimal escapes first. */
  function HexFirst(s: seq<Byte>): seq<Byte>
    requires Complete(s)
  {
    Unescape(Terminated(Convert(s)))
  }

  predicate BackslashX(ssid: seq<Byte>) {
    |ssid| > 1 && ssid[0] == BACKSLASH && ssid[1] == X
  }

  lemma PrintBackslashX(ssid: seq<Byte>)
    requires BackslashX(ssid)
    ensures Print(ssid) == [BACKSLASH, BACKSLASH, X] + Print(ssid[2..])
  {
    assert ssid[1..][1..] == ssid[2..];
    assert Print(ssid[1..]) == Printed(ssid[1..][0]) + Print(ssid[2..]);
    assert Printed(X) == [X];
  }

  /** A backslash before an x: the second half of its escape is read together with the x. */
  lemma HexFirstBackslashX(ssid: seq<Byte>)
    requires BackslashX(ssid) && Complete(Print(ssid))
    ensures |Print(ssid)| >= 5 && Print(ssid)[..3] == [BACKSLASH, BACKSLASH, X] && Complete(Print(ssid)[5..])
    ensures var s := Print(ssid); var v := HexValue(s[3], s[4]); var rest := HexFirst(s[5..]);
            HexFirst(s) == if v == 0 then [BACKSLASH]
                           else if v == BACKSLASH || v == QUOTE then [v] + rest
                           else [BACKSLASH, v] + rest
  {
    var s := Print(ssid);
    PrintBackslashX(ssid);
    SecondIsHex(s, Print(ssid[2..]));
    AfterBackslash(HexValue(s[3], s[4]), Convert(s[5..]));
  }

  lemma SecondIsHex(s: seq<Byte>, t: seq<Byte>)
    requires s == [BACKSLASH, BACKSLASH, X] + t && Complete(s)
    ensures |s| >= 5 && s[..3] == [BACKSLASH, BACKSLASH, X] && Complete(s[5..])
    ensures Convert(s) == [BACKSLASH] + ([HexValue(s[3], s[4])] + Convert(s[5..]))
  {
    ConvertStep(s);
    ConvertStep(s[1..]);
    assert s[1..][4..] == s[5..];
  }

  lemma AfterBackslash(v: Byte, d: seq<Byte>)
    ensures var rest := Unescape(Terminated(d));
            Unescape(Terminated([BACKSLASH] + ([v] + d))) == if v == 0 then [BACKSLASH]
                                                             else if v == BACKSLASH || v == QUOTE then [v] + rest
                                                             else [BACKSLASH, v] + rest
  {
    FirstTerminated(BACKSLASH, [v] + d);
    FirstTerminated(v, d);
    if v == BACKSLASH || v == QUOTE {
      EscapedHead(v, d);
    } else if v != 0 {
      var u := [BACKSLASH] + ([v] + Terminated(d));
      assert !Escaped(u) && u[1..] == [v] + Terminated(d);
      FirstUnescaped(v, Terminated(d));
      TwoThen(BACKSLASH, v, Unescape(Terminated(d)));
    } else {
      assert [BACKSLASH][1..] == [];
    }
  }

  lemma TwoThen(a: Byte, b: Byte, t: seq<Byte>)
    ensures [a, b] + t == [a] + ([b] + t)
  {
  }

  /** Any other first byte. */
  lemma HexFirstHead(ssid: seq<Byte>)
    requires ssid != [] && Complete(Print(ssid)) && !BackslashX(ssid)
    ensures Complete(Print(ssid[1..]))
    ensures var b := ssid[0]; var rest := HexFirst(Print(ssid[1..]));
            HexFirst(Print(ssid)) == if b == 0 then []
                                     else if Control(b) then [BACKSLASH, ControlLetter(b)] + rest
                                     else [b] + rest
  {
    var b := ssid[0];
    var t := Print(ssid[1..]);
    HexFirstToken(b, t, ssid[1..]);
    if b == QUOTE || b == BACKSLASH {
      EscapedHead(b, Convert(t));
    } else if Control(b) {
      ControlHead(b, Convert(t));
    } else {
      FirstTerminated(b, Convert(t));
      if b != 0 { FirstUnescaped(b, Terminated(Convert(t))); }
    }
  }

  lemma EscapedHead(b: Byte, d: seq<Byte>)
    requires b == QUOTE || b == BACKSLASH
    ensures Unescape(Terminated([BACKSLASH] + ([b] + d))) == [b] + Unescape(Terminated(d))
  {
    FirstTerminated(BACKSLASH, [b] + d);
    FirstTerminated(b, d);
    var u := [BACKSLASH] + ([b] + Terminated(d));
    assert Escaped(u) && u[2..] == Terminated(d);
  }

  lemma ControlHead(b: Byte, d: seq<Byte>)
    requires Control(b)
    ensures Unescape(Terminated([BACKSLASH] + ([ControlLetter(b)] + d)))
         == [BACKSLASH, ControlLetter(b)] + Unescape(Terminated(d))
  {
    var c := ControlLetter(b);
    FirstTerminated(BACKSLASH, [c] + d);
    FirstTerminated(c, d);
    var u := [BACKSLASH] + ([c] + Terminated(d));
    assert !Escaped(u) && u[1..] == [c] + Terminated(d);
    FirstUnescaped(c, Terminated(d));
    TwoThen(BACKSLASH, c, Unescape(Terminated(d)));
  }

  lemma {:induction false} PrintHead(ssid: seq<Byte>)
    ensures ssid != [] ==> Print(ssid) != [] && (Print(ssid)[0] == X <==> ssid[0] == X)
  {
  }

  lemma HexFirstToken(b: Byte, t: seq<Byte>, rest: seq<Byte>)
    requires t == Print(rest) && Complete(Printed(b) + t) && !(b == BACKSLASH && rest != [] && rest[0] == X)
    ensures Complete(t)
    ensures Convert(Printed(b) + t) ==
            if b == QUOTE || b == BACKSLASH then [BACKSLASH] + ([b] + Convert(t))
            else if Control(b) then [BACKSLASH] + ([ControlLetter(b)] + Convert(t))
            else [b] + Convert(t)
  {
    var s := Printed(b) + t;
    PrintHead(rest);
    if |Printed(b)| == 1 {
      assert !Hex(s) && s[1..] == t;
    } else if |Printed(b)| == 2 {
      assert !Hex(s) && s[1..] == [s[1]] + t && !Hex(s[1..]) && s[1..][1..] == t;
    } else {
      assert Hex(s) && s[4..] == t;
      ConvertHex(b, t);
    }
  }

  predicate Ordinary(b: Byte) {
    32 <= b <= 126 && b != QUOTE && b != BACKSLASH
  }

  /** Decoding does not put ordinary characters in front. */
  lemma {:induction false} NothingInFront(w: seq<Byte>, r: seq<Byte>)
    requires w != [] && (forall i :: 0 <= i < |w| ==> Ordinary(w[i])) && Complete(Print(r))
    ensures HexFirst(Print(r)) != w + r
    decreases |r|
  {
    if r == [] {
      assert HexFirst(Print(r)) == [];
    } else if BackslashX(r) {
      HexFirstBackslashX(r);
      assert (w + r)[0] == w[0];
    } else {
      HexFirstHead(r);
      assert (w + r)[0] == w[0];
      if r[0] != 0 && !Control(r[0]) {
        if r[0] == w[0] { NothingInFront(w[1..] + [w[0]], r[1..]); }
        Rotated(w, r, HexFirst(Print(r)));
      }
    }
  }

  /** What stands in front moves on by one. */
  lemma Rotated(w: seq<Byte>, r: seq<Byte>, h: seq<Byte>)
    requires w != [] && r != [] && (h != [] && h[0] == r[0] == w[0] ==> h[1..] != w[1..] + [w[0]] + r[1..])
    requires h != [] ==> h[0] == r[0]
    ensures h != w + r
  {
    assert (w + r)[0] == w[0] && (w + r)[1..] == w[1..] + r;
    assert w[1..] + [r[0]] + r[1..] == w[1..] + r;
  }

  lemma HexPair(v: Byte, a: Byte, b: Byte)
    requires v == HexValue(a, b) && v > 15
    ensures DigitValue(a).Some? && DigitValue(b).Some? && v == 16 * DigitValue(a).value + DigitValue(b).value
  {
  }

  lemma DigitIsLiteral(r: seq<Byte>)
    requires Print(r) != [] && DigitValue(Print(r)[0]).Some?
    ensures r != [] && Print(r)[0] == r[0] && Ordinary(r[0]) && Print(r)[1..] == Print(r[1..])
    ensures |Print(r)| > 1 ==> Print(r[1..]) != [] && Print(r)[1] == Print(r[1..])[0]
  {
    assert Print(r) == Printed(r[0]) + Print(r[1..]);
    assert |Printed(r[0])| == 1;
  }

  /** Two hexadecimal digits in the printed form are the characters of the name itself. */
  lemma DigitsAreLiteral(r: seq<Byte>)
    requires |Print(r)| >= 2 && DigitValue(Print(r)[0]).Some? && DigitValue(Print(r)[1]).Some?
    ensures |r| >= 2 && Print(r)[..2] == r[..2] && Print(r)[2..] == Print(r[2..]) && Ordinary(r[0]) && Ordinary(r[1])
  {
    DigitIsLiteral(r);
    DigitIsLiteral(r[1..]);
    assert r[1..][1..] == r[2..];
    assert Print(r)[2..] == Print(r[1..])[1..];
    assert Print(r)[..2] == [Print(r)[0], Print(r)[1]];
  }

  lemma HexFirstNotX(ssid: seq<Byte>)
    requires BackslashX(ssid) && Complete(Print(ssid))
    ensures HexFirst(Print(ssid)) != ssid
  {
    HexFirstBackslashX(ssid);
    PrintBackslashX(ssid);
    var s := Print(ssid);
    var v := HexValue(s[3], s[4]);
    var r := ssid[2..];
    assert s[3..] == Print(r);
    if v == BACKSLASH || v == X {
      HexPair(v, s[3], s[4]);
      assert s[3..][0] == s[3] && s[3..][1] == s[4];
      DigitsAreLiteral(r);
      assert s[3..][2..] == s[5..];
      LongerName(ssid, v);
    } else if HexFirst(s) == ssid {
      assert ssid[0] == BACKSLASH && ssid[1] == X;
    }
  }

  lemma LongerName(ssid: seq<Byte>, v: Byte)
    requires BackslashX(ssid) && (v == BACKSLASH || v == X) && |ssid| >= 4 && Ordinary(ssid[2]) && Ordinary(ssid[3])
    requires Complete(Print(ssid[2..][2..]))
    ensures (if v == BACKSLASH then [v] else [BACKSLASH, v]) + HexFirst(Print(ssid[2..][2..])) != ssid
  {
    var r := ssid[2..][2..];
    var p := if v == BACKSLASH then [BACKSLASH] else [BACKSLASH, X];
    var w := if v == BACKSLASH then [X, ssid[2], ssid[3]] else [ssid[2], ssid[3]];
    NothingInFront(w, r);
    assert ssid == p + (w + r);
    PrefixDiffers(p, HexFirst(Print(r)), w + r);
  }

  lemma PrefixDiffers(p: seq<Byte>, x: seq<Byte>, y: seq<Byte>)
    requires x != y
    ensures p + x != p + y
  {
    assert (p + x)[|p|..] == x && (p + y)[|p|..] == y;
  }

  lemma {:induction false} HexFirstOnlyPlain(ssid: seq<Byte>)
    requires Complete(Print(ssid)) && HexFirst(Print(ssid)) == ssid
    ensures Plain(ssid)
  {
    if ssid != [] {
      if BackslashX(ssid) {
        HexFirstNotX(ssid);
      } else {
        HexFirstHead(ssid);
        assert HexFirst(Print(ssid))[0] == ssid[0];
        assert HexFirst(Print(ssid))[1..] == HexFirst(Print(ssid[1..]));
        HexFirstOnlyPlain(ssid[1..]);
        assert forall i :: 0 < i < |ssid| ==> ssid[i] == ssid[1..][i - 1];
      }
    }
  }

  // ---- the other order ----

  /** Escapes of quotes and backslashes first. */
  predicate SlashFirstDefined(s: seq<Byte>) {
    Complete(Terminated(Unescape(s)))
  }

  function SlashFirst(s: seq<Byte>): seq<Byte>
    requires SlashFirstDefined(s)
  {
    Terminated(Convert(Terminated(Unescape(s))))
  }

  function Weight(s: seq<Byte>): nat {
    if s == [] then 0 else (if 32 <= s[0] <= 126 then 1 else 2) + Weight(s[1..])
  }

  predicate Printable(s: seq<Byte>) {
    forall i :: 0 <= i < |s| ==> 32 <= s[i] <= 126
  }

  lemma {:induction false} WeightConcat(a: seq<Byte>, b: seq<Byte>)
    ensures Weight(a + b) == Weight(a) + Weight(b)
  {
    if a == [] {
      assert a + b == b;
    } else {
      WeightConcat(a[1..], b);
      assert (a + b)[1..] == a[1..] + b;
    }
  }

  lemma HexLeftToken(b: Byte)
    ensures |HexLeft(b)| == 4 || (Printable(HexLeft(b)) && |HexLeft(b)| == Weight([b]))
    ensures |HexLeft(b)| == 4 ==> HexLeft(b)[..2] == [BACKSLASH, X] && Printable(HexLeft(b)) && Weight([b]) == 2
  {
    assert [b][1..] == [];
  }

  lemma WeightHead(b: Byte, d: seq<Byte>)
    ensures Weight([b] + d) == Weight([b]) + Weight(d)
  {
    WeightConcat([b], d);
  }

  /** Converting hexadecimal escapes does not make a half decoded name heavier, even when one of them starts in the left
      over characters u and swallows a part of the next. */
  lemma {:induction false} ConvertIsLighter(u: seq<Byte>, r: seq<Byte>)
    requires Printable(u) && Complete(u + HexLeftAll(r))
    ensures Weight(Convert(u + HexLeftAll(r))) <= |u| + Weight(r)
    decreases |r|, |u|
  {
    var s := u + HexLeftAll(r);
    if s == [] {
    } else if r != [] && |HexLeft(r[0])| < 4 && |u| < 4 {
      ShortToken(u, r);
      ConvertIsLighter(u + HexLeft(r[0]), r[1..]);
    } else if r != [] && u == [] {
      NoFront(HexLeftAll(r));
      WholeEscape(r);
      NoFront(HexLeftAll(r[1..]));
      ConvertIsLighter([], r[1..]);
    } else if !Hex(s) {
      assert s[1..] == u[1..] + HexLeftAll(r);
      WeightHead(s[0], Convert(s[1..]));
      ConvertIsLighter(u[1..], r);
    } else if |u| >= 4 {
      assert s[4..] == u[4..] + HexLeftAll(r);
      WeightHead(HexValue(s[2], s[3]), Convert(s[4..]));
      ConvertIsLighter(u[4..], r);
    } else {
      Swallowed(u, r);
      SwallowedToken(u, r);
      WeightHead(HexValue(s[2], s[3]), Convert(s[4..]));
      ConvertIsLighter(HexLeft(r[0])[4 - |u|..], r[1..]);
    }
  }

  lemma NoFront(t: seq<Byte>)
    ensures [] + t == t
  {
  }

  lemma {:induction false} ShortToken(u: seq<Byte>, r: seq<Byte>)
    requires r != [] && |HexLeft(r[0])| < 4 && Printable(u)
    ensures u + HexLeftAll(r) == (u + HexLeft(r[0])) + HexLeftAll(r[1..]) && Printable(u + HexLeft(r[0]))
    ensures |HexLeft(r[0])| + Weight(r[1..]) == Weight(r)
  {
    HexLeftToken(r[0]);
    WeightHead(r[0], r[1..]);
    assert r == [r[0]] + r[1..];
  }

  lemma {:induction false} SwallowedToken(u: seq<Byte>, r: seq<Byte>)
    requires r != [] && |HexLeft(r[0])| == 4 && 2 <= |u| < 4
    ensures (u + HexLeftAll(r))[4..] == HexLeft(r[0])[4 - |u|..] + HexLeftAll(r[1..])
    ensures Printable(HexLeft(r[0])[4 - |u|..]) && Weight(r) == 2 + Weight(r[1..])
  {
    HexLeftToken(r[0]);
    WeightHead(r[0], r[1..]);
    assert r == [r[0]] + r[1..];
  }

  lemma {:induction false} WholeEscape(r: seq<Byte>)
    requires r != [] && |HexLeft(r[0])| == 4 && Complete(HexLeftAll(r))
    ensures Complete(HexLeftAll(r[1..]))
    ensures Weight(Convert(HexLeftAll(r))) == 2 + Weight(Convert(HexLeftAll(r[1..]))) && Weight(r) == 2 + Weight(r[1..])
  {
    var t := HexLeftAll(r[1..]);
    AfterFour(HexLeft(r[0]), t);
    assert Hex(HexLeft(r[0]) + t);
    ConvertHex(r[0], t);
    HexLeftToken(r[0]);
    WeightHead(r[0], Convert(t));
    WeightHead(r[0], r[1..]);
    assert r == [r[0]] + r[1..];
  }

  lemma AfterFour(h: seq<Byte>, t: seq<Byte>)
    requires |h| == 4
    ensures (h + t)[4..] == t && (h + t)[0] == h[0] && (h + t)[1] == h[1]
  {
  }

  lemma Swallowed(u: seq<Byte>, r: seq<Byte>)
    requires 0 < |u| < 4 && Complete(u + HexLeftAll(r)) && Hex(u + HexLeftAll(r)) && (r != [] ==> |HexLeft(r[0])| == 4)
    ensures r != [] && 2 <= |u|
  {
    var s := u + HexLeftAll(r);
    if r != [] {
      HexLeftToken(r[0]);
      assert s[|u|] == HexLeft(r[0])[..2][0];
    }
  }

  lemma {:induction false} HexLeftAllNonzero(ssid: seq<Byte>)
    ensures forall i :: 0 <= i < |HexLeftAll(ssid)| ==> HexLeftAll(ssid)[i] != 0
  {
    if ssid != [] {
      HexLeftToken(ssid[0]);
      HexLeftAllNonzero(ssid[1..]);
    }
  }

  lemma {:induction false} TerminatedIsPrefix(s: seq<Byte>)
    ensures Weight(Terminated(s)) <= Weight(s)
  {
    if s != [] && s[0] != 0 {
      TerminatedIsPrefix(s[1..]);
      WeightHead(s[0], Terminated(s[1..]));
      WeightHead(s[0], s[1..]);
      assert s == [s[0]] + s[1..];
    }
  }

  /** What is left of a name when the first decoder is done is converted and read up to the first NUL. */
  function Converted(ssid: seq<Byte>): seq<Byte>
    requires Complete(HexLeftAll(ssid))
  {
    Terminated(Convert(HexLeftAll(ssid)))
  }

  lemma SlashFirstIs(ssid: seq<Byte>)
    ensures SlashFirstDefined(Print(ssid)) <==> Complete(HexLeftAll(ssid))
    ensures SlashFirstDefined(Print(ssid)) ==> SlashFirst(Print(ssid)) == Converted(ssid)
  {
    UnescapePrinted(ssid);
    HexLeftAllNonzero(ssid);
    NoTerminator(HexLeftAll(ssid));
  }

  lemma ConvertedLighter(ssid: seq<Byte>)
    requires Complete(HexLeftAll(ssid))
    ensures Weight(Converted(ssid)) <= Weight(ssid)
  {
    assert [] + HexLeftAll(ssid) == HexLeftAll(ssid);
    ConvertIsLighter([], ssid);
    TerminatedIsPrefix(Convert(HexLeftAll(ssid)));
  }

  lemma {:induction false} ConvertedHead(ssid: seq<Byte>)
    requires ssid != [] && Complete(HexLeftAll(ssid)) && !BackslashX(ssid)
    ensures Complete(HexLeftAll(ssid[1..])) || Control(ssid[0])
    ensures var b := ssid[0];
            if b == 0 then Converted(ssid) == []
            else if Control(b) then Converted(ssid) != [] && Converted(ssid)[0] == BACKSLASH
            else Converted(ssid) == [b] + Converted(ssid[1..])
  {
    var b := ssid[0];
    var t := HexLeftAll(ssid[1..]);
    var s := HexLeft(b) + t;
    if Control(b) {
      assert !Hex(s);
    } else if |HexLeft(b)| == 1 {
      HexLeftHead(ssid[1..]);
      assert !Hex(s) && s[1..] == t;
      FirstTerminated(b, Convert(t));
    } else {
      assert Hex(s) && s[4..] == t;
      ConvertHex(b, t);
      FirstTerminated(b, Convert(t));
    }
  }

  lemma HexLeftHead(ssid: seq<Byte>)
    ensures ssid != [] ==> HexLeftAll(ssid) != [] && (HexLeftAll(ssid)[0] == X <==> ssid[0] == X)
  {
  }

  lemma {:induction false} LeftDigitIsLiteral(r: seq<Byte>)
    requires HexLeftAll(r) != [] && DigitValue(HexLeftAll(r)[0]).Some?
    ensures r != [] && Ordinary(r[0]) && HexLeftAll(r)[1..] == HexLeftAll(r[1..])
    ensures |HexLeftAll(r)| > 1 ==> HexLeftAll(r[1..]) != [] && HexLeftAll(r)[1] == HexLeftAll(r[1..])[0]
  {
    assert |HexLeft(r[0])| == 1;
    AfterOne(HexLeft(r[0]), HexLeftAll(r[1..]));
  }

  lemma AfterOne(h: seq<Byte>, t: seq<Byte>)
    requires |h| == 1
    ensures (h + t)[1..] == t && (|h + t| > 1 ==> t != [] && (h + t)[1] == t[0])
  {
  }

  lemma LeftDigitsAreLiteral(r: seq<Byte>)
    requires |HexLeftAll(r)| >= 2 && DigitValue(HexLeftAll(r)[0]).Some? && DigitValue(HexLeftAll(r)[1]).Some?
    ensures |r| >= 2 && HexLeftAll(r)[2..] == HexLeftAll(r[2..]) && Ordinary(r[0]) && Ordinary(r[1])
  {
    LeftDigitIsLiteral(r);
    LeftDigitIsLiteral(r[1..]);
    assert r[1..][1..] == r[2..];
    assert HexLeftAll(r)[2..] == HexLeftAll(r[1..])[1..];
  }

  lemma ConvertedNotX(ssid: seq<Byte>)
    requires BackslashX(ssid) && Complete(HexLeftAll(ssid))
    ensures Converted(ssid) != ssid
  {
    var s := HexLeftAll(ssid);
    var r := ssid[2..];
    assert s == [BACKSLASH, X] + HexLeftAll(r) by {
      assert ssid[1..][1..] == r;
      assert HexLeftAll(ssid[1..]) == HexLeft(ssid[1]) + HexLeftAll(r);
    }
    var v := HexValue(s[2], s[3]);
    FirstTerminated(v, Convert(s[4..]));
    if v == BACKSLASH {
      HexPair(v, s[2], s[3]);
      assert HexLeftAll(r)[0] == s[2] && HexLeftAll(r)[1] == s[3];
      LeftDigitsAreLiteral(r);
      assert s[4..] == HexLeftAll(r)[2..];
      ConvertedLighter(r[2..]);
      ThreeMore(ssid);
      WeightHead(v, Converted(r[2..]));
    }
  }

  lemma ThreeMore(ssid: seq<Byte>)
    requires |ssid| >= 4
    ensures Weight(ssid) >= 4 + Weight(ssid[2..][2..])
  {
    assert ssid == ssid[..4] + ssid[2..][2..];
    WeightConcat(ssid[..4], ssid[2..][2..]);
    assert Weight(ssid[..4]) >= 4 by {
      assert ssid[..4][1..][1..][1..] == [ssid[3]];
      assert [ssid[3]][1..] == [];
    }
  }

  lemma {:induction false} SlashFirstOnlyPlain(ssid: seq<Byte>)
    requires Complete(HexLeftAll(ssid)) && Converted(ssid) == ssid
    ensures Plain(ssid)
  {
    if ssid != [] {
      if BackslashX(ssid) {
        ConvertedNotX(ssid);
      } else {
        ConvertedHead(ssid);
        assert Converted(ssid)[0] == ssid[0];
        assert Converted(ssid)[1..] == Converted(ssid[1..]);
        SlashFirstOnlyPlain(ssid[1..]);
        assert forall i :: 0 < i < |ssid| ==> ssid[i] == ssid[1..][i - 1];
      }
    }
  }

  /** Printing a name and decoding it gives the name back exactly for the plain names, in either order. */
  lemma RoundTripIff(ssid: seq<Byte>)
    ensures Complete(Print(ssid)) && HexFirst(Print(ssid)) == ssid <==> Plain(ssid)
    ensures SlashFirstDefined(Print(ssid)) && SlashFirst(Print(ssid)) == ssid <==> Plain(ssid)
  {
    SlashFirstIs(ssid);
    if Plain(ssid) { PlainComesBack(ssid); }
    if Complete(Print(ssid)) && HexFirst(Print(ssid)) == ssid { HexFirstOnlyPlain(ssid); }
    if Complete(HexLeftAll(ssid)) && Converted(ssid) == ssid { SlashFirstOnlyPlain(ssid); }
  }

  lemma PlainComesBack(ssid: seq<Byte>)
    requires Plain(ssid)
    ensures Complete(Print(ssid)) && HexFirst(Print(ssid)) == ssid
    ensures Complete(HexLeftAll(ssid)) && Converted(ssid) == ssid
  {
    ConvertPrinted(ssid);
    SlashLeftNonzero(ssid);
    NoTerminator(SlashLeftAll(ssid));
    UnescapeSlash(ssid);
    ConvertHexLeft(ssid);
    NoTerminator(ssid);
  }
}
