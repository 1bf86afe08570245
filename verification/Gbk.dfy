/** Transcoding UTF-8 text of ASCII characters and Chinese ideographs to GBK, with the table as a parameter. */
module Gbk {
  import opened Bus
  import opened Bytes

  const FIRST := 0x4e00
  const LAST := 0x9fa5

  /** One entry for each ideograph from U+4E00 to U+9FA5. */
  type Table = t: seq<int> | |t| == 20902 && forall i :: 0 <= i < |t| ==> 0 <= t[i] < 0x10000 witness seq(20902, _ => 0)

  predicate Ascii(b: Byte) {
    b < 0x80
  }

  predicate Lead(b: Byte) {
    0xe0 <= b < 0xf0
  }

  /** The code point of three octets. */
  function Code(a: Byte, b: Byte, c: Byte): int {
    (a % 16) * 4096 + (b % 64) * 64 + c % 64
  }

  /** Every complete group of three octets that the loop meets stands for an ideograph of the table. */
  predicate InTable(s: seq<Byte>) {
    if s == [] then true
    else if Ascii(s[0]) then InTable(s[1..])
    else if Lead(s[0]) && |s| >= 3 then FIRST <= Code(s[0], s[1], s[2]) <= LAST && InTable(s[3..])
    else true
  }

  /** The output, or nothing when the input is cut short or has an octet that starts no such character. */
  function Transcode(table: Table, s: seq<Byte>): (r: Option<seq<Byte>>)
    requires InTable(s)
    ensures r.Some? ==> |r.value| <= |s|
  {
    if s == [] then Some([])
    else if Ascii(s[0]) then Prefixed([s[0]], Transcode(table, s[1..]))
    else if Lead(s[0]) && |s| >= 3 then Prefixed(Pair(table[Code(s[0], s[1], s[2]) - FIRST]), Transcode(table, s[3..]))
    else None
  }

  function Prefixed(p: seq<Byte>, r: Option<seq<Byte>>): Option<seq<Byte>> {
    if r.None? then None else Some(p + r.value)
  }

  function Pair(g: int): seq<Byte>
    requires 0 <= g < 0x10000
  {
    [g / 256, g % 256]
  }

  lemma PrefixedTwice(p: seq<Byte>, q: seq<Byte>, r: Option<seq<Byte>>)
    ensures Prefixed(p, Prefixed(q, r)) == Prefixed(p + q, r) && Prefixed([], r) == r
  {
    if r.Some? { assert p + (q + r.value) == p + q + r.value && [] + r.value == r.value; }
  }

  /** What the transcoder returns: a count, the error for input it does not handle, or nothing that can be told because
      it has indexed outside the table. */
  datatype Returned = Count(n: nat) | Invalid | OutsideTable

  method Utf8ToGbk(table: Table, input: seq<Byte>, output: array<Byte>) returns (r: Returned)
    requires output.Length >= |input|
    modifies output
    ensures r.OutsideTable? <==> !InTable(input)
    ensures r.Invalid? <==> InTable(input) && Transcode(table, input).None?
    ensures r.Count? ==> r.n <= output.Length && InTable(input) && Transcode(table, input) == Some(output[..r.n])
    ensures forall t :: Text(t) && input == Utf8Text(t) ==> r == Count(|t| + Ideographs(t)) && output[..r.n] == GbkText(table, t)
  {
    Given(table, input);
    r := TranscodeAll(table, input, output);
  }

  lemma AsciiStep(table: Table, s: seq<Byte>, rest: seq<Byte>, done: seq<Byte>)
    requires s != [] && Ascii(s[0]) && rest == s[1..]
    ensures InTable(s) <==> InTable(rest)
    ensures InTable(s) ==> Prefixed(done, Transcode(table, s)) == Prefixed(done + [s[0]], Transcode(table, rest))
  {
    if InTable(s) { PrefixedTwice(done, [s[0]], Transcode(table, rest)); }
  }

  lemma GroupStep(table: Table, s: seq<Byte>, rest: seq<Byte>, done: seq<Byte>)
    requires |s| >= 3 && !Ascii(s[0]) && Lead(s[0]) && rest == s[3..]
    ensures InTable(s) <==> FIRST <= Code(s[0], s[1], s[2]) <= LAST && InTable(rest)
    ensures InTable(s) ==>
              Prefixed(done, Transcode(table, s)) == Prefixed(done + Pair(table[Code(s[0], s[1], s[2]) - FIRST]), Transcode(table, rest))
  {
    if InTable(s) { PrefixedTwice(done, Pair(table[Code(s[0], s[1], s[2]) - FIRST]), Transcode(table, rest)); }
  }

  method WritePair(output: array<Byte>, j: nat, gbk: int)
    requires j + 2 <= output.Length && 0 <= gbk < 0x10000
    modifies output
    ensures output[..j + 2] == old(output[..j]) + Pair(gbk)
  {
    output[j] := gbk / 256;
    output[j + 1] := gbk % 256;
  }

  method TranscodeAll(table: Table, input: seq<Byte>, output: array<Byte>) returns (r: Returned)
    requires output.Length >= |input|
    modifies output
    ensures r.OutsideTable? <==> !InTable(input)
    ensures r.Invalid? <==> InTable(input) && Transcode(table, input).None?
    ensures r.Count? ==> r.n <= output.Length && InTable(input) && Transcode(table, input) == Some(output[..r.n])
  {
    var i, j := 0, 0;
    assert input[0..] == input;
    PrefixedTwice([], [], if InTable(input) then Transcode(table, input) else None);
    while i < |input|
      invariant 0 <= j <= i <= |input| && (InTable(input) <==> InTable(input[i..]))
      invariant InTable(input) ==> Transcode(table, input) == Prefixed(output[..j], Transcode(table, input[i..]))
      decreases |input| - i
    {
      ghost var done := output[..j];
      if input[i] < 0x80 {
        AsciiStep(table, input[i..], input[i + 1..], done);
        output[j] := input[i];
        assert output[..j + 1] == done + [input[i]];
      } else if 0xe0 <= input[i] < 0xf0 {
        if i + 2 >= |input| { return Invalid; }
        GroupStep(table, input[i..], input[i + 3..], done);
        var code := Code(input[i], input[i + 1], input[i + 2]);
        if !(FIRST <= code <= LAST) { return OutsideTable; }
        WritePair(output, j, table[code - FIRST]);
        j := j + 1;
        i := i + 2;
      } else {
        return Invalid;
      }
      i, j := i + 1, j + 1;
    }
    assert output[..j] + [] == output[..j];
    return Count(j);
  }

  /** What is known when the input is the UTF-8 of a text. */
  lemma Given(table: Table, input: seq<Byte>)
    ensures forall t :: Text(t) && input == Utf8Text(t) ==>
              InTable(input) && Transcode(table, input) == Some(GbkText(table, t)) && |GbkText(table, t)| == |t| + Ideographs(t)
  {
    forall t | Text(t) && input == Utf8Text(t)
      ensures InTable(input) && Transcode(table, input) == Some(GbkText(table, t)) && |GbkText(table, t)| == |t| + Ideographs(t)
    {
      TranscodesText(table, t);
      TextLength(table, t);
    }
  }

  // ---- texts ----

  datatype Char = Plain(b: Byte) | Ideograph(u: int)

  predicate Valid(c: Char) {
    match c
    case Plain(b) => b < 0x80
    case Ideograph(u) => FIRST <= u <= LAST
  }

  predicate Text(t: seq<Char>) {
    forall i :: 0 <= i < |t| ==> Valid(t[i])
  }

  /** The octets of a character in section 3 of RFC 3629. */
  function Utf8(c: Char): seq<Byte>
    requires Valid(c)
  {
    match c
    case Plain(b) => [b]
    case Ideograph(u) => [0xe0 + u / 4096, 0x80 + u / 64 % 64, 0x80 + u % 64]
  }

  function Utf8Text(t: seq<Char>): seq<Byte>
    requires Text(t)
  {
    if t == [] then [] else Utf8(t[0]) + Utf8Text(t[1..])
  }

  function GbkChar(table: Table, c: Char): seq<Byte>
    requires Valid(c)
  {
    match c
    case Plain(b) => [b]
    case Ideograph(u) => Pair(table[u - FIRST])
  }

  function GbkText(table: Table, t: seq<Char>): seq<Byte>
    requires Text(t)
  {
    if t == [] then [] else GbkChar(table, t[0]) + GbkText(table, t[1..])
  }

  lemma CodeBack(u: int)
    requires FIRST <= u <= LAST
    ensures var s := Utf8(Ideograph(u)); Lead(s[0]) && !Ascii(s[0]) && Code(s[0], s[1], s[2]) == u
  {
    assert u == u / 4096 * 4096 + u / 64 % 64 * 64 + u % 64;
  }

  /** The transcoder turns the UTF-8 of every text into its GBK. */
  lemma {:induction false} TranscodesText(table: Table, t: seq<Char>)
    requires Text(t)
    ensures InTable(Utf8Text(t)) && Transcode(table, Utf8Text(t)) == Some(GbkText(table, t))
  {
    if t != [] {
      TranscodesText(table, t[1..]);
      TranscodesChar(table, t[0], Utf8Text(t[1..]));
    }
  }

  lemma {:induction false} TranscodesChar(table: Table, c: Char, rest: seq<Byte>)
    requires Valid(c) && InTable(rest)
    ensures InTable(Utf8(c) + rest) && Transcode(table, Utf8(c) + rest) == Prefixed(GbkChar(table, c), Transcode(table, rest))
  {
    var s := Utf8(c) + rest;
    if c.Plain? {
      assert s[1..] == rest;
    } else {
      CodeBack(c.u);
      assert s[3..] == rest;
    }
  }

  function Ideographs(t: seq<Char>): nat {
    if t == [] then 0 else (if t[0].Ideograph? then 1 else 0) + Ideographs(t[1..])
  }

  /** One octet for each ASCII character and two for each ideograph. */
  lemma {:induction false} TextLength(table: Table, t: seq<Char>)
    requires Text(t)
    ensures |GbkText(table, t)| == |t| + Ideographs(t)
  {
    if t != [] { TextLength(table, t[1..]); }
  }

  /** A table that sends different ideographs to different pairs, each with a lead octet outside ASCII. */
  ghost predicate Injective(table: Table) {
    && (forall i, j :: 0 <= i < j < |table| ==> table[i] != table[j])
    && (forall i :: 0 <= i < |table| ==> table[i] >= 0x8100)
  }

  lemma SameChar(table: Table, c: Char, d: Char, x: seq<Byte>, y: seq<Byte>)
    requires Injective(table) && Valid(c) && Valid(d) && GbkChar(table, c) + x == GbkChar(table, d) + y
    ensures c == d && x == y
  {
    var s := GbkChar(table, c) + x;
    assert s[0] == GbkChar(table, c)[0] == GbkChar(table, d)[0];
    if c.Ideograph? {
      assert d.Ideograph?;
      assert s[1] == GbkChar(table, c)[1] == GbkChar(table, d)[1];
      assert table[c.u - FIRST] == table[d.u - FIRST];
      assert s[2..] == x && s[2..] == y;
    } else {
      assert s[1..] == x && s[1..] == y;
    }
  }

  /** Under such a table the text can be read back: no two texts have the same transcoding. */
  lemma {:induction false} TextsDiffer(table: Table, t: seq<Char>, t': seq<Char>)
    requires Injective(table) && Text(t) && Text(t') && GbkText(table, t) == GbkText(table, t')
    ensures t == t'
  {
    if t != [] && t' != [] {
      SameChar(table, t[0], t'[0], GbkText(table, t[1..]), GbkText(table, t'[1..]));
      TextsDiffer(table, t[1..], t'[1..]);
      assert t == [t[0]] + t[1..] && t' == [t'[0]] + t'[1..];
    }
  }
}
