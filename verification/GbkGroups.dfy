/** What the transcoder to GBK makes of any input: it reads single ASCII octets and groups of three octets from the left, up to
    the end, or to an octet that begins neither, or to a group outside the table.
 */
module GbkGroups {
  import opened Bus
  import opened Bytes
  import opened Gbk

  ghost function Joined(groups: seq<seq<Byte>>): seq<Byte> {
    if groups == [] then [] else groups[0] + Joined(groups[1..])
  }

  /** The three octets have the bits of the number; their highest bits are those of a lead octet, or not looked at. */
  ghost predicate Numbers(t: seq<Byte>, u: int) {
    && |t| == 3 && 0 <= u < 0x10000
    && t[0] == 0xe0 + u / 4096 && t[1] % 64 == u / 64 % 64 && t[2] % 64 == u % 64
  }

  /** One group and what it becomes. */
  ghost predicate Becomes(table: Table, t: seq<Byte>, r: seq<Byte>) {
    || (|t| == 1 && t[0] < 0x80 && r == t)
    || (exists u :: Numbers(t, u) && FIRST <= u <= LAST && r == [table[u - FIRST] / 256, table[u - FIRST] % 256])
  }

  ghost predicate AllBecome(table: Table, groups: seq<seq<Byte>>, outs: seq<seq<Byte>>) {
    |groups| == |outs| && forall i :: 0 <= i < |groups| ==> Becomes(table, groups[i], outs[i])
  }

  /** The octet begins neither an ASCII character nor a complete group. */
  ghost predicate Stuck(s: seq<Byte>) {
    s != [] && s[0] >= 0x80 && (s[0] < 0xe0 || s[0] >= 0xf0 || |s| < 3)
  }

  ghost predicate Outside(s: seq<Byte>) {
    |s| >= 3 && exists u :: Numbers(s[..3], u) && !(FIRST <= u <= LAST)
  }

  /** The input is read group by group up to the rest: nothing, and then all of it is transcoded; or an octet that begins
      nothing, and then there is the error; or a group outside the table. */
  ghost predicate Reads(table: Table, s: seq<Byte>, groups: seq<seq<Byte>>, outs: seq<seq<Byte>>, rest: seq<Byte>) {
    && Joined(groups) + rest == s && AllBecome(table, groups, outs)
    && (rest == [] || Stuck(rest) || Outside(rest))
    && (InTable(s) <==> rest == [] || Stuck(rest))
    && (rest == [] ==> Transcode(table, s) == Some(Joined(outs)))
    && (Stuck(rest) ==> Transcode(table, s) == None)
  }

  lemma CodeNumbers(t: seq<Byte>)
    requires |t| == 3 && Lead(t[0])
    ensures Numbers(t, Code(t[0], t[1], t[2]))
  {
    var x: int, y: int, z: int := t[0] - 0xe0, t[1] % 64, t[2] % 64;
    assert t[0] % 16 == x;
    assert Code(t[0], t[1], t[2]) == x * 4096 + y * 64 + z;
  }

  lemma PairBecomes(table: Table, t: seq<Byte>)
    requires |t| == 3 && Lead(t[0]) && FIRST <= Code(t[0], t[1], t[2]) <= LAST
    ensures Becomes(table, t, Pair(table[Code(t[0], t[1], t[2]) - FIRST]))
  {
    CodeNumbers(t);
  }

  /** The result for every input. */
  lemma {:induction false} TranscodeGroups(table: Table, s: seq<Byte>) returns (groups: seq<seq<Byte>>, outs: seq<seq<Byte>>, rest: seq<Byte>)
    ensures Reads(table, s, groups, outs, rest)
    decreases |s|
  {
    groups, outs, rest := [], [], s;
    if s == [] {
    } else if Ascii(s[0]) {
      groups, outs, rest := TranscodeGroups(table, s[1..]);
      groups, outs := FirstAscii(table, s, groups, outs, rest);
    } else if Lead(s[0]) && |s| >= 3 {
      CodeNumbers(s[..3]);
      if FIRST <= Code(s[0], s[1], s[2]) <= LAST {
        groups, outs, rest := TranscodeGroups(table, s[3..]);
        groups, outs := FirstGroup(table, s, groups, outs, rest);
      }
    }
  }

  lemma FirstAscii(table: Table, s: seq<Byte>, groups: seq<seq<Byte>>, outs: seq<seq<Byte>>, rest: seq<Byte>)
    returns (groups': seq<seq<Byte>>, outs': seq<seq<Byte>>)
    requires s != [] && Ascii(s[0]) && Reads(table, s[1..], groups, outs, rest)
    ensures Reads(table, s, groups', outs', rest)
  {
    groups', outs' := OneMore(table, s[..1], s[..1], groups, outs);
    assert s[..1] == [s[0]] && s[..1] + s[1..] == s;
  }

  lemma FirstGroup(table: Table, s: seq<Byte>, groups: seq<seq<Byte>>, outs: seq<seq<Byte>>, rest: seq<Byte>)
    returns (groups': seq<seq<Byte>>, outs': seq<seq<Byte>>)
    requires |s| >= 3 && !Ascii(s[0]) && Lead(s[0]) && FIRST <= Code(s[0], s[1], s[2]) <= LAST
    requires Reads(table, s[3..], groups, outs, rest)
    ensures Reads(table, s, groups', outs', rest)
  {
    PairBecomes(table, s[..3]);
    groups', outs' := OneMore(table, s[..3], Pair(table[Code(s[0], s[1], s[2]) - FIRST]), groups, outs);
    assert s[..3] + s[3..] == s;
  }

  lemma OneMore(table: Table, t: seq<Byte>, r: seq<Byte>, groups: seq<seq<Byte>>, outs: seq<seq<Byte>>)
    returns (groups': seq<seq<Byte>>, outs': seq<seq<Byte>>)
    requires AllBecome(table, groups, outs) && Becomes(table, t, r)
    ensures groups' == [t] + groups && outs' == [r] + outs && AllBecome(table, groups', outs')
    ensures Joined(groups') == t + Joined(groups) && Joined(outs') == r + Joined(outs)
  {
    groups', outs' := [t] + groups, [r] + outs;
    assert groups'[1..] == groups && outs'[1..] == outs;
  }
}
