/** Object paths, interface names and the messages that travel from the object
    server to a client.

    A path is the list of its components, so "/" is `[]` and "/org/bluez" is
    `["org", "bluez"]`.  `Render` gives the text, and `StripLast` is what the
    server does to the text to find the parent path.
 */
module Bus {

  datatype Option<+T> = None | Some(value: T)

  type Path = seq<string>
  type Name = string

  const ROOT: Path := []

  /** The contents of a D-Bus variant. */
  type Variant = string

  const INTROSPECTABLE: Name := "org.freedesktop.DBus.Introspectable"
  const PROPERTIES: Name := "org.freedesktop.DBus.Properties"
  const OBJECT_MANAGER: Name := "org.freedesktop.DBus.ObjectManager"

  /** The two interfaces that the object server adds and removes by itself. */
  predicate Builtin(name: Name) {
    name == INTROSPECTABLE || name == PROPERTIES
  }

  datatype Entry = Entry(name: Name, value: Variant)

  datatype IfaceProps = IfaceProps(iface: Name, props: seq<Entry>)

  datatype ObjectEntry = ObjectEntry(path: Path, ifaces: seq<IfaceProps>)

  datatype Message =
    | InterfacesAdded(path: Path, ifaces: seq<IfaceProps>)
    | InterfacesRemoved(path: Path, names: seq<Name>)
    | PropertiesChanged(path: Path, iface: Name, changed: seq<Entry>, invalidated: seq<Name>)
    | ManagedObjects(objects: seq<ObjectEntry>)

  /** The dictionary a list of entries stands for; a later entry replaces an earlier one. */
  function ToMap(entries: seq<Entry>): map<Name, Variant> {
    if entries == [] then map[]
    else
      var last := entries[|entries| - 1];
      ToMap(entries[..|entries| - 1])[last.name := last.value]
  }

  // ---------------------------------------------------------------------
  // Paths as text

  predicate ElementChar(c: char) {
    'a' <= c <= 'z' || 'A' <= c <= 'Z' || '0' <= c <= '9' || c == '_'
  }

  predicate ValidElement(e: string) {
    e != "" && forall i :: 0 <= i < |e| ==> ElementChar(e[i])
  }

  predicate ValidPath(p: Path) {
    forall i :: 0 <= i < |p| ==> ValidElement(p[i])
  }

  /** An interface name: two or more elements separated by dots, none starting with a digit. */
  predicate ValidInterface(n: Name) {
    && 0 < |n| <= 255
    && '.' in n
    && n[|n| - 1] != '.'
    && (forall i :: 0 <= i < |n| ==> n[i] == '.' || ElementChar(n[i]))
    && (forall i :: 0 <= i < |n| && Begins(n, i) ==> n[i] != '.' && !('0' <= n[i] <= '9'))
  }

  /** An element begins here. */
  predicate Begins(n: Name, i: nat)
    requires i < |n|
  {
    i == 0 || n[i - 1] == '.'
  }

  function Parent(p: Path): Path
    requires p != []
  {
    p[..|p| - 1]
  }

  function Joined(p: Path): string {
    if p == [] then "" else Joined(Parent(p)) + "/" + p[|p| - 1]
  }

  function Render(p: Path): string {
    if p == [] then "/" else Joined(p)
  }

  /** The index of the last slash, or -1. */
  function LastSlash(s: string): (i: int)
    ensures -1 <= i < |s|
    ensures i >= 0 ==> s[i] == '/'
    ensures forall k :: i < k < |s| ==> s[k] != '/'
  {
    if s == "" then -1
    else if s[|s| - 1] == '/' then |s| - 1
    else LastSlash(s[..|s| - 1])
  }

  /** Cuts the text of a path back to the text of its parent; `None` where the server gives up. */
  function StripLast(s: string): Option<string> {
    var slash := LastSlash(s);
    if slash < 0 then None
    else
      var cut := if slash == 0 && |s| > 1 then s[..1] else s[..slash];
      if cut == "" then None else Some(cut)
  }

  lemma {:induction false} LastSlashOfAppend(s: string, e: string)
    requires forall i :: 0 <= i < |e| ==> e[i] != '/'
    ensures LastSlash(s + "/" + e) == |s|
  {
    var t := s + "/" + e;
    assert t[|s|] == '/';
    forall k | |s| < k < |t| ensures t[k] != '/' { assert t[k] == e[k - |s| - 1]; }
  }

  /** Stripping the text of a path gives the text of its parent path, and gives up exactly at "/". */
  lemma StripLastIsParent(p: Path)
    requires ValidPath(p)
    ensures StripLast(Render(p)) == if p == [] then None else Some(Render(Parent(p)))
  {
    if p == [] {
      assert LastSlash("/") == 0;
    } else {
      var e := p[|p| - 1];
      var s := Joined(Parent(p));
      assert ValidElement(e);
      LastSlashOfAppend(s, e);
      var t := s + "/" + e;
      assert Render(p) == t;
      assert t[..|s|] == s;
      if Parent(p) == [] {
        assert t[..1] == "/";
      } else {
        assert |s| > 0;
      }
    }
  }

  lemma SplitAtSlash(s: string, e: string, t: string, f: string)
    requires (forall i :: 0 <= i < |e| ==> e[i] != '/') && (forall i :: 0 <= i < |f| ==> f[i] != '/')
    requires s + "/" + e == t + "/" + f
    ensures s == t && e == f
  {
    LastSlashOfAppend(s, e);
    LastSlashOfAppend(t, f);
    assert s == (s + "/" + e)[..|s|] && e == (s + "/" + e)[|s| + 1..];
    assert t == (t + "/" + f)[..|t|] && f == (t + "/" + f)[|t| + 1..];
  }

  lemma {:induction false} JoinedInjective(p: Path, q: Path)
    requires ValidPath(p) && ValidPath(q) && Joined(p) == Joined(q)
    ensures p == q
  {
    if p == [] || q == [] {
    } else {
      var e, f := p[|p| - 1], q[|q| - 1];
      var s, t := Joined(Parent(p)), Joined(Parent(q));
      assert ValidElement(e) && ValidElement(f);
      SplitAtSlash(s, e, t, f);
      JoinedInjective(Parent(p), Parent(q));
      assert p == Parent(p) + [e] && q == Parent(q) + [f];
    }
  }

  /** Distinct component lists have distinct texts, so a table keyed by either is the same table. */
  lemma RenderInjective(p: Path, q: Path)
    requires ValidPath(p) && ValidPath(q) && Render(p) == Render(q)
    ensures p == q
  {
    if p != [] && q != [] {
      JoinedInjective(p, q);
    }
  }
}
