/** What a client knows of the exported objects, as a map from object and
    interface to property values, and what each message does to it.
 */
module Views {
  import opened Bus

  datatype Key = Key(path: Path, iface: Name)

  type Props = map<Name, Variant>

  type View = map<Key, Props>

  /** New values for the properties of one interface; the interface appears if it is not there yet. */
  function Put(v: View, k: Key, entries: seq<Entry>): View {
    v[k := (if k in v then v[k] else map[]) + ToMap(entries)]
  }

  function ApplyIface(v: View, path: Path, i: IfaceProps): View {
    if Builtin(i.iface) then v else Put(v, Key(path, i.iface), i.props)
  }

  function ApplyIfaces(v: View, path: Path, ifaces: seq<IfaceProps>): View {
    if ifaces == [] then v
    else ApplyIface(ApplyIfaces(v, path, ifaces[..|ifaces| - 1]), path, ifaces[|ifaces| - 1])
  }

  function ApplyObjects(v: View, objects: seq<ObjectEntry>): View {
    if objects == [] then v
    else
      var last := objects[|objects| - 1];
      ApplyIfaces(ApplyObjects(v, objects[..|objects| - 1]), last.path, last.ifaces)
  }

  function ApplyRemoved(v: View, path: Path, names: seq<Name>): View {
    if names == [] then v else ApplyRemoved(v, path, names[..|names| - 1]) - {Key(path, names[|names| - 1])}
  }

  function ApplyChanged(v: View, k: Key, changed: seq<Entry>, invalidated: seq<Name>): View {
    if k !in v then v else v[k := (v[k] + ToMap(changed)) - (set n | n in invalidated)]
  }

  function Apply(v: View, m: Message): View {
    match m
    case InterfacesAdded(path, ifaces) => ApplyIfaces(v, path, ifaces)
    case InterfacesRemoved(path, names) => ApplyRemoved(v, path, names)
    case PropertiesChanged(path, iface, changed, invalidated) => ApplyChanged(v, Key(path, iface), changed, invalidated)
    case ManagedObjects(objects) => ApplyObjects(v, objects)
  }

  /** What the client will know once it has handled all messages under way. */
  function Drain(v: View, ms: seq<Message>): View
    decreases |ms|
  {
    if ms == [] then v else Drain(Apply(v, ms[0]), ms[1..])
  }

  lemma {:induction false} DrainConcat(v: View, a: seq<Message>, b: seq<Message>)
    ensures Drain(v, a + b) == Drain(Drain(v, a), b)
    decreases |a|
  {
    if a == [] {
      assert a + b == b;
    } else {
      assert (a + b)[0] == a[0] && (a + b)[1..] == a[1..] + b;
      DrainConcat(Apply(v, a[0]), a[1..], b);
    }
  }

  lemma {:induction false} ToMapConcat(a: seq<Entry>, b: seq<Entry>)
    ensures ToMap(a + b) == ToMap(a) + ToMap(b)
  {
    if b == [] {
      assert a + b == a;
    } else {
      var k := |b| - 1;
      assert (a + b)[..|a + b| - 1] == a + b[..k];
      ToMapConcat(a, b[..k]);
    }
  }

  lemma OneIface(v: View, path: Path, i: IfaceProps)
    ensures ApplyIfaces(v, path, [i]) == ApplyIface(v, path, i)
  {
    var one := [i];
    assert one[..|one| - 1] == [];
  }

  lemma OneRemoved(v: View, path: Path, name: Name)
    ensures ApplyRemoved(v, path, [name]) == v - {Key(path, name)}
  {
    var names := [name];
    assert names[..|names| - 1] == [];
  }

  lemma OneEntry(e: Entry)
    ensures ToMap([e]) == map[e.name := e.value]
  {
    var es := [e];
    assert es[..|es| - 1] == [];
  }

  lemma OneMessage(v: View, m: Message)
    ensures Drain(v, [m]) == Apply(v, m)
  {
    var ms := [m];
    assert ms[1..] == [];
  }
}
