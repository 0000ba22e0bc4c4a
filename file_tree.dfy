/** A directory tree as `readdir` and `readFile` see it: a directory lists
    its entries in the order `readdir` returns them; a file holds its text.
    Looking a name up takes its first entry; a real directory never holds
    two entries of one name, which `UniqueTree` states where it matters. */
module FileTree {

  import opened Wrappers

  datatype Node = File(content: string) | Dir(entries: seq<Entry>)

  datatype Entry = Entry(name: string, node: Node)

  /** Sizes used as termination measures for walks over the tree. */
  function NodeSize(n: Node): (s: nat)
    ensures s >= 1
  {
    match n
    case File(_) => 1
    case Dir(es) => 1 + EntriesSize(es)
  }

  function EntriesSize(es: seq<Entry>): nat {
    if |es| == 0 then 0 else 1 + NodeSize(es[0].node) + EntriesSize(es[1..])
  }

  lemma {:induction false} EntrySmaller(es: seq<Entry>, i: nat)
    requires i < |es|
    ensures NodeSize(es[i].node) < EntriesSize(es)
    ensures EntriesSize(es[i + 1..]) < EntriesSize(es)
  {
    if i > 0 {
      EntrySmaller(es[1..], i - 1);
      assert es[1..][i - 1] == es[i];
      assert es[1..][i..] == es[i + 1..];
    }
  }

  /** Position of the first entry called `name`. */
  function Find(es: seq<Entry>, name: string): (r: Option<nat>)
    ensures r.Some? ==> r.value < |es| && es[r.value].name == name
    ensures r.Some? ==> forall j :: 0 <= j < r.value ==> es[j].name != name
    ensures r.None? ==> forall j :: 0 <= j < |es| ==> es[j].name != name
  {
    if |es| == 0 then None
    else if es[0].name == name then Some(0)
    else match Find(es[1..], name)
      case None => None
      case Some(k) => Some(k + 1)
  }

  /** `Find` is determined by its contract: the first entry of the name, or
      none. */
  lemma {:induction false} FindAt(es: seq<Entry>, name: string, k: nat)
    requires k <= |es|
    requires forall j :: 0 <= j < k ==> es[j].name != name
    requires k < |es| ==> es[k].name == name
    ensures Find(es, name) == if k < |es| then Some(k) else None
  {
    if k > 0 {
      FindAt(es[1..], name, k - 1);
    }
  }

  /** What the directory holds under `name`, if anything. */
  function Child(es: seq<Entry>, name: string): Option<Node> {
    match Find(es, name)
    case None => None
    case Some(k) => Some(es[k].node)
  }

  predicate HasName(es: seq<Entry>, name: string) {
    exists j :: 0 <= j < |es| && es[j].name == name
  }

  lemma ChildSome(es: seq<Entry>, name: string)
    ensures Child(es, name).Some? <==> HasName(es, name)
  {
    if HasName(es, name) {
      var j :| 0 <= j < |es| && es[j].name == name;
      assert Find(es, name).Some?;
    }
  }

  /** The node at a path of names below `n`. */
  function Lookup(n: Node, path: seq<string>): Option<Node>
    decreases |path|
  {
    if |path| == 0 then Some(n)
    else match n
      case File(_) => None
      case Dir(es) =>
        match Child(es, path[0])
        case None => None
        case Some(c) => Lookup(c, path[1..])
  }

  /** `name` now holds `node`: the first entry of that name is replaced, or a
      new entry is added at the end. */
  function Put(es: seq<Entry>, name: string, node: Node): seq<Entry> {
    match Find(es, name)
    case None => es + [Entry(name, node)]
    case Some(k) => es[k := Entry(name, node)]
  }

  /** Every entry called `name` is gone. */
  function Remove(es: seq<Entry>, name: string): (r: seq<Entry>)
    ensures forall j :: 0 <= j < |r| ==> r[j].name != name
  {
    if |es| == 0 then []
    else if es[0].name == name then Remove(es[1..], name)
    else [es[0]] + Remove(es[1..], name)
  }

  /** After `Put`, the name holds the new node and every other name holds
      what it held. */
  lemma PutChild(es: seq<Entry>, name: string, node: Node, other: string)
    ensures Child(Put(es, name, node), other) == if other == name then Some(node) else Child(es, other)
  {
    var r := Put(es, name, node);
    match Find(es, name)
    case None =>
      if other == name {
        FindAt(r, other, |es|);
      } else {
        match Find(es, other)
        case None =>
          FindAt(r, other, |r|);
        case Some(k) =>
          FindAt(r, other, k);
      }
    case Some(k) =>
      if other == name {
        FindAt(r, other, k);
      } else {
        match Find(es, other)
        case None =>
          FindAt(r, other, |r|);
        case Some(m) =>
          FindAt(r, other, m);
      }
  }

  /** After `Remove`, the name holds nothing and every other name holds what
      it held. */
  lemma {:induction false} RemoveChild(es: seq<Entry>, name: string, other: string)
    ensures Child(Remove(es, name), other) == if other == name then None else Child(es, other)
  {
    var r := Remove(es, name);
    if other == name {
      assert Find(r, other).None?;
    } else if |es| > 0 {
      RemoveChild(es[1..], name, other);
      if es[0].name == other {
        assert r[0] == es[0];
      } else {
        ChildTail(es, other);
        if es[0].name != name {
          assert r[1..] == Remove(es[1..], name);
          ChildTail(r, other);
        }
      }
    }
  }

  /** A first entry of another name does not matter to a lookup. */
  lemma ChildTail(es: seq<Entry>, name: string)
    requires |es| > 0 && es[0].name != name
    ensures Child(es, name) == Child(es[1..], name)
  {
  }

  /** Names are unique in every directory of the tree, as on a real disk. */
  predicate UniqueTree(n: Node)
    decreases NodeSize(n), 1
  {
    match n
    case File(_) => true
    case Dir(es) => UniqueEntries(es)
  }

  predicate UniqueEntries(es: seq<Entry>)
    decreases EntriesSize(es), 0
  {
    (forall i, j :: 0 <= i < j < |es| ==> es[i].name != es[j].name)
    && forall i :: 0 <= i < |es| ==> (EntrySmaller(es, i); UniqueTree(es[i].node))
  }

  /** In a directory with unique names, the entry at `i` is what its name
      looks up. */
  lemma UniqueChild(es: seq<Entry>, i: nat)
    requires i < |es|
    requires forall a, b :: 0 <= a < b < |es| ==> es[a].name != es[b].name
    ensures Child(es, es[i].name) == Some(es[i].node)
  {
    var f := Find(es, es[i].name);
    assert f.Some?;
    assert f.value == i;
  }
}
