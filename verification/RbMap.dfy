/** The map: a red-black tree of key-value items that compares keys only. */
module RbMaps {
  import opened Items
  import opened Options
  import opened RbColor
  import opened RbShape
  import opened RbTrees

  ghost function MapOf(s: seq<Entry>): map<Key, Value>
    requires Sorted(s)
  {
    map e | e in s :: e.item.key := e.item.value
  }

  lemma MapOfInsert(a: seq<Entry>, x: Entry, b: seq<Entry>)
    requires Sorted(a + b) && Sorted(a + [x] + b)
    ensures MapOf(a + [x] + b) == MapOf(a + b)[x.item.key := x.item.value] && x.item.key !in MapOf(a + b)
  {
    SortedAround(a, x, b);
    assert x in a + [x] + b;
  }

  lemma MapOfSet(s: seq<Entry>, pos: nat, x: Entry)
    requires pos < |s| && x.item.key == s[pos].item.key && Sorted(s) && Sorted(s[pos := x])
    ensures MapOf(s[pos := x]) == MapOf(s)[x.item.key := x.item.value]
  {
    var r := s[pos := x];
    assert r[pos] == x;
    forall e | e in r ensures e == x || (e in s && e.item.key != x.item.key) {
      var i :| 0 <= i < |r| && r[i] == e;
      assert i != pos ==> s[i] == e;
    }
    forall e | e in s ensures e.item.key == x.item.key || e in r {
      var i :| 0 <= i < |s| && s[i] == e;
      assert i != pos ==> r[i] == e;
    }
  }

  lemma MapOfGet(s: seq<Entry>, e: Entry)
    requires Sorted(s) && e in s
    ensures HasKey(e.item.key, s) && e.item.key in MapOf(s) && MapOf(s)[e.item.key] == e.item.value
  {
  }

  lemma MapOfHas(s: seq<Entry>, key: Key)
    requires Sorted(s)
    ensures key in MapOf(s) <==> HasKey(key, s)
  {
  }

  lemma MapAfterInsert(s: seq<Entry>, r: seq<Entry>, pos: nat, key: Key, value: Value)
    requires Sorted(s) && Sorted(r) && pos < |r| && r[pos].item.key == key
    requires HasKey(key, s) ==> r == s
    requires !HasKey(key, s) ==>
      pos <= |s| && r == s[..pos] + [Entry(r[pos].ref, Item(key, value))] + s[pos..]
    ensures MapOf(r) == if key in MapOf(s) then MapOf(s) else MapOf(s)[key := value]
    ensures key in MapOf(r) && MapOf(r)[key] == r[pos].item.value
  {
    MapOfHas(s, key);
    if !HasKey(key, s) {
      assert s == s[..pos] + s[pos..];
      MapOfInsert(s[..pos], r[pos], s[pos..]);
    }
    MapOfGet(r, r[pos]);
  }

  lemma MapAfterDelete(s: seq<Entry>, r: seq<Entry>, pos: nat, key: Key)
    requires Sorted(s) && Sorted(r)
    requires if HasKey(key, s) then pos < |s| && s[pos].item.key == key && r == s[..pos] + s[pos + 1..] else r == s
    ensures MapOf(r) == MapOf(s) - {key}
  {
    hide Sorted, MapOf, HasKey;
    MapOfHas(s, key);
    if HasKey(key, s) {
      assert s == s[..pos] + [s[pos]] + s[pos + 1..];
      MapOfInsert(s[..pos], s[pos], s[pos + 1..]);
    }
  }

  class RbMap {
    const tree: RbTree
    const defaultValue: Value

    ghost predicate Valid()
      reads tree, tree.sentinel, tree.view.refs
    {
      tree.Valid()
    }

    ghost function Model(): map<Key, Value>
      reads tree, tree.sentinel, tree.view.refs
      requires Valid()
    {
      MapOf(tree.view.entries)
    }

    constructor (defaultValue: Value, someKey: Key)
      ensures Valid() && Model() == map[] && this.defaultValue == defaultValue
      ensures fresh(tree) && fresh(tree.sentinel) && tree.view.refs == {}
    {
      this.defaultValue := defaultValue;
      tree := new RbTree(Item(someKey, defaultValue));
    }

    method Search(key: Key) returns (node: RbNode?)
      requires Valid()
      ensures (node != null) == (key in Model())
      ensures node != null ==> node in tree.view.refs && node.data == Item(key, Model()[key])
    {
      ghost var f, visited;
      node, f, visited := tree.Search(key);
      MapOfHas(tree.view.entries, key);
      if node != null {
        MapOfGet(tree.view.entries, Entry(node, node.data));
      }
    }

    /** Both key and value have to match. */
    method SearchPair(item: Item) returns (node: RbNode?)
      requires Valid()
      ensures (node != null) == (item.key in Model() && Model()[item.key] == item.value)
      ensures node != null ==> node in tree.view.refs && node.data == Item(item.key, Model()[item.key])
    {
      node := Search(item.key);
      if node != null && item.value != node.data.value {
        node := null;
      }
    }

    /** Keeps the value of a key that is already there. */
    method Insert(key: Key) returns (node: RbNode, ghost pos: nat)
      requires Valid()
      modifies tree, tree.view.refs
      ensures Valid() && key in Model() && node in tree.view.refs && node.data == Item(key, Model()[key])
      ensures Model() == if key in old(Model()) then old(Model()) else old(Model())[key := defaultValue]
      ensures pos < |tree.view.entries| && tree.view.entries[pos] == Entry(node, node.data)
      ensures fresh(tree.view.refs - old(tree.view.refs))
    {
      ghost var s := tree.view.entries;
      EntryIsReal(tree, 0);
      hide RbTree.Valid, Sorted, HasKey, MapOf;
      node, pos := tree.Insert(Item(key, defaultValue));
      EntryIsReal(tree, pos);
      MapAfterInsert(s, tree.view.entries, pos, key, defaultValue);
    }

    /** Overwrites the value of a key that is already there. */
    method InsertPair(item: Item) returns (node: RbNode)
      requires Valid()
      modifies tree, tree.view.refs
      ensures Valid() && Model() == old(Model())[item.key := item.value]
      ensures node in tree.view.refs && node.data == item
      ensures fresh(tree.view.refs - old(tree.view.refs))
    {
      ghost var pos;
      hide RbTree.Valid, Sorted, HasKey, Rank, MapOf;
      node, pos := Insert(item.key);
      ghost var s := tree.view.entries;
      EntryIsReal(tree, pos);
      ghost var f := PlaceOf(tree, pos);
      tree.SetValue(node, item.value, f);
      EntryIsReal(tree, pos);
      MapOfSet(s, pos, Entry(node, item));
      MapOfGet(tree.view.entries, tree.view.entries[pos]);
    }

    method Delete(key: Key)
      requires Valid()
      modifies tree, tree.sentinel, tree.view.refs
      ensures Valid() && Model() == old(Model()) - {key} && tree.view.refs <= old(tree.view.refs)
    {
      ghost var s := tree.view.entries;
      EntryIsReal(tree, 0);
      hide RbTree.Valid, Sorted, HasKey, MapOf;
      ghost var pos := tree.Delete(key);
      EntryIsReal(tree, 0);
      MapAfterDelete(s, tree.view.entries, pos, key);
    }

    /** Removes the key only if its value matches too. */
    method DeletePair(item: Item)
      requires Valid()
      modifies tree, tree.sentinel, tree.view.refs
      ensures Valid() && tree.view.refs <= old(tree.view.refs)
      ensures Model() == if item.key in old(Model()) && old(Model())[item.key] == item.value
                         then old(Model()) - {item.key} else old(Model())
    {
      var node := SearchPair(item);
      if node != null {
        Delete(item.key);
      }
    }

    /** `operator []`: the value's place, made with a default value if the key is new. */
    method Index(key: Key) returns (node: RbNode)
      requires Valid()
      modifies tree, tree.view.refs
      ensures Valid() && key in Model() && node in tree.view.refs && node.data == Item(key, Model()[key])
      ensures Model() == if key in old(Model()) then old(Model()) else old(Model())[key := defaultValue]
      ensures fresh(tree.view.refs - old(tree.view.refs))
    {
      var found := Search(key);
      if found != null {
        return found;
      }
      ghost var pos;
      node, pos := Insert(key);
    }

    method Clear()
      requires Valid()
      modifies tree, tree.sentinel
      ensures Valid() && Model() == map[] && tree.view.refs == {}
    {
      var destroyed := tree.Clear();
    }
  }

  // ------------------------------------------------------- whole histories

  datatype Op =
    | InsertKey(key: Key) | InsertItem(item: Item) | DeleteKey(key: Key) | DeleteItem(item: Item)
    | IndexKey(key: Key) | SearchKey(key: Key) | SearchItem(item: Item) | ClearAll

  /** What an operation does to a finite map. */
  function Effect(op: Op, m: map<Key, Value>, d: Value): map<Key, Value> {
    match op
    case InsertKey(k) => if k in m then m else m[k := d]
    case InsertItem(x) => m[x.key := x.value]
    case DeleteKey(k) => m - {k}
    case DeleteItem(x) => if x.key in m && m[x.key] == x.value then m - {x.key} else m
    case IndexKey(k) => if k in m then m else m[k := d]
    case SearchKey(_) => m
    case SearchItem(_) => m
    case ClearAll => map[]
  }

  /** The item behind the pointer that an operation returns, if it returns one. */
  function Answer(op: Op, m: map<Key, Value>, d: Value): Option<Item> {
    match op
    case InsertKey(k) => Some(Item(k, if k in m then m[k] else d))
    case InsertItem(x) => Some(x)
    case IndexKey(k) => Some(Item(k, if k in m then m[k] else d))
    case SearchKey(k) => if k in m then Some(Item(k, m[k])) else None
    case SearchItem(x) => if x.key in m && m[x.key] == x.value then Some(x) else None
    case _ => None
  }

  ghost function Effects(ops: seq<Op>, n: nat, d: Value): map<Key, Value>
    requires n <= |ops|
  {
    if n == 0 then map[] else Effect(ops[n - 1], Effects(ops, n - 1, d), d)
  }

  ghost function Answers(ops: seq<Op>, d: Value): seq<Option<Item>> {
    seq(|ops|, i requires 0 <= i < |ops| => Answer(ops[i], Effects(ops, i, d), d))
  }

  method Do(m: RbMap, op: Op) returns (r: Option<Item>)
    requires m.Valid()
    modifies m.tree, m.tree.sentinel, m.tree.view.refs
    ensures m.Valid() && m.Model() == Effect(op, old(m.Model()), m.defaultValue)
    ensures r == Answer(op, old(m.Model()), m.defaultValue)
    ensures fresh(m.tree.view.refs - old(m.tree.view.refs))
  {
    hide RbTree.Valid, RbMap.Model;
    var node: RbNode? := null;
    ghost var pos;
    match op {
      case InsertKey(k) => node, pos := m.Insert(k);
      case InsertItem(x) => node := m.InsertPair(x);
      case DeleteKey(k) => m.Delete(k);
      case DeleteItem(x) => m.DeletePair(x);
      case IndexKey(k) => node := m.Index(k);
      case SearchKey(k) => node := m.Search(k);
      case SearchItem(x) => node := m.SearchPair(x);
      case ClearAll => m.Clear();
    }
    r := if node == null then None else Some(node.data);
  }

  /** Every sequence of operations on a new map answers as a finite map would, and leaves a
      red-black search tree of the finite map's entries. */
  method RunAll(ops: seq<Op>, d: Value, someKey: Key) returns (m: RbMap, r: seq<Option<Item>>)
    ensures fresh(m) && m.Valid() && m.Model() == Effects(ops, |ops|, d)
    ensures r == Answers(ops, d)
    ensures Pow2(Height(m.tree.tree)) <= (m.tree.nodeCount + 1) * (m.tree.nodeCount + 1)
  {
    hide RbTree.Valid, RbMap.Model, Effect, Answer;
    m := new RbMap(d, someKey);
    r := [];
    for i := 0 to |ops|
      invariant fresh(m) && fresh(m.tree) && fresh(m.tree.sentinel) && fresh(m.tree.view.refs)
      invariant m.Valid() && m.defaultValue == d && m.Model() == Effects(ops, i, d)
      invariant r == Answers(ops, d)[..i]
    {
      var x := Do(m, ops[i]);
      r := r + [x];
    }
    ValidHeight(m.tree);
  }
}
