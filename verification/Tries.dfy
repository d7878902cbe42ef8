/**
 The abstract value of a RecursiveDefaultDict: a trie whose nodes remember their leaf and the
 insertion order of their keys. A leaf slot is None when the node has no LEAF_KEY at all.
 */
module Tries {
  import opened Wrappers
  import opened Topics

  datatype Trie<V> = Trie(slot: Option<V>, keys: seq<string>, kids: map<string, Trie<V>>)

  function Empty<V>(): Trie<V> {
    Trie(None, [], map[])
  }

  predicate Distinct<T(==)>(s: seq<T>) {
    forall i, j :: 0 <= i < j < |s| ==> s[i] != s[j]
  }

  /** The key list of a dict: no key twice, LEAF_KEY for the slot, the rest for the children. */
  ghost predicate Keyed(hasLeaf: bool, keys: seq<string>, names: set<string>) {
    Distinct(keys) && LEAF_KEY !in names &&
    forall k :: k in keys <==> k in names || (k == LEAF_KEY && hasLeaf)
  }

  lemma KeyedWithKey(hasLeaf: bool, keys: seq<string>, names: set<string>, name: string)
    requires Keyed(hasLeaf, keys, names) && name !in names && name != LEAF_KEY
    ensures Keyed(hasLeaf, keys + [name], names + {name})
  {
  }

  lemma KeyedWithSlot(hasLeaf: bool, keys: seq<string>, names: set<string>)
    requires Keyed(hasLeaf, keys, names)
    ensures Keyed(true, if hasLeaf then keys else keys + [LEAF_KEY], names)
  {
  }

  lemma KeyedWithoutKey(hasLeaf: bool, keys: seq<string>, names: set<string>, name: string)
    requires Keyed(hasLeaf, keys, names) && name in names
    ensures Keyed(hasLeaf, Without(keys, name), names - {name})
  {
    WithoutKey(keys, name);
  }

  lemma KeyedWithoutSlot(hasLeaf: bool, keys: seq<string>, names: set<string>)
    requires Keyed(hasLeaf, keys, names)
    ensures Keyed(false, Without(keys, LEAF_KEY), names)
  {
    WithoutKey(keys, LEAF_KEY);
  }

  ghost predicate WellFormed<V>(t: Trie<V>) {
    Keyed(t.slot.Some?, t.keys, t.kids.Keys) &&
    forall k :: k in t.kids ==> WellFormed(t.kids[k])
  }

  predicate HasPath<V>(t: Trie<V>, path: Path) {
    path == [] || (path[0] in t.kids && HasPath(t.kids[path[0]], path[1..]))
  }

  function SlotAt<V>(t: Trie<V>, path: Path): Option<V> {
    if path == [] then t.slot
    else if path[0] in t.kids then SlotAt(t.kids[path[0]], path[1..])
    else None
  }

  function Child<V>(t: Trie<V>, key: string): Trie<V> {
    if key in t.kids then t.kids[key] else Empty()
  }

  function WithChild<V>(t: Trie<V>, key: string, child: Trie<V>): Trie<V> {
    Trie(t.slot, if key in t.kids then t.keys else t.keys + [key], t.kids[key := child])
  }

  function WithSlot<V>(t: Trie<V>, v: V): Trie<V> {
    Trie(Some(v), if t.slot.Some? then t.keys else t.keys + [LEAF_KEY], t.kids)
  }

  /** Walk a path, then assign the leaf of its last node. */
  function Put<V>(t: Trie<V>, path: Path, v: V): Trie<V>
    decreases path
  {
    if path == [] then WithSlot(t, v) else WithChild(t, path[0], Put(Child(t, path[0]), path[1..], v))
  }

  function Without(keys: seq<string>, key: string): seq<string> {
    if keys == [] then []
    else if keys[0] == key then Without(keys[1..], key)
    else [keys[0]] + Without(keys[1..], key)
  }

  /** cascade_delete: drop the leaf at the end of the path and every branch this empties. */
  function Prune<V>(t: Trie<V>, path: Path): Trie<V>
    decreases path
  {
    if path == [] then Trie(None, Without(t.keys, LEAF_KEY), t.kids)
    else
      var child := Prune(Child(t, path[0]), path[1..]);
      if child.keys == [] then Trie(t.slot, Without(t.keys, path[0]), t.kids - {path[0]})
      else WithChild(t, path[0], child)
  }

  /** No branch without keys below the root. */
  ghost predicate NoEmptyBranch<V>(t: Trie<V>) {
    forall k :: k in t.kids ==> t.kids[k].keys != [] && NoEmptyBranch(t.kids[k])
  }

  /** The branch at the end of a path. */
  function SubtrieAt<V>(t: Trie<V>, path: Path): Trie<V>
    requires HasPath(t, path)
    decreases path
  {
    if path == [] then t else SubtrieAt(t.kids[path[0]], path[1..])
  }

  /** The first "#" of a topic stands before its end, at n, and p is a path of the trie that leads to it. */
  ghost predicate Misplaced<V>(t: Trie<V>, topic: Path, n: nat, p: Path) {
    && n < |topic| - 1 && topic[n] == EVERYTHING_CARD && EVERYTHING_CARD !in topic[..n]
    && Matches(topic[..n], p) && HasPath(t, p)
  }

  lemma MisplacedStep<V>(t: Trie<V>, topic: Path, n: nat, p: Path)
    requires 0 < n < |topic| && topic[0] != EVERYTHING_CARD && p != []
    ensures Misplaced(t, topic, n, p) <==>
            p[0] in t.kids && (topic[0] == MANY_CARD || topic[0] == p[0]) && Misplaced(t.kids[p[0]], topic[1..], n - 1, p[1..])
  {
    assert topic[..n] == [topic[0]] + topic[1..][..n - 1];
    MatchesStep(topic[..n], p);
    assert topic[..n][1..] == topic[1..][..n - 1];
  }

  // ---------------------------------------------------------------- laws

  lemma {:induction false} PutSlot<V>(t: Trie<V>, path: Path, v: V, other: Path)
    ensures SlotAt(Put(t, path, v), other) == if other == path then Some(v) else SlotAt(t, other)
    decreases path
  {
    if path != [] && other != [] && path[0] == other[0] {
      PutSlot(Child(t, path[0]), path[1..], v, other[1..]);
      assert other == path <==> other[1..] == path[1..] by {
        assert other == [other[0]] + other[1..] && path == [path[0]] + path[1..];
      }
    }
  }

  /** A new key joins the others at the end, at every node of the way. */
  lemma {:induction false} PutKeepsOrder<V>(t: Trie<V>, path: Path, v: V, at: Path)
    requires HasPath(t, at)
    ensures HasPath(Put(t, path, v), at)
    ensures SubtrieAt(t, at).keys <= SubtrieAt(Put(t, path, v), at).keys
    decreases path
  {
    if path != [] && at != [] && path[0] == at[0] {
      PutKeepsOrder(t.kids[path[0]], path[1..], v, at[1..]);
    }
  }

  lemma {:induction false} PutWellFormed<V>(t: Trie<V>, path: Path, v: V)
    requires WellFormed(t) && LEAF_KEY !in path
    ensures WellFormed(Put(t, path, v))
    decreases path
  {
    if path != [] {
      PutWellFormed(Child(t, path[0]), path[1..], v);
    }
  }

  lemma {:induction false} PruneWellFormed<V>(t: Trie<V>, path: Path)
    requires WellFormed(t) && SlotAt(t, path).Some?
    ensures WellFormed(Prune(t, path))
    decreases path
  {
    hide Keyed, Without;
    if path == [] {
      KeyedWithoutSlot(t.slot.Some?, t.keys, t.kids.Keys);
    } else {
      KeyedWithoutKey(t.slot.Some?, t.keys, t.kids.Keys, path[0]);
      PruneWellFormed(t.kids[path[0]], path[1..]);
      assert (t.kids - {path[0]}).Keys == t.kids.Keys - {path[0]};
      assert t.kids[path[0] := Prune(t.kids[path[0]], path[1..])].Keys == t.kids.Keys;
    }
  }

  /** Pruning an existing leaf removes that leaf and no other. */
  lemma {:induction false} PruneSlot<V>(t: Trie<V>, path: Path, other: Path)
    requires WellFormed(t) && SlotAt(t, path).Some?
    ensures SlotAt(Prune(t, path), other) == if other == path then None else SlotAt(t, other)
    decreases path
  {
    hide Keyed, Without;
    if path != [] && other != [] && other[0] == path[0] {
      PruneSlot(t.kids[path[0]], path[1..], other[1..]);
      assert path == [path[0]] + path[1..] && other == [other[0]] + other[1..];
      PruneWellFormed(t.kids[path[0]], path[1..]);
      NoKeysNoSlot(Prune(t.kids[path[0]], path[1..]), other[1..]);
    }
  }

  lemma NoKeysNoSlot<V>(t: Trie<V>, path: Path)
    requires WellFormed(t)
    ensures t.keys == [] ==> SlotAt(t, path) == None
  {
    assert path != [] && path[0] in t.kids ==> path[0] in t.keys;
    assert t.slot.Some? ==> LEAF_KEY in t.keys;
  }

  lemma {:induction false} WithoutKey(keys: seq<string>, key: string)
    requires Distinct(keys)
    ensures Distinct(Without(keys, key))
    ensures forall k :: k in Without(keys, key) <==> k in keys && k != key
    ensures key !in keys ==> Without(keys, key) == keys
  {
    if keys != [] {
      assert keys == [keys[0]] + keys[1..];
      assert forall k :: k in keys <==> k == keys[0] || k in keys[1..];
      WithoutKey(keys[1..], key);
      assert keys[0] !in keys[1..];
    }
  }

  lemma WithoutLast(keys: seq<string>, key: string)
    requires key !in keys
    ensures Without(keys + [key], key) == keys
  {
    if keys != [] {
      assert (keys + [key])[1..] == keys[1..] + [key];
      WithoutLast(keys[1..], key);
    }
  }

  /** Creating a leaf that was not there and pruning it again restores the very same trie, key order included. */
  lemma {:induction false} PruneUndoesPut<V>(t: Trie<V>, path: Path, v: V)
    requires WellFormed(t) && NoEmptyBranch(t) && LEAF_KEY !in path && SlotAt(t, path) == None
    ensures Prune(Put(t, path, v), path) == t
    decreases path
  {
    if path == [] {
      WithoutLast(t.keys, LEAF_KEY);
    } else {
      PruneUndoesPut(Child(t, path[0]), path[1..], v);
      if path[0] !in t.kids {
        assert path[0] !in t.keys;
        WithoutLast(t.keys, path[0]);
        assert t.kids[path[0] := Put(Empty(), path[1..], v)] - {path[0]} == t.kids;
      } else {
        var child := Put(t.kids[path[0]], path[1..], v);
        assert t.kids[path[0] := child][path[0] := t.kids[path[0]]] == t.kids;
      }
    }
  }

  lemma {:induction false} PutNoEmptyBranch<V>(t: Trie<V>, path: Path, v: V)
    requires WellFormed(t) && NoEmptyBranch(t)
    ensures NoEmptyBranch(Put(t, path, v)) && Put(t, path, v).keys != []
    decreases path
  {
    if path == [] {
      assert t.slot.Some? ==> LEAF_KEY in t.keys;
    } else {
      PutNoEmptyBranch(Child(t, path[0]), path[1..], v);
      assert path[0] in t.kids ==> path[0] in t.keys;
    }
  }

  lemma {:induction false} PruneNoEmptyBranch<V>(t: Trie<V>, path: Path)
    requires WellFormed(t) && NoEmptyBranch(t)
    ensures NoEmptyBranch(Prune(t, path))
    decreases path
  {
    if path != [] {
      PruneNoEmptyBranch(Child(t, path[0]), path[1..]);
    }
  }

  lemma {:induction false} PutSame<V>(t: Trie<V>, path: Path, v: V)
    requires SlotAt(t, path) == Some(v)
    ensures Put(t, path, v) == t
    decreases path
  {
    if path != [] {
      PutSame(t.kids[path[0]], path[1..], v);
      assert t.kids[path[0] := t.kids[path[0]]] == t.kids;
    }
  }
}
