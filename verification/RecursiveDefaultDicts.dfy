/** utils/recursive_default_dict.py: the mutable trie shared by retained messages and subscriptions. */
module RecursiveDefaultDicts {
  import opened Wrappers
  import opened Topics
  import opened Tries

  class RecursiveDefaultDict<V> {
    const defaultValue: V
    var slot: Option<V>                                  // the value under LEAF_KEY
    var keys: seq<string>                                // every key, in insertion order
    var kids: map<string, RecursiveDefaultDict<V>>       // the values under the other keys
    ghost var Repr: set<RecursiveDefaultDict<V>>
    ghost var Value: Trie<V>

    /** No object belongs to two children. */
    ghost predicate Separate()
      reads this`kids, kids.Values
    {
      forall j, k :: j in kids && k in kids && j != k ==> kids[j].Repr !! kids[k].Repr
    }

    /** This dict and the objects its children are made of, the children's own validity aside. */
    ghost predicate Linked()
      reads this, Repr
    {
      && this in Repr
      && Keyed(slot.Some?, keys, kids.Keys)
      && Value.slot == slot && Value.keys == keys && Value.kids.Keys == kids.Keys
      && (forall k :: k in kids ==>
            kids[k] in Repr && kids[k].Repr <= Repr && this !in kids[k].Repr &&
            kids[k].Value == Value.kids[k] && kids[k].defaultValue == defaultValue)
      && Separate()
    }

    ghost predicate Valid()
      reads this, Repr
      ensures Valid() ==> this in Repr
      decreases Repr
    {
      Linked() && forall k :: k in kids ==> kids[k].Valid()
    }

    lemma Unfold()
      requires Valid()
      ensures Linked() && forall k :: k in kids ==> kids[k].Valid()
    {
    }

    lemma Fold()
      requires Linked() && forall k :: k in kids ==> kids[k].Valid()
      ensures Valid()
    {
    }

    lemma {:induction false} ValueWellFormed()
      requires Valid()
      ensures WellFormed(Value)
      decreases Repr
    {
      forall k | k in kids
        ensures WellFormed(Value.kids[k])
      {
        kids[k].ValueWellFormed();
      }
    }

    lemma DistinctKeys(i: nat)
      requires Valid() && i < |keys|
      ensures keys[i] !in keys[..i]
    {
    }

    /** What the loops over items() rely on. */
    lemma KeyKinds()
      requires Valid()
      ensures LEAF_KEY !in kids && forall k :: k in keys <==> k in kids || (k == LEAF_KEY && slot.Some?)
      ensures Value.slot == slot && Value.keys == keys && Value.kids.Keys == kids.Keys
      ensures forall k :: k in kids ==> kids[k].Valid() && kids[k].Value == Value.kids[k] && kids[k].Repr < Repr
    {
    }

    constructor (defaultValue: V)
      ensures Valid() && fresh(this) && Repr == {this} && Value == Empty() && this.defaultValue == defaultValue
    {
      this.defaultValue := defaultValue;
      slot, keys, kids := None, [], map[];
      Repr, Value := {this}, Empty();
    }

    /** What the children of this dict are with one more. */
    lemma OneMoreChild(node: string, child: RecursiveDefaultDict<V>)
      requires Linked() && child.Repr == {child} && child !in Repr && child.defaultValue == defaultValue && node !in kids
      ensures var after := kids[node := child];
              && (forall k :: k in after ==>
                    after[k] in Repr + {child} && after[k].Repr <= Repr + {child} && this !in after[k].Repr && after[k] != this &&
                    after[k].Value == WithChild(Value, node, child.Value).kids[k] && after[k].defaultValue == defaultValue)
              && (forall j, k :: j in after && k in after && j != k ==> after[j].Repr !! after[k].Repr)
    {
      hide Keyed;
    }

    lemma Unlink()
      requires Linked()
      ensures this in Repr && Keyed(slot.Some?, keys, kids.Keys)
      ensures Value.slot == slot && Value.keys == keys && Value.kids.Keys == kids.Keys
    {
    }

    lemma Link()
      requires this in Repr && Keyed(slot.Some?, keys, kids.Keys)
      requires Value.slot == slot && Value.keys == keys && Value.kids.Keys == kids.Keys
      requires forall k :: k in kids ==>
        kids[k] in Repr && kids[k].Repr <= Repr && this !in kids[k].Repr &&
        kids[k].Value == Value.kids[k] && kids[k].defaultValue == defaultValue
      requires forall j, k :: j in kids && k in kids && j != k ==> kids[j].Repr !! kids[k].Repr
      ensures Linked()
    {
    }

    /** self[node] = child, for a new node and a dict no one else holds. */
    method Attach(node: string, child: RecursiveDefaultDict<V>)
      requires Linked() && child.Repr == {child} && child !in Repr && child.defaultValue == defaultValue
      requires node != LEAF_KEY && node !in kids
      modifies this
      ensures Linked() && Repr == old(Repr) + {child} && kids == old(kids)[node := child]
      ensures Value == WithChild(old(Value), node, child.Value)
    {
      hide Keyed, Linked, Separate;
      Unlink();
      KeyedWithKey(slot.Some?, keys, kids.Keys, node);
      OneMoreChild(node, child);
      assert kids[node := child].Keys == kids.Keys + {node};
      keys, kids := keys + [node], kids[node := child];
      Repr, Value := Repr + {child}, WithChild(Value, node, child.Value);
      Link();
    }

    /** self[node] for a node that is not LEAF_KEY: __missing__ inserts an empty child first. */
    method GetItem(node: string) returns (branch: RecursiveDefaultDict<V>)
      requires Valid() && node != LEAF_KEY
      modifies this
      ensures Valid() && fresh(Repr - old(Repr))
      ensures node in kids && branch == kids[node] && branch.Value == Child(old(Value), node)
      ensures Value == WithChild(old(Value), node, Child(old(Value), node))
    {
      hide Valid, Keyed, Separate;
      Unfold();
      if node !in kids {
        branch := new RecursiveDefaultDict(defaultValue);
        assert branch.Valid();
        Attach(node, branch);
        assert forall k :: k in old(kids) ==> old(kids)[k].Valid();
        Fold();
      } else {
        assert Value.kids[node := Value.kids[node]] == Value.kids;
        branch := kids[node];
      }
    }

    /** self[LEAF_KEY] = v. */
    method SetLeaf(v: V)
      requires Valid()
      modifies this
      ensures Valid() && Repr == old(Repr)
      ensures Value == WithSlot(old(Value), v)
    {
      hide Valid, Keyed, Separate;
      Unfold();
      KeyedWithSlot(slot.Some?, keys, kids.Keys);
      keys := if slot.Some? then keys else keys + [LEAF_KEY];
      slot, Value := Some(v), WithSlot(Value, v);
      Fold();
    }

    /** All of Linked except what it says about the Repr and Value of the child at node. */
    ghost predicate LinkedBut(node: string)
      reads this, Repr, kids.Values
    {
      && this in Repr && node in kids && this !in kids[node].Repr && kids[node].defaultValue == defaultValue
      && kids[node] in kids[node].Repr
      && Keyed(slot.Some?, keys, kids.Keys)
      && Value.slot == slot && Value.keys == keys && Value.kids.Keys == kids.Keys
      && (forall k :: k in kids && k != node ==>
            kids[k] in Repr && kids[k].Repr <= Repr && this !in kids[k].Repr &&
            kids[k].Value == Value.kids[k] && kids[k].defaultValue == defaultValue)
      && Separate()
    }

    /** After only the child at node changed, and grew by fresh objects alone, the other children stand as they were. */
    twostate lemma Rejoin(node: string)
      requires old(Linked()) && node in kids && unchanged(this)
      requires forall k :: k in kids ==> old(kids[k].Valid())
      requires forall o :: o in old(Repr) && o !in old(kids[node].Repr) ==> unchanged(o)
      requires kids[node].Valid() && fresh(kids[node].Repr - old(kids[node].Repr))
      ensures LinkedBut(node) && forall k :: k in kids ==> kids[k].Valid()
    {
      hide Valid, Keyed;
      forall k | k in kids && k != node
        ensures kids[k].Valid() && kids[k].Value == Value.kids[k] && kids[k].Repr == old(kids[k].Repr) && kids[k].Repr !! kids[node].Repr
      {
        assert unchanged(kids[k]);
        assert forall o :: o in kids[k].Repr ==> unchanged(o);
      }
    }

    /** Take in what happened to the child at node. */
    ghost method Settle(node: string)
      requires LinkedBut(node) && forall k :: k in kids ==> kids[k].Valid()
      modifies this
      ensures Valid() && Repr == old(Repr) + kids[node].Repr
      ensures Value == WithChild(old(Value), node, kids[node].Value)
      ensures slot == old(slot) && keys == old(keys) && kids == old(kids)
    {
      hide Valid, Keyed, Separate;
      Repr, Value := Repr + kids[node].Repr, WithChild(Value, node, kids[node].Value);
      Fold();
    }

    /** branch = self / path; branch.leaf = v. */
    method Assign(path: Path, v: V)
      requires Valid() && LEAF_KEY !in path
      modifies Repr
      ensures Valid() && fresh(Repr - old(Repr))
      ensures Value == Put(old(Value), path, v)
      decreases path, 1
    {
      hide Valid;
      if path == [] {
        SetLeaf(v);
      } else {
        var branch := GetItem(path[0]);
        AssignIn(path[0], path[1..], v);
      }
    }

    method AssignIn(node: string, path: Path, v: V)
      requires Valid() && LEAF_KEY !in path && node in kids
      modifies Repr
      ensures Valid() && fresh(Repr - old(Repr))
      ensures Value == WithChild(old(Value), node, Put(old(Value).kids[node], path, v))
      decreases path, 2
    {
      hide Valid, Keyed;
      Unfold();
      kids[node].Assign(path, v);
      Rejoin(node);
      Settle(node);
    }

    /** self << path: the value of the leaf at the end of the path, created with the default when missing. */
    method Shift(path: Path) returns (v: V)
      requires Valid() && LEAF_KEY !in path
      modifies Repr
      ensures Valid() && fresh(Repr - old(Repr))
      ensures v == SlotAt(old(Value), path).GetOr(defaultValue)
      ensures Value == Put(old(Value), path, v)
      decreases path, 1
    {
      hide Valid;
      if path == [] {
        v := slot.GetOr(defaultValue);
        Unfold();
        SetLeaf(v);
      } else {
        var branch := GetItem(path[0]);
        v := ShiftIn(path[0], path[1..]);
      }
    }

    method ShiftIn(node: string, path: Path) returns (v: V)
      requires Valid() && LEAF_KEY !in path && node in kids
      modifies Repr
      ensures Valid() && fresh(Repr - old(Repr))
      ensures v == SlotAt(old(Value).kids[node], path).GetOr(defaultValue)
      ensures Value == WithChild(old(Value), node, Put(old(Value).kids[node], path, v))
      decreases path, 2
    {
      hide Valid, Keyed;
      Unfold();
      v := kids[node].Shift(path);
      Rejoin(node);
      Settle(node);
    }

    /** self.pop(LEAF_KEY). */
    method PopLeaf()
      requires Valid()
      modifies this
      ensures Valid() && Repr == old(Repr)
      ensures Value == Prune(old(Value), [])
    {
      hide Valid, Keyed, Separate;
      Unfold();
      KeyedWithoutSlot(slot.Some?, keys, kids.Keys);
      keys := Without(keys, LEAF_KEY);
      slot, Value := None, Prune(Value, []);
      Fold();
    }

    /** self.pop(node). */
    method Detach(node: string)
      requires Valid() && node in kids
      modifies this
      ensures Valid() && Repr == old(Repr)
      ensures Value == Trie(old(Value).slot, Without(old(Value).keys, node), old(Value).kids - {node})
    {
      hide Valid, Keyed;
      Unfold();
      KeyedWithoutKey(slot.Some?, keys, kids.Keys, node);
      keys, kids := Without(keys, node), kids - {node};
      Value := Trie(slot, keys, Value.kids - {node});
      assert kids.Keys == old(kids).Keys - {node};
      Fold();
    }

    /** Drop an existing leaf, then on the way back every branch this leaves without keys. */
    method CascadeDelete(path: Path)
      requires Valid() && SlotAt(Value, path).Some?
      modifies Repr
      ensures Valid() && Repr == old(Repr)
      ensures Value == Prune(old(Value), path)
      decreases path, 1
    {
      hide Valid, Keyed;
      if path == [] {
        PopLeaf();
      } else {
        Unfold();
        CascadeDeleteIn(path[0], path[1..]);
        Unfold();
        kids[path[0]].Unfold();
        if kids[path[0]].keys == [] {
          assert Value.kids - {path[0]} == old(Value).kids - {path[0]};
          Detach(path[0]);
        }
      }
    }

    method CascadeDeleteIn(node: string, path: Path)
      requires Valid() && node in kids && SlotAt(Value.kids[node], path).Some?
      modifies Repr
      ensures Valid() && Repr == old(Repr) && node in kids
      ensures Value == WithChild(old(Value), node, Prune(old(Value).kids[node], path))
      decreases path, 2
    {
      hide Valid, Keyed;
      Unfold();
      kids[node].CascadeDelete(path);
      Rejoin(node);
      Settle(node);
    }
  }
}
