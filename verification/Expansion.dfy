/** What a wildcard publish expands to, exactly; and that retaining it does not change what it expands to. */
module Expansion {
  import opened Wrappers
  import opened Topics
  import opened Tries
  import opened Rows
  import opened ApplicableRows

  /**
   The topics a publish reaches, read off the tree's paths: a static topic reaches itself; under
   wildcards the parent of each match must be a path of the tree, and the match itself when the last
   node is "+"; a trailing "#" reaches every leaf, tombstones included, strictly below a prefix match.
   */
  ghost predicate Applies(t: Trie<Payload>, topic: Path, foundWildcard: bool, q: Path)
    requires topic != []
  {
    var n := |topic| - 1;
    if topic[n] == EVERYTHING_CARD then
      EVERYTHING_CARD !in topic[..n] && |q| > n && Matches(topic[..n], q[..n]) && SlotAt(t, q).Some?
    else if EVERYTHING_CARD in topic then false
    else if IsStatic(topic) && !foundWildcard then q == topic
    else Matches(topic, q) && HasPath(t, q[..n]) && (topic[n] == MANY_CARD ==> HasPath(t, q))
  }

  lemma UnderMember(key: string, topics: seq<Path>, q: Path)
    ensures q in Under([key], topics) <==> q != [] && q[0] == key && q[1..] in topics
  {
    var under := Under([key], topics);
    if q in under {
      var i :| 0 <= i < |under| && under[i] == q;
      assert q == [key] + topics[i] && q[1..] == topics[i];
    }
    if q != [] && q[0] == key && q[1..] in topics {
      var i :| 0 <= i < |topics| && topics[i] == q[1..];
      assert q == [key] + topics[i] && under[i] == q;
    }
  }

  lemma {:induction false} EverythingUnderMember(t: Trie<Payload>, keys: seq<string>, start: bool, q: Path)
    requires WellFormed(t) && forall k :: k in keys ==> k in t.keys
    ensures q in EverythingUnder(t, keys, start) <==>
            if q == [] then !start && LEAF_KEY in keys
            else q[0] in keys && q[0] in t.kids && q[1..] in Everything(t.kids[q[0]], false)
    decreases |keys|
  {
    if keys != [] {
      var init, key := keys[..|keys| - 1], keys[|keys| - 1];
      assert keys == init + [key];
      assert key in keys;
      EverythingUnderMember(t, init, start, q);
      if key in t.kids {
        UnderMember(key, Everything(t.kids[key], false), q);
      }
    }
  }

  lemma {:induction false} EverythingExact(t: Trie<Payload>, start: bool, q: Path)
    requires WellFormed(t)
    ensures q in Everything(t, start) <==> SlotAt(t, q).Some? && (start ==> q != [])
    decreases q
  {
    EverythingUnderMember(t, t.keys, start, q);
    if q != [] && q[0] in t.kids {
      EverythingExact(t.kids[q[0]], false, q[1..]);
    }
  }

  lemma {:induction false} ExpandUnderMember(t: Trie<Payload>, keys: seq<string>, nextTopic: Path, q: Path)
    requires ExpandUnder(t, keys, nextTopic).Ok?
    ensures forall k :: k in keys && k in t.kids && nextTopic != [] ==> Expand(t.kids[k], nextTopic, true).Ok?
    ensures q in ExpandUnder(t, keys, nextTopic).value <==>
            q != [] && q[0] in keys && q[0] in t.kids &&
            if nextTopic == [] then q == [q[0]] else q[1..] in Expand(t.kids[q[0]], nextTopic, true).value
    decreases |keys|
  {
    if keys != [] {
      var init, key := keys[..|keys| - 1], keys[|keys| - 1];
      assert keys == init + [key];
      ExpandUnderMember(t, init, nextTopic, q);
      if key in t.kids && nextTopic != [] {
        UnderMember(key, Expand(t.kids[key], nextTopic, true).value, q);
      }
    }
  }

  lemma HasPathStep(t: Trie<Payload>, q: Path, n: nat)
    requires 0 < n <= |q|
    ensures HasPath(t, q[..n]) <==> q[0] in t.kids && HasPath(t.kids[q[0]], q[1..][..n - 1])
  {
    assert q[..n][1..] == q[1..][..n - 1];
  }

  /** A topic of several nodes reaches what its rest reaches in the branches its first node selects. */
  lemma AppliesStep(t: Trie<Payload>, topic: Path, foundWildcard: bool, q: Path)
    requires |topic| > 1 && topic[0] != EVERYTHING_CARD
    requires topic[0] == MANY_CARD || topic[0] in t.kids
    ensures Applies(t, topic, foundWildcard, q) <==>
            q != [] && q[0] in t.kids && (topic[0] == MANY_CARD || topic[0] == q[0]) &&
            Applies(t.kids[q[0]], topic[1..], foundWildcard || topic[0] == MANY_CARD, q[1..])
  {
    var n, rest := |topic| - 1, topic[1..];
    assert topic == [topic[0]] + rest && topic[n] == rest[n - 1];
    assert topic[..n] == [topic[0]] + rest[..n - 1];
    MatchesStep(topic, q);
    assert topic[0] in topic && forall node :: node in rest ==> node in topic;
    assert IsStatic(topic) <==> topic[0] != MANY_CARD && IsStatic(rest);
    assert EVERYTHING_CARD in topic <==> EVERYTHING_CARD in rest;
    assert EVERYTHING_CARD in topic[..n] <==> EVERYTHING_CARD in rest[..n - 1];
    if q != [] {
      assert q == [q[0]] + q[1..];
      if |q| >= n {
        HasPathStep(t, q, n);
        MatchesStep(topic[..n], q[..n]);
        assert q[..n][1..] == q[1..][..n - 1] && topic[..n][1..] == rest[..n - 1];
      }
    }
  }

  lemma LastAny(t: Trie<Payload>, foundWildcard: bool, q: Path)
    ensures Applies(t, [MANY_CARD], foundWildcard, q) <==> q != [] && q[0] in t.kids && q == [q[0]]
  {
    var topic := [MANY_CARD];
    assert topic[0] in topic && !IsStatic(topic);
    if |q| == 1 {
      assert q == [q[0]] && q[1..] == [] && q[..0] == [];
      assert HasPath(t, q) <==> q[0] in t.kids;
    }
  }

  /** The expansion is exact: it yields the topics the publish reaches and no others. */
  lemma {:induction false} ExpandExact(t: Trie<Payload>, topic: Path, foundWildcard: bool, q: Path)
    requires topic != [] && WellFormed(t) && Expand(t, topic, foundWildcard).Ok?
    ensures q in Expand(t, topic, foundWildcard).value <==> Applies(t, topic, foundWildcard, q)
    decreases topic
  {
    var node, nextTopic := topic[0], topic[1..];
    assert topic == [node] + nextTopic;
    if node == EVERYTHING_CARD {
      EverythingExact(t, true, q);
      assert topic[..0] == [] && q[..0] == [];
    } else if node == MANY_CARD {
      ExpandUnderMember(t, t.keys, nextTopic, q);
      if nextTopic == [] {
        LastAny(t, foundWildcard, q);
        assert topic == [MANY_CARD];
      } else {
        AppliesStep(t, topic, foundWildcard, q);
        if q != [] && q[0] in t.kids {
          ExpandExact(t.kids[q[0]], nextTopic, true, q[1..]);
        }
      }
    } else if nextTopic == [] {
      assert topic == [node] && q[..0] == [];
      assert Matches(topic, q) <==> q == topic;
    } else if node !in t.kids {
      NothingBelow(t, topic, foundWildcard, q);
    } else {
      AppliesStep(t, topic, foundWildcard, q);
      UnderMember(node, Expand(t.kids[node], nextTopic, foundWildcard).value, q);
      ExpandExact(t.kids[node], nextTopic, foundWildcard, if q == [] then [] else q[1..]);
    }
  }

  lemma NothingBelow(t: Trie<Payload>, topic: Path, foundWildcard: bool, q: Path)
    requires |topic| > 1 && IsNodeStatic(topic[0]) && topic[0] !in t.kids
    ensures Applies(t, topic, foundWildcard, q) <==> !foundWildcard && IsStatic(topic) && q == topic
    ensures IsStatic(topic) <==> IsStatic(topic[1..])
  {
    var n := |topic| - 1;
    assert topic == [topic[0]] + topic[1..];
    assert topic[n] in topic && topic[..n][0] == topic[0];
    if q != [] {
      MatchesStep(topic, q);
      if |q| >= n {
        MatchesStep(topic[..n], q[..n]);
        HasPathStep(t, q, n);
      }
    }
  }

  // ---------------------------------------------------------------- no topic twice

  lemma UnderDistinct(key: string, topics: seq<Path>)
    requires Distinct(topics)
    ensures Distinct(Under([key], topics))
  {
    var under := Under([key], topics);
    forall i, j | 0 <= i < j < |under|
      ensures under[i] != under[j]
    {
      assert under[i][1..] == topics[i] && under[j][1..] == topics[j];
    }
  }

  lemma DistinctJoin(a: seq<Path>, b: seq<Path>)
    requires Distinct(a) && Distinct(b) && forall q :: q in a ==> q !in b
    ensures Distinct(a + b)
  {
    forall i, j | 0 <= i < j < |a + b|
      ensures (a + b)[i] != (a + b)[j]
    {
      if i < |a| <= j {
        assert a[i] in a && b[j - |a|] in b;
      }
    }
  }

  lemma {:induction false} EverythingUnderDistinct(t: Trie<Payload>, keys: seq<string>, start: bool)
    requires WellFormed(t) && Distinct(keys) && forall k :: k in keys ==> k in t.keys
    ensures Distinct(EverythingUnder(t, keys, start))
    decreases t, |keys|
  {
    if keys != [] {
      var init, key := keys[..|keys| - 1], keys[|keys| - 1];
      assert key in keys && keys == init + [key] && key !in init;
      EverythingUnderDistinct(t, init, start);
      var more := if key in t.kids then Under([key], Everything(t.kids[key], false)) else if start then [] else [[]];
      if key in t.kids {
        EverythingUnderDistinct(t.kids[key], t.kids[key].keys, false);
        UnderDistinct(key, Everything(t.kids[key], false));
      }
      forall q | q in EverythingUnder(t, init, start)
        ensures q !in more
      {
        EverythingUnderMember(t, init, start, q);
        if key in t.kids {
          UnderMember(key, Everything(t.kids[key], false), q);
        }
      }
      DistinctJoin(EverythingUnder(t, init, start), more);
    }
  }

  lemma {:induction false} ExpandUnderDistinct(t: Trie<Payload>, keys: seq<string>, nextTopic: Path)
    requires WellFormed(t) && Distinct(keys) && ExpandUnder(t, keys, nextTopic).Ok?
    ensures Distinct(ExpandUnder(t, keys, nextTopic).value)
    decreases nextTopic, 1, |keys|
  {
    if keys != [] {
      var init, key := keys[..|keys| - 1], keys[|keys| - 1];
      assert key in keys && keys == init + [key] && key !in init;
      ExpandUnderDistinct(t, init, nextTopic);
      if key in t.kids {
        var before := ExpandUnder(t, init, nextTopic).value;
        var more := if nextTopic == [] then [[key]] else Under([key], Expand(t.kids[key], nextTopic, true).value);
        if nextTopic != [] {
          ExpandDistinct(t.kids[key], nextTopic, true);
          UnderDistinct(key, Expand(t.kids[key], nextTopic, true).value);
        }
        forall q | q in before
          ensures q !in more
        {
          ExpandUnderMember(t, init, nextTopic, q);
          if nextTopic != [] {
            UnderMember(key, Expand(t.kids[key], nextTopic, true).value, q);
          }
        }
        DistinctJoin(before, more);
      }
    }
  }

  lemma {:induction false} ExpandDistinct(t: Trie<Payload>, topic: Path, foundWildcard: bool)
    requires topic != [] && WellFormed(t) && Expand(t, topic, foundWildcard).Ok?
    ensures Distinct(Expand(t, topic, foundWildcard).value)
    decreases topic, 0
  {
    var node, nextTopic := topic[0], topic[1..];
    if node == EVERYTHING_CARD {
      EverythingUnderDistinct(t, t.keys, true);
    } else if node == MANY_CARD {
      ExpandUnderDistinct(t, t.keys, nextTopic);
    } else if nextTopic != [] && node in t.kids {
      ExpandDistinct(t.kids[node], nextTopic, foundWildcard);
      UnderDistinct(node, Expand(t.kids[node], nextTopic, foundWildcard).value);
    }
  }

  // ---------------------------------------------------------------- the error

  lemma {:induction false} UnderFails(t: Trie<Payload>, keys: seq<string>, nextTopic: Path) returns (key: string)
    requires ExpandUnder(t, keys, nextTopic).Err?
    ensures key in keys && key in t.kids && nextTopic != [] && Expand(t.kids[key], nextTopic, true).Err?
    decreases |keys|
  {
    key := keys[|keys| - 1];
    if ExpandUnder(t, keys[..|keys| - 1], nextTopic).Err? {
      key := UnderFails(t, keys[..|keys| - 1], nextTopic);
    }
  }

  lemma {:induction false} Fails(t: Trie<Payload>, topic: Path, foundWildcard: bool) returns (n: nat, p: Path)
    requires topic != [] && Expand(t, topic, foundWildcard).Err?
    ensures Misplaced(t, topic, n, p)
    decreases topic
  {
    var node, nextTopic := topic[0], topic[1..];
    if node == EVERYTHING_CARD {
      n, p := 0, [];
      assert topic[..0] == [];
    } else {
      var key := node;
      if node == MANY_CARD {
        key := UnderFails(t, t.keys, nextTopic);
      }
      n, p := Fails(t.kids[key], nextTopic, foundWildcard || node == MANY_CARD);
      n, p := n + 1, [key] + p;
      MisplacedStep(t, topic, n, p);
    }
  }

  lemma {:induction false} MustFail(t: Trie<Payload>, topic: Path, foundWildcard: bool, n: nat, p: Path)
    requires topic != [] && WellFormed(t) && Misplaced(t, topic, n, p)
    ensures Expand(t, topic, foundWildcard).Err?
    decreases topic
  {
    if n > 0 {
      assert topic[0] in topic[..n] && p != [];
      MisplacedStep(t, topic, n, p);
      MustFail(t.kids[p[0]], topic[1..], foundWildcard || topic[0] == MANY_CARD, n - 1, p[1..]);
      if topic[0] == MANY_CARD && ExpandUnder(t, t.keys, topic[1..]).Ok? {
        ExpandUnderMember(t, t.keys, topic[1..], p);
      }
    }
  }

  /** The expansion fails exactly when a "#" before the end is reached along existing branches. */
  lemma ExpandFails(t: Trie<Payload>, topic: Path, foundWildcard: bool)
    requires topic != [] && WellFormed(t)
    ensures Expand(t, topic, foundWildcard).Err? <==> exists n, p :: Misplaced(t, topic, n, p)
  {
    if Expand(t, topic, foundWildcard).Err? {
      var n, p := Fails(t, topic, foundWildcard);
    }
    if n, p :| Misplaced(t, topic, n, p) {
      MustFail(t, topic, foundWildcard, n, p);
    }
  }

  // ---------------------------------------------------------------- publishing twice

  /** Same keys and same leaves present at every level. */
  ghost predicate SameShape(t: Trie<Payload>, u: Trie<Payload>) {
    && u.keys == t.keys && u.kids.Keys == t.kids.Keys && (u.slot.Some? <==> t.slot.Some?)
    && forall k :: k in t.kids ==> SameShape(t.kids[k], u.kids[k])
  }

  /** Whatever the expansion of a topic looks at is the same in both tries. */
  ghost predicate SameView(t: Trie<Payload>, u: Trie<Payload>, topic: Path, foundWildcard: bool)
    requires topic != []
  {
    var node, nextTopic := topic[0], topic[1..];
    if node == EVERYTHING_CARD then
      nextTopic == [] ==> SameShape(t, u)
    else if node == MANY_CARD then
      && u.keys == t.keys && u.kids.Keys == t.kids.Keys
      && (nextTopic != [] ==> forall k :: k in t.kids ==> SameView(t.kids[k], u.kids[k], nextTopic, true))
    else if nextTopic == [] then true
    else if node in t.kids then
      node in u.kids && SameView(t.kids[node], u.kids[node], nextTopic, foundWildcard)
    else foundWildcard || !IsStatic(nextTopic) ==> node !in u.kids
  }

  lemma {:induction false} SameShapeReflexive(t: Trie<Payload>)
    ensures SameShape(t, t)
  {
    forall k | k in t.kids
      ensures SameShape(t.kids[k], t.kids[k])
    {
      SameShapeReflexive(t.kids[k]);
    }
  }

  lemma {:induction false} SameViewReflexive(t: Trie<Payload>, topic: Path, foundWildcard: bool)
    requires topic != []
    ensures SameView(t, t, topic, foundWildcard)
    decreases topic
  {
    SameShapeReflexive(t);
    if |topic| > 1 {
      forall k | k in t.kids
        ensures SameView(t.kids[k], t.kids[k], topic[1..], foundWildcard) && SameView(t.kids[k], t.kids[k], topic[1..], true)
      {
        SameViewReflexive(t.kids[k], topic[1..], foundWildcard);
        SameViewReflexive(t.kids[k], topic[1..], true);
      }
    }
  }

  lemma {:induction false} SameShapeEverything(t: Trie<Payload>, u: Trie<Payload>, keys: seq<string>, start: bool)
    requires SameShape(t, u)
    ensures EverythingUnder(t, keys, start) == EverythingUnder(u, keys, start)
    decreases t, |keys|
  {
    if keys != [] {
      var init, key := keys[..|keys| - 1], keys[|keys| - 1];
      SameShapeEverything(t, u, init, start);
      if key in t.kids {
        SameShapeEverything(t.kids[key], u.kids[key], t.kids[key].keys, false);
      }
    }
  }

  lemma {:induction false} SameViewUnder(t: Trie<Payload>, u: Trie<Payload>, keys: seq<string>, nextTopic: Path)
    requires u.kids.Keys == t.kids.Keys
    requires nextTopic != [] ==> forall k :: k in t.kids ==> SameView(t.kids[k], u.kids[k], nextTopic, true)
    ensures ExpandUnder(t, keys, nextTopic) == ExpandUnder(u, keys, nextTopic)
    decreases nextTopic, 1, |keys|
  {
    if keys != [] {
      var init, key := keys[..|keys| - 1], keys[|keys| - 1];
      SameViewUnder(t, u, init, nextTopic);
      if key in t.kids && nextTopic != [] {
        SameViewExpand(t.kids[key], u.kids[key], nextTopic, true);
      }
    }
  }

  lemma {:induction false} StaticExpand(t: Trie<Payload>, topic: Path)
    requires topic != [] && IsStatic(topic)
    ensures Expand(t, topic, false) == Ok([topic])
    decreases topic
  {
    assert topic == [topic[0]] + topic[1..];
    assert topic[0] in topic && forall node :: node in topic[1..] ==> node in topic;
    if |topic| > 1 && topic[0] in t.kids {
      StaticExpand(t.kids[topic[0]], topic[1..]);
      assert Under([topic[0]], [topic[1..]]) == [topic];
    }
  }

  lemma {:induction false} SameViewExpand(t: Trie<Payload>, u: Trie<Payload>, topic: Path, foundWildcard: bool)
    requires topic != [] && SameView(t, u, topic, foundWildcard)
    ensures Expand(t, topic, foundWildcard) == Expand(u, topic, foundWildcard)
    decreases topic, 0
  {
    var node, nextTopic := topic[0], topic[1..];
    if node == EVERYTHING_CARD {
      if nextTopic == [] {
        SameShapeEverything(t, u, t.keys, true);
      }
    } else if node == MANY_CARD {
      SameViewUnder(t, u, t.keys, nextTopic);
    } else if nextTopic != [] {
      if node in t.kids {
        SameViewExpand(t.kids[node], u.kids[node], nextTopic, foundWildcard);
      } else if node in u.kids {
        assert topic == [node] + nextTopic;
        StaticExpand(u, topic);
      }
    }
  }

  lemma {:induction false} PutSameShape(t: Trie<Payload>, u: Trie<Payload>, q: Path, data: Payload)
    requires SameShape(t, u) && SlotAt(t, q).Some?
    ensures SameShape(t, Put(u, q, data))
    decreases q
  {
    if q != [] {
      PutSameShape(t.kids[q[0]], u.kids[q[0]], q[1..], data);
    }
  }

  /** Retaining one of the topics a publish reaches leaves what its expansion looks at as it was. */
  lemma {:induction false} PutSameView(t: Trie<Payload>, u: Trie<Payload>, topic: Path, foundWildcard: bool, q: Path, data: Payload)
    requires topic != [] && WellFormed(t) && SameView(t, u, topic, foundWildcard)
    requires Expand(t, topic, foundWildcard).Ok? && q in Expand(t, topic, foundWildcard).value
    ensures SameView(t, Put(u, q, data), topic, foundWildcard)
    decreases topic
  {
    var node, nextTopic := topic[0], topic[1..];
    if node == EVERYTHING_CARD {
      EverythingExact(t, true, q);
      PutSameShape(t, u, q, data);
    } else if node == MANY_CARD {
      ExpandUnderMember(t, t.keys, nextTopic, q);
      if nextTopic != [] {
        PutSameView(t.kids[q[0]], u.kids[q[0]], nextTopic, true, q[1..], data);
      }
    } else if nextTopic != [] && node in t.kids {
      UnderMember(node, Expand(t.kids[node], nextTopic, foundWildcard).value, q);
      PutSameView(t.kids[node], u.kids[node], nextTopic, foundWildcard, q[1..], data);
    }
  }

  lemma {:induction false} RetainSameView(t: Trie<Payload>, u: Trie<Payload>, topic: Path, rows: seq<Row>)
    requires topic != [] && WellFormed(t) && SameView(t, u, topic, false) && Expand(t, topic, false).Ok?
    requires forall row :: row in rows ==> row.topic in Expand(t, topic, false).value
    ensures SameView(t, RetainAll(u, rows), topic, false)
    decreases |rows|
  {
    if rows != [] {
      var init, last := rows[..|rows| - 1], rows[|rows| - 1];
      assert last in rows;
      RetainSameView(t, u, topic, init);
      PutSameView(t, RetainAll(u, init), topic, false, last.topic, last.data);
    }
  }

  lemma {:induction false} RetainSame(t: Trie<Payload>, rows: seq<Row>)
    requires forall row :: row in rows ==> SlotAt(t, row.topic) == Some(row.data)
    ensures RetainAll(t, rows) == t
  {
    if rows != [] {
      var init, last := rows[..|rows| - 1], rows[|rows| - 1];
      assert last in rows;
      RetainSame(t, init);
      PutSame(t, last.topic, last.data);
    }
  }

  /** Publishing the same retained message twice yields the same rows and leaves the same tree. */
  lemma PublishTwice(t: Trie<Payload>, topic: Path, data: Payload, qos: nat)
    requires topic != [] && WellFormed(t) && Expand(t, topic, false).Ok?
    ensures var rows := RowsFor([], Expand(t, topic, false).value, data, qos);
            var after := RetainAll(t, rows);
            Expand(after, topic, false) == Expand(t, topic, false) && RetainAll(after, rows) == after
  {
    var topics := Expand(t, topic, false).value;
    var rows := RowsFor([], topics, data, qos);
    var after := RetainAll(t, rows);
    forall row | row in rows
      ensures row.topic in topics && SlotAt(after, row.topic) == Some(data) == Some(row.data)
    {
      var i :| 0 <= i < |rows| && rows[i] == row;
      assert [] + topics[i] == topics[i];
      LastForIn(rows, row.topic);
      RetainSlot(t, rows, row.topic);
    }
    SameViewReflexive(t, topic, false);
    RetainSameView(t, t, topic, rows);
    SameViewExpand(t, after, topic, false);
    RetainSame(after, rows);
  }
}
