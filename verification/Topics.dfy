/**
 Topics as lists of nodes: wildcards, matching, and the two directions between a
 "+" filter and the nodes its wildcards stand for.
 */
module Topics {
  import opened Wrappers

  const SEPARATOR := '/'
  const LEAF_KEY: string := "/"
  const MANY_CARD: string := "+"
  const EVERYTHING_CARD: string := "#"

  type Path = seq<string>

  predicate IsNodeStatic(node: string) {
    node != MANY_CARD && node != EVERYTHING_CARD
  }

  predicate IsStatic(path: Path) {
    forall node :: node in path ==> IsNodeStatic(node)
  }

  /** A node is a piece of a topic string, so it holds no separator; in particular it is not the leaf key. */
  predicate IsNode(node: string) {
    SEPARATOR !in node
  }

  predicate IsTopic(path: Path) {
    path != [] && forall node :: node in path ==> IsNode(node)
  }

  lemma NoLeafKey(topic: Path)
    requires IsTopic(topic)
    ensures LEAF_KEY !in topic
  {
    assert SEPARATOR == LEAF_KEY[0] && SEPARATOR in LEAF_KEY;
  }

  /** Section 4.7.1.3 of MQTT 3.1.1: equal length, and each filter node is "+" or the topic's own node. */
  predicate Matches(filter: Path, topic: Path) {
    |filter| == |topic| &&
    forall i :: 0 <= i < |filter| ==> filter[i] == MANY_CARD || filter[i] == topic[i]
  }

  lemma MatchesStep(filter: Path, q: Path)
    requires filter != []
    ensures Matches(filter, q) <==>
            q != [] && (filter[0] == MANY_CARD || filter[0] == q[0]) && Matches(filter[1..], q[1..])
  {
    if q != [] && |filter| == |q| {
      assert forall i :: 0 <= i < |filter| - 1 ==> filter[1..][i] == filter[i + 1] && q[1..][i] == q[i + 1];
      assert forall i :: 0 < i < |filter| ==> filter[i] == filter[1..][i - 1] && q[i] == q[1..][i - 1];
    }
  }

  /** How many nodes of a filter are wildcards. */
  function Wilds(filter: Path): nat {
    if filter == [] then 0
    else (if IsNodeStatic(filter[0]) then 0 else 1) + Wilds(filter[1..])
  }

  /** The nodes of topic that stand where filter has a wildcard (the walk of build_message_data). */
  function Project(filter: Path, topic: Path): Path
    requires |filter| == |topic|
  {
    if filter == [] then []
    else if IsNodeStatic(filter[0]) then Project(filter[1..], topic[1..])
    else [topic[0]] + Project(filter[1..], topic[1..])
  }

  /** The topic a filter stands for once its wildcards are given. */
  function Fill(filter: Path, wild: Path): Path
    requires |wild| == Wilds(filter)
  {
    if filter == [] then []
    else if IsNodeStatic(filter[0]) then [filter[0]] + Fill(filter[1..], wild)
    else [wild[0]] + Fill(filter[1..], wild[1..])
  }

  lemma {:induction false} ProjectLength(filter: Path, topic: Path)
    requires |filter| == |topic|
    ensures |Project(filter, topic)| == Wilds(filter)
  {
    if filter != [] {
      ProjectLength(filter[1..], topic[1..]);
    }
  }

  /** Filling is a bijection between wildcard values and matching topics, with Project as its inverse. */
  lemma {:induction false} FillProject(filter: Path, topic: Path)
    requires EVERYTHING_CARD !in filter && Matches(filter, topic)
    ensures |Project(filter, topic)| == Wilds(filter)
    ensures Fill(filter, Project(filter, topic)) == topic
  {
    if filter != [] {
      assert forall i :: 0 <= i < |filter| - 1 ==> filter[1..][i] == filter[i + 1] && topic[1..][i] == topic[i + 1];
      FillProject(filter[1..], topic[1..]);
      assert filter[0] in filter;
      assert topic == [topic[0]] + topic[1..];
      if !IsNodeStatic(filter[0]) {
        assert Project(filter, topic)[1..] == Project(filter[1..], topic[1..]);
      }
    }
  }

  lemma {:induction false} ProjectFill(filter: Path, wild: Path)
    requires EVERYTHING_CARD !in filter && |wild| == Wilds(filter)
    ensures Matches(filter, Fill(filter, wild))
    ensures Project(filter, Fill(filter, wild)) == wild
  {
    if filter != [] {
      assert filter[0] in filter;
      ProjectFill(filter[1..], if IsNodeStatic(filter[0]) then wild else wild[1..]);
      assert Fill(filter, wild)[1..] == Fill(filter[1..], if IsNodeStatic(filter[0]) then wild else wild[1..]);
    }
  }

  /** str.join over the separator. */
  function Join(nodes: Path): string
    requires nodes != []
  {
    if |nodes| == 1 then nodes[0] else nodes[0] + [SEPARATOR] + Join(nodes[1..])
  }

  /** str.split over the separator. */
  function Split(s: string): (nodes: Path)
    ensures IsTopic(nodes)
  {
    if s == [] then [[]]
    else
      var rest := Split(s[1..]);
      assert rest[0] in rest && forall node :: node in rest[1..] ==> node in rest;
      if s[0] == SEPARATOR then [[]] + rest else [[s[0]] + rest[0]] + rest[1..]
  }

  lemma {:induction false} SplitPrefix(node: string, s: string)
    requires IsNode(node)
    ensures Split(node) == [node]
    ensures Split(node + [SEPARATOR] + s) == [node] + Split(s)
  {
    var whole := node + [SEPARATOR] + s;
    if node == [] {
      assert whole == [SEPARATOR] + s;
      assert whole[1..] == s;
    } else {
      assert node[0] in node;
      assert whole[1..] == node[1..] + [SEPARATOR] + s;
      assert forall c :: c in node[1..] ==> c in node;
      SplitPrefix(node[1..], s);
      var rest := Split(node[1..]);
      assert rest[1..] == [] && [node[0]] + rest[0] == node;
      var after := Split(whole[1..]);
      assert after[0] == node[1..] && after[1..] == Split(s);
    }
  }

  lemma {:induction false} SplitJoin(nodes: Path)
    requires IsTopic(nodes)
    ensures Split(Join(nodes)) == nodes
  {
    assert nodes[0] in nodes;
    if |nodes| == 1 {
      SplitPrefix(nodes[0], []);
    } else {
      SplitJoin(nodes[1..]);
      SplitPrefix(nodes[0], Join(nodes[1..]));
    }
  }

  lemma JoinHead(c: char, nodes: Path)
    requires nodes != []
    ensures Join([[c] + nodes[0]] + nodes[1..]) == [c] + Join(nodes)
  {
    hide Join;
    var longer := [[c] + nodes[0]] + nodes[1..];
    assert longer[0] == [c] + nodes[0] && longer[1..] == nodes[1..];
    JoinAny(nodes);
    JoinAny(longer);
    if |nodes| > 1 {
      Regrouped([c], nodes[0], [SEPARATOR] + Join(nodes[1..]));
    }
  }

  lemma Regrouped(a: string, b: string, c: string)
    ensures (a + b) + c == a + (b + c)
  {
  }

  lemma JoinAny(nodes: Path)
    requires nodes != []
    ensures Join(nodes) == if |nodes| == 1 then nodes[0] else nodes[0] + ([SEPARATOR] + Join(nodes[1..]))
  {
    if |nodes| > 1 {
      Regrouped(nodes[0], [SEPARATOR], Join(nodes[1..]));
    }
  }

  lemma {:induction false} JoinSplit(s: string)
    ensures Join(Split(s)) == s
  {
    if s != [] {
      JoinSplit(s[1..]);
      var rest := Split(s[1..]);
      assert s == [s[0]] + s[1..];
      if s[0] == SEPARATOR {
        assert ([[]] + rest)[1..] == rest;
      } else {
        JoinHead(s[0], rest);
      }
    }
  }

  lemma {:induction false} JoinConcat(a: Path, b: Path)
    requires a != [] && b != []
    ensures Join(a + b) == Join(a) + "/" + Join(b)
    decreases |a|
  {
    hide Join;
    JoinAny(a + b);
    JoinAny(a);
    if |a| == 1 {
      assert (a + b)[1..] == b;
      Regrouped(a[0], "/", Join(b));
    } else {
      assert (a + b)[1..] == a[1..] + b;
      JoinConcat(a[1..], b);
      Regrouped(a[0], "/" + Join(a[1..]), "/" + Join(b));
      Regrouped("/", Join(a[1..]), "/" + Join(b));
      Regrouped(Join(a[1..]), "/", Join(b));
      Regrouped(Join(a), "/", Join(b));
    }
  }

  /** A slash separates nodes, wherever it stands. */
  lemma SplitConcat(a: string, b: string)
    ensures Split(a + "/" + b) == Split(a) + Split(b)
  {
    JoinSplit(a);
    JoinSplit(b);
    JoinConcat(Split(a), Split(b));
    SplitJoin(Split(a) + Split(b));
  }

  /** "+" and "#" are the wildcards; "+" alone stands for any node. */
  lemma Wildcards(node: string)
    ensures IsNodeStatic(node) <==> node != "+" && node != "#"
    ensures Matches(["+"], [node]) && forall other :: node != "+" ==> (Matches([node], [other]) <==> other == node)
  {
    assert [node][0] == node;
    forall other
      ensures Matches([node], [other]) <==> node == "+" || node == other
    {
      assert [other][0] == other;
    }
  }

  /** Nodes survive being joined and split exactly when none holds a separator. */
  lemma SplitJoinExact(nodes: Path)
    requires nodes != []
    ensures Split(Join(nodes)) == nodes <==> IsTopic(nodes)
  {
    if IsTopic(nodes) {
      SplitJoin(nodes);
    }
  }

  lemma JoinInjective(a: Path, b: Path)
    requires IsTopic(a) && IsTopic(b) && Join(a) == Join(b)
    ensures a == b
  {
    SplitJoin(a);
    SplitJoin(b);
  }
}
