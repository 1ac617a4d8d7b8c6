/** The descriptions of the three nested composites of the ToString tests: composites of two
    and three levels, built under the no-op strategy so every child is stored as added. The
    shapes are proved for any names; the tests' type names are then filled in. */
module ToStringExamples {
  import opened Handlers
  import opened Describe

  const Prefix := "ResponsibilityChain.Tests.Handler_ToStringTest+"
  const NoNestedName := Prefix + "CompositeWithNoNestedHandler"
  const OneLevelName := Prefix + "CompositeWithOneLevelNestedHandler"
  const TwoLevelName := Prefix + "CompositeWithTwoLevelNestedHandler"
  const Simple1Name := Prefix + "SimpleHandler1"
  const Simple2Name := Prefix + "SimpleHandler2"

  /** A simple test handler: it always fails with NotSupported. */
  function Simple(name: string): Handler<int, int>
  {
    Leaf(name, (x: int, n: Option<Continuation<int, int>>) => NotSupported)
  }

  /** A composite of two simple handlers. */
  function Pair(name: string, s1: string, s2: string): Handler<int, int>
  {
    Composite(name, [Simple(s1), Simple(s2)], None)
  }

  /** A composite of a composite and a simple handler. */
  function Nest(name: string, inner: Handler<int, int>, s: string): Handler<int, int>
  {
    Composite(name, [inner, Simple(s)], None)
  }

  predicate EndsInName(s: string)
  {
    |s| > 0 && !IsWhiteSpace(s[|s| - 1])
  }

  lemma IndentLevels()
    ensures Indent(1) == "  " && Indent(2) == "    " && Indent(3) == "      "
  {
    assert Indent(1) == "" + "  ";
    assert Indent(2) == "  " + "  ";
    assert Indent(3) == "    " + "  ";
  }

  /** The lines of the nodes, element by element. */
  lemma TextsAre(ns: seq<Node>, ts: seq<string>)
    requires |ns| == |ts| && forall i :: 0 <= i < |ns| ==> ts[i] == Indent(ns[i].level) + ns[i].name
    ensures Texts(ns) == ts
  {
  }

  lemma NoIndent(s: string)
    ensures Indent(0) + s == s
  {
    assert Indent(0) == "";
  }

  lemma PairNodes(name: string, s1: string, s2: string, level: nat)
    ensures AsNodes(Pair(name, s1, s2), level) == [Node(name, level), Node(s1, level + 1), Node(s2, level + 1)]
  {
    var cs := [Simple(s1), Simple(s2)];
    assert cs[1..] == [Simple(s2)] && cs[1..][1..] == [];
    assert AsNodes(Simple(s1), level + 1) == [Node(s1, level + 1)];
    assert AsNodes(Simple(s2), level + 1) == [Node(s2, level + 1)];
    assert ChildNodes(cs[1..], level + 1) == [Node(s2, level + 1)];
  }

  lemma NestNodes(name: string, inner: Handler<int, int>, s: string, level: nat)
    ensures AsNodes(Nest(name, inner, s), level) == [Node(name, level)] + AsNodes(inner, level + 1) + [Node(s, level + 1)]
  {
    var cs := [inner, Simple(s)];
    assert cs[1..] == [Simple(s)] && cs[1..][1..] == [];
    assert AsNodes(Simple(s), level + 1) == [Node(s, level + 1)];
    assert ChildNodes(cs[1..], level + 1) == [Node(s, level + 1)];
  }

  lemma JoinThree(a: string, b: string, c: string)
    ensures JoinLines([a, b, c]) == a + NewLine + b + NewLine + c
  {
    assert [a, b, c][..2] == [a, b];
    assert [a, b][..1] == [a];
    assert JoinLines([a]) == a;
    assert JoinLines([a, b]) == a + NewLine + b;
  }

  lemma {:induction false} JoinMore(ls: seq<string>, l: string)
    requires |ls| > 0
    ensures JoinLines(ls + [l]) == JoinLines(ls) + NewLine + l
  {
    assert (ls + [l])[..|ls|] == ls;
  }

  lemma PairShape(name: string, s1: string, s2: string)
    requires EndsInName(s2)
    ensures Description(Pair(name, s1, s2)) == name + NewLine + "  " + s1 + NewLine + "  " + s2
  {
    var ns := [Node(name, 0), Node(s1, 1), Node(s2, 1)];
    var ts := [name, "  " + s1, "  " + s2];
    PairNodes(name, s1, s2, 0);
    DescriptionOf(Pair(name, s1, s2), ns);
    IndentLevels();
    NoIndent(name);
    TextsAre(ns, ts);
    JoinThree(name, "  " + s1, "  " + s2);
  }

  lemma JoinFive(a: string, b: string, c: string, d: string, e: string)
    ensures JoinLines([a, b, c, d, e]) == a + NewLine + b + NewLine + c + NewLine + d + NewLine + e
  {
    JoinThree(a, b, c);
    JoinMore([a, b, c], d);
    assert [a, b, c] + [d] == [a, b, c, d];
    JoinMore([a, b, c, d], e);
    assert [a, b, c, d] + [e] == [a, b, c, d, e];
  }

  lemma JoinSeven(a: string, b: string, c: string, d: string, e: string, f: string, g: string)
    ensures JoinLines([a, b, c, d, e, f, g]) ==
      a + NewLine + b + NewLine + c + NewLine + d + NewLine + e + NewLine + f + NewLine + g
  {
    JoinFive(a, b, c, d, e);
    JoinMore([a, b, c, d, e], f);
    assert [a, b, c, d, e] + [f] == [a, b, c, d, e, f];
    JoinMore([a, b, c, d, e, f], g);
    assert [a, b, c, d, e, f] + [g] == [a, b, c, d, e, f, g];
  }

  lemma OneLevelNodes(name: string, inner: string, s1: string, s2: string, level: nat)
    ensures AsNodes(Nest(name, Pair(inner, s1, s2), s1), level) ==
      [Node(name, level), Node(inner, level + 1), Node(s1, level + 2), Node(s2, level + 2), Node(s1, level + 1)]
  {
    NestNodes(name, Pair(inner, s1, s2), s1, level);
    PairNodes(inner, s1, s2, level + 1);
  }

  lemma TwoLevelNodes(name: string, mid: string, inner: string, s1: string, s2: string)
    ensures AsNodes(Nest(name, Nest(mid, Pair(inner, s1, s2), s1), s1), 0) ==
      [Node(name, 0), Node(mid, 1), Node(inner, 2), Node(s1, 3), Node(s2, 3), Node(s1, 2), Node(s1, 1)]
  {
    NestNodes(name, Nest(mid, Pair(inner, s1, s2), s1), s1, 0);
    OneLevelNodes(mid, inner, s1, s2, 1);
  }

  lemma OneLevelTexts(name: string, inner: string, s1: string, s2: string)
    ensures Texts([Node(name, 0), Node(inner, 1), Node(s1, 2), Node(s2, 2), Node(s1, 1)]) ==
      [name, "  " + inner, "    " + s1, "    " + s2, "  " + s1]
  {
    IndentLevels();
    NoIndent(name);
    TextsAre([Node(name, 0), Node(inner, 1), Node(s1, 2), Node(s2, 2), Node(s1, 1)],
      [name, "  " + inner, "    " + s1, "    " + s2, "  " + s1]);
  }

  lemma TwoLevelTexts(name: string, mid: string, inner: string, s1: string, s2: string)
    ensures Texts([Node(name, 0), Node(mid, 1), Node(inner, 2), Node(s1, 3), Node(s2, 3), Node(s1, 2), Node(s1, 1)]) ==
      [name, "  " + mid, "    " + inner, "      " + s1, "      " + s2, "    " + s1, "  " + s1]
  {
    IndentLevels();
    NoIndent(name);
    TextsAre([Node(name, 0), Node(mid, 1), Node(inner, 2), Node(s1, 3), Node(s2, 3), Node(s1, 2), Node(s1, 1)],
      [name, "  " + mid, "    " + inner, "      " + s1, "      " + s2, "    " + s1, "  " + s1]);
  }

  lemma OneLevelShape(name: string, inner: string, s1: string, s2: string)
    requires EndsInName(s1)
    ensures Description(Nest(name, Pair(inner, s1, s2), s1)) ==
      name + NewLine + "  " + inner + NewLine + "    " + s1 + NewLine + "    " + s2 + NewLine + "  " + s1
  {
    var ns := [Node(name, 0), Node(inner, 1), Node(s1, 2), Node(s2, 2), Node(s1, 1)];
    OneLevelNodes(name, inner, s1, s2, 0);
    DescriptionOf(Nest(name, Pair(inner, s1, s2), s1), ns);
    OneLevelTexts(name, inner, s1, s2);
    JoinFive(name, "  " + inner, "    " + s1, "    " + s2, "  " + s1);
  }

  lemma TwoLevelShape(name: string, mid: string, inner: string, s1: string, s2: string)
    requires EndsInName(s1)
    ensures Description(Nest(name, Nest(mid, Pair(inner, s1, s2), s1), s1)) ==
      name + NewLine + "  " + mid + NewLine + "    " + inner + NewLine + "      " + s1 + NewLine +
      "      " + s2 + NewLine + "    " + s1 + NewLine + "  " + s1
  {
    var ns := [Node(name, 0), Node(mid, 1), Node(inner, 2), Node(s1, 3), Node(s2, 3), Node(s1, 2), Node(s1, 1)];
    TwoLevelNodes(name, mid, inner, s1, s2);
    DescriptionOf(Nest(name, Nest(mid, Pair(inner, s1, s2), s1), s1), ns);
    TwoLevelTexts(name, mid, inner, s1, s2);
    JoinSeven(name, "  " + mid, "    " + inner, "      " + s1, "      " + s2, "    " + s1, "  " + s1);
  }

  lemma SimpleNamesEnd()
    ensures EndsInName(Simple1Name) && EndsInName(Simple2Name)
  {
    assert Simple1Name[|Simple1Name| - 1] == '1';
    assert Simple2Name[|Simple2Name| - 1] == '2';
  }

  /** `CompositeWithNoNestedHandler`: its name, then the two simple handlers one level deeper. */
  lemma NoNestedDescription()
    ensures Description(Pair(NoNestedName, Simple1Name, Simple2Name)) ==
      NoNestedName + NewLine + "  " + Simple1Name + NewLine + "  " + Simple2Name
  {
    SimpleNamesEnd();
    PairShape(NoNestedName, Simple1Name, Simple2Name);
  }

  /** `CompositeWithOneLevelNestedHandler`: the nested composite expanded in place. */
  lemma OneLevelDescription()
    ensures Description(Nest(OneLevelName, Pair(NoNestedName, Simple1Name, Simple2Name), Simple1Name)) ==
      OneLevelName + NewLine + "  " + NoNestedName + NewLine + "    " + Simple1Name + NewLine +
      "    " + Simple2Name + NewLine + "  " + Simple1Name
  {
    SimpleNamesEnd();
    OneLevelShape(OneLevelName, NoNestedName, Simple1Name, Simple2Name);
  }

  /** `CompositeWithTwoLevelNestedHandler`: both nested composites expanded depth-first. */
  lemma TwoLevelDescription()
    ensures Description(Nest(TwoLevelName, Nest(OneLevelName, Pair(NoNestedName, Simple1Name, Simple2Name), Simple1Name), Simple1Name)) ==
      TwoLevelName + NewLine + "  " + OneLevelName + NewLine + "    " + NoNestedName + NewLine +
      "      " + Simple1Name + NewLine + "      " + Simple2Name + NewLine + "    " + Simple1Name + NewLine +
      "  " + Simple1Name
  {
    SimpleNamesEnd();
    TwoLevelShape(TwoLevelName, OneLevelName, NoNestedName, Simple1Name, Simple2Name);
  }
}
