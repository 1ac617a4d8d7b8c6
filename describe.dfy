/** The hierarchical description a composite handler prints (`Handler.ToString`): one line per
    node, two spaces of indentation per level, composite children expanded depth-first, lines
    joined by new lines and trailing white space trimmed. */
module Describe {
  import opened Handlers

  /** `Environment.NewLine`, as `AppendLine` writes it. */
  const NewLine: string := "\n"

  /** A line of the description before it is indented: a name and an indentation level. */
  datatype Node = Node(name: string, level: nat)

  /** The nodes of a handler at indentation `level` (`AsNodes`): a composite yields its own name,
      then the nodes of each child one level deeper; any other handler (an interception wrapper
      included) is a single node showing its type name. */
  function AsNodes<I(!new), O(!new)>(h: Handler<I, O>, level: nat): (ns: seq<Node>)
    ensures |ns| > 0 && ns[0] == Node(TypeName(h), level)
    ensures forall i :: 0 < i < |ns| ==> ns[i].level > level
    ensures !h.Composite? ==> |ns| == 1
    decreases h
  {
    match h
    case Composite(n, cs, _) => [Node(n, level)] + ChildNodes(cs, level + 1)
    case _ => [Node(TypeName(h), level)]
  }

  /** The nodes of the children, in order, each child's block at `level`. */
  function ChildNodes<I(!new), O(!new)>(cs: seq<Handler<I, O>>, level: nat): (ns: seq<Node>)
    ensures forall i :: 0 <= i < |ns| ==> ns[i].level >= level
    ensures |cs| > 0 ==> |ns| >= |cs|
    decreases cs
  {
    if |cs| == 0 then [] else AsNodes(cs[0], level) + ChildNodes(cs[1..], level)
  }

  /** `level` times two spaces. */
  function Indent(level: nat): (s: string)
    ensures |s| == 2 * level
    ensures forall i :: 0 <= i < |s| ==> s[i] == ' '
  {
    if level == 0 then "" else Indent(level - 1) + "  "
  }

  /** The line of one node. */
  function NodeText(n: Node): string
  {
    Indent(n.level) + n.name
  }

  /** `Node.ToString`: a loop appends two spaces per level, then the name is appended. */
  method NodeToString(n: Node) returns (s: string)
    ensures s == NodeText(n)
    ensures |s| == 2 * n.level + |n.name|
    ensures forall i :: 0 <= i < 2 * n.level ==> s[i] == ' '
    ensures s[2 * n.level..] == n.name
  {
    var builder := "";
    for i := 0 to n.level
      invariant builder == Indent(i)
    {
      builder := builder + "  ";
    }
    s := builder + n.name;
  }

  /** What the string builder holds after `AppendLine` of each node's line in turn. */
  function Lines(ns: seq<Node>): (s: string)
    ensures |s| >= |ns|
    ensures |ns| > 0 ==> s[|s| - 1] == NewLine[0]
  {
    if |ns| == 0 then "" else Lines(ns[..|ns| - 1]) + NodeText(ns[|ns| - 1]) + NewLine
  }

  /** `char.IsWhiteSpace`: the Unicode space, line and paragraph separators and the control
      characters U+0009..U+000D and U+0085. */
  predicate IsWhiteSpace(c: char)
  {
    c == ' ' || c == '\t' || c == '\n' || c == '\r' || c == '\U{0B}' || c == '\U{0C}' ||
    c == '\U{85}' || c == '\U{A0}' || c == '\U{1680}' || ('\U{2000}' <= c <= '\U{200A}') ||
    c == '\U{2028}' || c == '\U{2029}' || c == '\U{202F}' || c == '\U{205F}' || c == '\U{3000}'
  }

  /** `string.TrimEnd()`: the longest prefix that does not end in white space. */
  function TrimEnd(s: string): (r: string)
    ensures r <= s
    ensures forall i :: |r| <= i < |s| ==> IsWhiteSpace(s[i])
    ensures |r| == 0 || !IsWhiteSpace(r[|r| - 1])
  {
    if |s| > 0 && IsWhiteSpace(s[|s| - 1]) then TrimEnd(s[..|s| - 1]) else s
  }

  /** The description of a handler: its nodes from level 0, one line each, trimmed at the end. */
  function Description<I(!new), O(!new)>(h: Handler<I, O>): (s: string)
    ensures s <= Lines(AsNodes(h, 0))
    ensures |s| == 0 || !IsWhiteSpace(s[|s| - 1])
  {
    TrimEnd(Lines(AsNodes(h, 0)))
  }

  /** Lines joined by new lines, with none after the last. */
  function JoinLines(ls: seq<string>): string
    requires |ls| > 0
  {
    if |ls| == 1 then ls[0] else JoinLines(ls[..|ls| - 1]) + NewLine + ls[|ls| - 1]
  }

  function Texts(ns: seq<Node>): seq<string>
  {
    seq(|ns|, i requires 0 <= i < |ns| => NodeText(ns[i]))
  }

  /** The names of the nodes at exactly `level`, in order. */
  function LevelNames(ns: seq<Node>, level: nat): seq<string>
  {
    if |ns| == 0 then [] else (if ns[0].level == level then [ns[0].name] else []) + LevelNames(ns[1..], level)
  }

  /** The type names of handlers, in order. */
  function Names<I(!new), O(!new)>(cs: seq<Handler<I, O>>): seq<string>
  {
    seq(|cs|, i requires 0 <= i < |cs| => TypeName(cs[i]))
  }

  /** Each appended line ends in a new line. */
  lemma {:induction false} LinesAreJoined(ns: seq<Node>)
    requires |ns| > 0
    ensures Lines(ns) == JoinLines(Texts(ns)) + NewLine
    decreases |ns|
  {
    var init := ns[..|ns| - 1];
    if |ns| > 1 {
      LinesAreJoined(init);
      assert Texts(ns)[..|ns| - 1] == Texts(init);
    } else {
      assert init == [];
    }
  }

  /** Trimming strips only the final new line when the last name does not end in white space, so
      the description is the node lines joined by new lines with no new line after the last: the
      first line is the handler's own name at level 0. */
  lemma DescriptionIsJoinedLines(ns: seq<Node>)
    requires |ns| > 0 && |ns[|ns| - 1].name| > 0
    requires !IsWhiteSpace(ns[|ns| - 1].name[|ns[|ns| - 1].name| - 1])
    ensures TrimEnd(Lines(ns)) == JoinLines(Texts(ns))
  {
    LinesAreJoined(ns);
    var joined := JoinLines(Texts(ns));
    var lastText := NodeText(ns[|ns| - 1]);
    assert joined == (if |ns| == 1 then lastText else JoinLines(Texts(ns)[..|ns| - 1]) + NewLine + lastText);
    assert joined[|joined| - 1] == lastText[|lastText| - 1];
    assert (joined + NewLine)[..|joined|] == joined;
  }

  /** The description of a handler whose last node's name does not end in white space is its node
      lines joined by new lines. */
  lemma DescriptionOf<I(!new), O(!new)>(h: Handler<I, O>, ns: seq<Node>)
    requires AsNodes(h, 0) == ns && |ns[|ns| - 1].name| > 0
    requires !IsWhiteSpace(ns[|ns| - 1].name[|ns[|ns| - 1].name| - 1])
    ensures Description(h) == JoinLines(Texts(ns))
  {
    DescriptionIsJoinedLines(ns);
  }

  lemma {:induction false} LevelNamesAppend(a: seq<Node>, b: seq<Node>, level: nat)
    ensures LevelNames(a + b, level) == LevelNames(a, level) + LevelNames(b, level)
    decreases |a|
  {
    if |a| > 0 {
      assert (a + b)[1..] == a[1..] + b;
      LevelNamesAppend(a[1..], b, level);
    } else {
      assert a + b == b;
    }
  }

  lemma {:induction false} LevelNamesDeeper(ns: seq<Node>, level: nat)
    requires forall i :: 0 <= i < |ns| ==> ns[i].level > level
    ensures LevelNames(ns, level) == []
    decreases |ns|
  {
    if |ns| > 0 {
      LevelNamesDeeper(ns[1..], level);
    }
  }

  /** The lines at a child block's own level are exactly the children's type names, in order:
      every child shows once at that level, whatever nodes a composite child expands into. */
  lemma {:induction false} ChildLevelNames<I(!new), O(!new)>(cs: seq<Handler<I, O>>, level: nat)
    ensures LevelNames(ChildNodes(cs, level), level) == Names(cs)
    decreases |cs|
  {
    if |cs| > 0 {
      var first := AsNodes(cs[0], level);
      LevelNamesAppend(first, ChildNodes(cs[1..], level), level);
      assert first == [first[0]] + first[1..];
      LevelNamesAppend([first[0]], first[1..], level);
      LevelNamesDeeper(first[1..], level);
      ChildLevelNames(cs[1..], level);
      assert Names(cs) == [TypeName(cs[0])] + Names(cs[1..]);
    }
  }

  /** The outline of a composite: its first line is its own name at `level`, every other line is
      deeper, and the lines one level deeper name its children, in order. */
  lemma CompositeOutline<I(!new), O(!new)>(n: string, cs: seq<Handler<I, O>>, refine: Option<Around<I, O>>, level: nat)
    ensures LevelNames(AsNodes(Composite(n, cs, refine), level), level) == [n]
    ensures LevelNames(AsNodes(Composite(n, cs, refine), level), level + 1) == Names(cs)
  {
    var ns := AsNodes(Composite(n, cs, refine), level);
    LevelNamesAppend([Node(n, level)], ChildNodes(cs, level + 1), level);
    LevelNamesDeeper(ChildNodes(cs, level + 1), level);
    LevelNamesAppend([Node(n, level)], ChildNodes(cs, level + 1), level + 1);
    ChildLevelNames(cs, level + 1);
  }

  lemma {:induction false} ChildNodesAppend<I(!new), O(!new)>(cs: seq<Handler<I, O>>, ds: seq<Handler<I, O>>, level: nat)
    ensures ChildNodes(cs + ds, level) == ChildNodes(cs, level) + ChildNodes(ds, level)
    decreases |cs|
  {
    if |cs| > 0 {
      assert (cs + ds)[0] == cs[0];
      assert (cs + ds)[1..] == cs[1..] + ds;
      ChildNodesAppend(cs[1..], ds, level);
    } else {
      assert cs + ds == ds;
    }
  }

  /** Appending a child appends its block, one level deeper, at the end of the outline and
      changes nothing before it. */
  lemma AppendedChildIsLast<I(!new), O(!new)>(n: string, cs: seq<Handler<I, O>>, c: Handler<I, O>, refine: Option<Around<I, O>>, level: nat)
    ensures AsNodes(Composite(n, cs + [c], refine), level) == AsNodes(Composite(n, cs, refine), level) + AsNodes(c, level + 1)
  {
    ChildNodesAppend(cs, [c], level + 1);
    assert [c][1..] == [];
  }
}
