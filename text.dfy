/** The text renderer of filelister.go (`ToText` and `writeText`): a
    depth-first, pre-order walk that writes one line per node. */
module Text {
  import opened Tree
  import opened Seqs

  /** `strings.Repeat("  ", depth)`: two spaces per level. */
  function Indent(depth: nat): (r: string)
    ensures |r| == 2 * depth
    ensures forall i :: 0 <= i < |r| ==> r[i] == ' '
  {
    if depth == 0 then "" else "  " + Indent(depth - 1)
  }

  /** The marker after a node's name: a symlink shows its target, a
      directory a trailing slash, anything else nothing. */
  function Suffix(n: Node): string {
    if n.isLink then "* (" + n.linksTo + ")"
    else if n.isDir then "/"
    else ""
  }

  /** The root is shown by the path it was given as, every node below it by
      its base name. */
  function DisplayName(n: Node, depth: nat): string {
    if depth == 0 then n.path else n.name
  }

  /** The line `writeText` writes for n at the given depth. */
  function Line(n: Node, depth: nat): string {
    Indent(depth) + DisplayName(n, depth) + Suffix(n) + "\n"
  }

  /** A line is the node's indentation, its name with its marker, and a
      closing newline. */
  lemma LineShape(n: Node, depth: nat)
    ensures |Line(n, depth)| == 2 * depth + |DisplayName(n, depth)| + |Suffix(n)| + 1
    ensures forall i :: 0 <= i < 2 * depth ==> Line(n, depth)[i] == ' '
    ensures Line(n, depth)[2 * depth..|Line(n, depth)| - 1] == DisplayName(n, depth) + Suffix(n)
    ensures Line(n, depth)[|Line(n, depth)| - 1] == '\n'
  {
    var r := Line(n, depth);
    assert r[2 * depth..|r| - 1] == DisplayName(n, depth) + Suffix(n);
  }

  /** What `writeText(depth, buf)` appends to buf for the subtree at n. */
  function Render(n: Node, depth: nat): string
    decreases n, 1
  {
    Line(n, depth) + RenderAll(n.children, depth + 1)
  }

  /** The loop of `writeText` over the children, each written at depth. */
  function RenderAll(cs: seq<Node>, depth: nat): string
    decreases cs, 0
  {
    if cs == [] then ""
    else RenderAll(cs[..|cs| - 1], depth) + Render(cs[|cs| - 1], depth)
  }

  /** Appending the next subtree's rendering to the rendering of a prefix
      of the list gives the rendering of the prefix one longer. */
  lemma RenderStep(start: string, prev: string, out: string, cs: seq<Node>, k: nat, c: Node, depth: nat)
    requires k < |cs| && c == cs[k]
    requires prev == start + RenderAll(cs[..k], depth)
    requires out == prev + Render(c, depth)
    ensures out == start + RenderAll(cs[..k + 1], depth)
  {
    assert cs[..k + 1][..k] == cs[..k];
  }

  /** `ToText()`: the whole tree from depth 0. */
  function ToText(n: Node): string {
    Render(n, 0)
  }

  /** One visit of the walk: a node and the depth it is written at. */
  datatype Visit = Visit(node: Node, depth: nat)

  /** The independent description of the walk: a node, then the visits of
      each child's subtree in stored order, one level deeper. */
  function Preorder(n: Node, depth: nat): seq<Visit>
    decreases n, 1
  {
    [Visit(n, depth)] + PreorderAll(n.children, depth + 1)
  }

  function PreorderAll(cs: seq<Node>, depth: nat): seq<Visit>
    decreases cs, 0
  {
    if cs == [] then []
    else PreorderAll(cs[..|cs| - 1], depth) + Preorder(cs[|cs| - 1], depth)
  }

  /** The lines of a sequence of visits, one after the other. */
  function Lines(vs: seq<Visit>): string {
    if vs == [] then "" else Lines(vs[..|vs| - 1]) + Line(vs[|vs| - 1].node, vs[|vs| - 1].depth)
  }

  /** The number of nodes in a tree. */
  function Size(n: Node): nat
    decreases n, 1
  {
    1 + SizeAll(n.children)
  }

  function SizeAll(cs: seq<Node>): nat
    decreases cs, 0
  {
    if cs == [] then 0 else SizeAll(cs[..|cs| - 1]) + Size(cs[|cs| - 1])
  }

  lemma {:induction false} LinesAppend(a: seq<Visit>, b: seq<Visit>)
    ensures Lines(a + b) == Lines(a) + Lines(b)
    decreases |b|
  {
    if b != [] {
      var b', v := b[..|b| - 1], b[|b| - 1];
      assert (a + b)[..|a + b| - 1] == a + b';
      assert (a + b)[|a + b| - 1] == v;
      LinesAppend(a, b');
      ConcatAssoc(Lines(a), Lines(b'), Line(v.node, v.depth));
    } else {
      assert a + b == a;
    }
  }

  /** The renderer writes exactly the lines of the pre-order walk: the
      node's own line first, then each child's subtree in stored order. */
  lemma {:induction false} RenderIsPreorder(n: Node, depth: nat)
    ensures Render(n, depth) == Lines(Preorder(n, depth))
    decreases n, 1
  {
    RenderAllIsPreorder(n.children, depth + 1);
    LinesAppend([Visit(n, depth)], PreorderAll(n.children, depth + 1));
    assert Lines([Visit(n, depth)]) == Line(n, depth) by {
      assert [Visit(n, depth)][..0] == [];
    }
  }

  lemma {:induction false} RenderAllIsPreorder(cs: seq<Node>, depth: nat)
    ensures RenderAll(cs, depth) == Lines(PreorderAll(cs, depth))
    decreases cs, 0
  {
    if cs != [] {
      var init := cs[..|cs| - 1];
      RenderAllIsPreorder(init, depth);
      RenderIsPreorder(cs[|cs| - 1], depth);
      LinesAppend(PreorderAll(init, depth), Preorder(cs[|cs| - 1], depth));
    }
  }

  /** The walk visits every node once: the root first at its own depth, and
      every later visit strictly deeper. */
  lemma {:induction false} PreorderShape(n: Node, depth: nat)
    ensures |Preorder(n, depth)| == Size(n)
    ensures Preorder(n, depth)[0] == Visit(n, depth)
    ensures forall k :: 1 <= k < |Preorder(n, depth)| ==> Preorder(n, depth)[k].depth > depth
    decreases n, 1
  {
    PreorderAllShape(n.children, depth + 1);
  }

  lemma {:induction false} PreorderAllShape(cs: seq<Node>, depth: nat)
    ensures |PreorderAll(cs, depth)| == SizeAll(cs)
    ensures forall k :: 0 <= k < |PreorderAll(cs, depth)| ==> PreorderAll(cs, depth)[k].depth >= depth
    decreases cs, 0
  {
    if cs != [] {
      PreorderAllShape(cs[..|cs| - 1], depth);
      PreorderShape(cs[|cs| - 1], depth);
    }
  }

  /** No name, path or link target in the tree holds a newline. */
  ghost predicate NoNewlines(n: Node)
    decreases n
  {
    && '\n' !in n.name && '\n' !in n.path && '\n' !in n.linksTo
    && forall k :: 0 <= k < |n.children| ==> NoNewlines(n.children[k])
  }

  /** The number of newlines in s. */
  function Newlines(s: string): nat {
    multiset(s)['\n']
  }

  /** A node's line holds exactly one newline, at its end. */
  lemma LineHasOneNewline(n: Node, depth: nat)
    requires '\n' !in n.name && '\n' !in n.path && '\n' !in n.linksTo
    ensures Newlines(Line(n, depth)) == 1
  {
    var ind, name, suffix := Indent(depth), DisplayName(n, depth), Suffix(n);
    assert Line(n, depth) == ind + name + suffix + "\n";
    NewlinesAppend(ind + name + suffix, "\n");
    NewlinesAppend(ind + name, suffix);
    NewlinesAppend(ind, name);
    IndentNewlines(depth);
    NoNewline(name);
    SuffixNewlines(n);
    assert Newlines("\n") == 1;
  }

  lemma IndentNewlines(depth: nat)
    ensures Newlines(Indent(depth)) == 0
  {
    var r := Indent(depth);
    assert forall i :: 0 <= i < |r| ==> r[i] != '\n';
    NoNewline(r);
  }

  lemma SuffixNewlines(n: Node)
    requires '\n' !in n.linksTo
    ensures Newlines(Suffix(n)) == 0
  {
    if n.isLink {
      NewlinesAppend("* (" + n.linksTo, ")");
      NewlinesAppend("* (", n.linksTo);
      NoNewline(n.linksTo);
      assert Newlines("* (") == 0;
      assert Newlines(")") == 0;
    } else if n.isDir {
      assert Newlines("/") == 0;
    }
  }

  lemma NewlinesAppend(a: string, b: string)
    ensures Newlines(a + b) == Newlines(a) + Newlines(b)
  {
    assert multiset(a + b) == multiset(a) + multiset(b);
  }

  lemma NoNewline(s: string)
    requires '\n' !in s
    ensures Newlines(s) == 0
  {
  }

  /** When no name holds a newline, the text has exactly one line per node. */
  lemma {:induction false} RenderLineCount(n: Node, depth: nat)
    requires NoNewlines(n)
    ensures Newlines(Render(n, depth)) == Size(n)
    decreases n, 1
  {
    LineHasOneNewline(n, depth);
    RenderAllLineCount(n.children, depth + 1);
  }

  lemma {:induction false} RenderAllLineCount(cs: seq<Node>, depth: nat)
    requires forall k :: 0 <= k < |cs| ==> NoNewlines(cs[k])
    ensures Newlines(RenderAll(cs, depth)) == SizeAll(cs)
    decreases cs, 0
  {
    if cs != [] {
      var init := cs[..|cs| - 1];
      assert forall k :: 0 <= k < |init| ==> init[k] == cs[k];
      RenderAllLineCount(init, depth);
      RenderLineCount(cs[|cs| - 1], depth);
    }
  }

  /** The suffix tells the three kinds of node apart, a symlink first. */
  lemma SuffixKinds(n: Node)
    ensures n.isLink <==> |Suffix(n)| >= 4 && Suffix(n)[..3] == "* (" && Suffix(n)[|Suffix(n)| - 1] == ')'
    ensures Suffix(n) == "/" <==> n.isDir && !n.isLink
    ensures Suffix(n) == "" <==> !n.isDir && !n.isLink
  {
  }
}
