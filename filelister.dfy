/** The program of filelister.go as it runs: a `FileTree` object per path,
    whose `Children` slice `GetChildren` extends in place, and the text
    writer that walks the objects into a buffer. Each method is proved
    against the value-level function of module Tree, Text or Cli that
    describes the same step. */
module FileLister {
  import opened Wrappers
  import opened Paths
  import opened FileSystem
  import opened Tree
  import opened Seqs
  import opened Text
  import opened Cli

  /** One `FileTree`. The metadata fields are set once, when GetTree builds
      the object; `Children` is the slice GetChildren appends to. `model` is
      the subtree rooted here as a value and `Repr` the set of its objects;
      both exist only for the proofs. */
  class FileTree {
    const ModifiedTime: int
    const IsLink: bool
    const IsDir: bool
    const LinksTo: string
    const Size: int
    const Name: string
    const path: string
    var Children: seq<FileTree>
    ghost var model: Node
    ghost var Repr: set<object>

    /** The value holds this node's metadata and its children's values, in
        order; each child owns a subtree of its own: the subtrees of two
        children share no object, and none of them holds this node. */
    ghost predicate Valid()
      reads this, Repr
      decreases Repr
    {
      && this in Repr
      && model.name == Name && model.modTime == ModifiedTime && model.size == Size
      && model.isDir == IsDir && model.isLink == IsLink && model.linksTo == LinksTo
      && model.path == path
      && |model.children| == |Children|
      && (forall i :: 0 <= i < |Children| ==>
            && Children[i] in Repr
            && Children[i].Repr <= Repr
            && this !in Children[i].Repr
            && Children[i].Valid()
            && Children[i].model == model.children[i])
      && (forall i, j :: 0 <= i < j < |Children| ==> Children[i].Repr !! Children[j].Repr)
    }

    constructor(modTime: int, isLink: bool, isDir: bool, linksTo: string, size: int, name: string, p: string)
      ensures Valid() && Repr == {this}
      ensures ModifiedTime == modTime && IsLink == isLink && IsDir == isDir && LinksTo == linksTo
      ensures Size == size && Name == name && path == p && Children == []
      ensures model == Node(name, modTime, size, isDir, isLink, linksTo, p, [])
    {
      ModifiedTime, IsLink, IsDir, LinksTo := modTime, isLink, isDir, linksTo;
      Size, Name, path := size, name, p;
      Children := [];
      model := Node(name, modTime, size, isDir, isLink, linksTo, p, []);
      Repr := {this};
    }

    /** The subtree rooted here, read off the objects: what the JSON and
        YAML encoders walk. */
    function Snapshot(): (n: Node)
      reads this, Repr
      requires Valid()
      ensures n == model
      decreases Repr, 1
    {
      Node(Name, ModifiedTime, Size, IsDir, IsLink, LinksTo, path, ChildSnapshots(|Children|))
    }

    /** The values of the first n children. */
    function ChildSnapshots(n: nat): (r: seq<Node>)
      reads this, Repr
      requires Valid() && n <= |Children|
      ensures r == model.children[..n]
      decreases Repr, 0, n
    {
      if n == 0 then [] else ChildSnapshots(n - 1) + [Children[n - 1].Snapshot()]
    }

    /** `f.GetChildren(recursive)`: a directory that is not a link gets one
        new child per entry of its listing, appended after the children it
        already has, and with `recursive` each child is then expanded in
        turn; anything else is left alone. A failure is returned where the
        program would exit; nothing is promised about the tree after one,
        since the program never looks at it again. */
    method GetChildren(fs: Fs, cwd: Option<string>, recursive: bool) returns (err: Option<Error>)
      requires Valid() && WellFormed(fs)
      modifies Repr
      ensures err.None? ==> Valid() && old(Repr) <= Repr && fresh(Repr - old(Repr))
      ensures match Expand(fs, cwd, old(model), recursive)
              case Ok(u) => err == None && model == u
              case Err(e) => err == Some(e)
      ensures !(IsDir && !IsLink) ==> Children == old(Children) && Repr == old(Repr)
      decreases Height(model), Rank(fs, path), 3
    {
      if !(IsDir && !IsLink) {
        return None;
      }
      ghost var t := model;
      assert Expand(fs, cwd, t, recursive) == ExpandListed(fs, cwd, t, recursive);
      var listing := ReadDir(fs, path);
      if listing.Err? {
        return Some(listing.error);
      }
      var names := listing.value;
      err := AppendEntries(fs, cwd, names);
      if err.Some? || !recursive {
        return;
      }
      ghost var read := ReadEntries(fs, cwd, path, names).value;
      ChildrenBelow(fs, cwd, t, names, read);
      err := ExpandChildren(fs, cwd, recursive, t);
    }

    /** The first loop of GetChildren: `GetTree` on each listed name joined
        onto this directory's path, each result appended to `Children`. */
    method AppendEntries(fs: Fs, cwd: Option<string>, names: seq<string>) returns (err: Option<Error>)
      requires Valid()
      modifies this
      ensures err.None? ==> Valid() && old(Repr) <= Repr && fresh(Repr - old(Repr))
      ensures match ReadEntries(fs, cwd, path, names)
              case Ok(read) => err == None && model == old(model).(children := old(model).children + read)
              case Err(e) => err == Some(e)
    {
      ghost var t := model;
      ghost var r0 := Repr;
      ghost var read: seq<Node> := [];
      var i := 0;
      while i < |names|
        invariant Valid() && r0 <= Repr && fresh(Repr - r0)
        invariant Appended(fs, cwd, path, names, i, t, read, model)
      {
        err, read := AppendNext(fs, cwd, names, i, read, t);
        if err.Some? {
          return;
        }
        i := i + 1;
      }
      AppendedAll(fs, cwd, path, names, t, read, model);
      return None;
    }

    /** One turn of that loop, stated as the step from the first i names to
        the first i + 1: the i-th entry is read and appended, or its
        failure is the failure of the whole listing. */
    method AppendNext(fs: Fs, cwd: Option<string>, names: seq<string>, i: nat, ghost read: seq<Node>, ghost t: Node)
      returns (err: Option<Error>, ghost read': seq<Node>)
      requires i < |names| && Valid() && Appended(fs, cwd, path, names, i, t, read, model)
      modifies this
      ensures err.None? ==> Valid() && old(Repr) <= Repr && fresh(Repr - old(Repr))
      ensures err.Some? ==> ReadEntries(fs, cwd, path, names) == Err(err.value)
      ensures err.None? ==> Appended(fs, cwd, path, names, i + 1, t, read', model)
    {
      err := AppendEntry(fs, cwd, names[i]);
      ReadEntriesStep(fs, cwd, path, names, i, read);
      if err.None? {
        ghost var m := ReadNode(fs, cwd, Join(path, names[i])).value;
        ConcatAssoc(t.children, read, [m]);
        read' := read + [m];
      } else {
        read' := read;
      }
    }

    /** The body of that loop: `GetTree` on the name joined onto this
        directory's path, the result appended to `Children`. */
    method AppendEntry(fs: Fs, cwd: Option<string>, name: string) returns (err: Option<Error>)
      requires Valid()
      modifies this
      ensures Valid() && old(Repr) <= Repr && fresh(Repr - old(Repr))
      ensures match ReadNode(fs, cwd, Join(path, name))
              case Ok(x) => err == None && model == old(model).(children := old(model).children + [x])
              case Err(e) => err == Some(e)
    {
      var childPath := Join(path, name);
      var r := GetTree(fs, cwd, childPath);
      if r.Err? {
        return Some(r.error);
      }
      AddChild(r.value);
      return None;
    }

    /** `f.Children = append(f.Children, child)` for a child that shares no
        object with this tree. */
    method AddChild(child: FileTree)
      requires Valid() && child.Valid() && Repr !! child.Repr
      modifies this
      ensures Valid() && Repr == old(Repr) + child.Repr
      ensures Children == old(Children) + [child]
      ensures model == old(model).(children := old(model).children + [child.model])
    {
      Children := Children + [child];
      Repr := Repr + child.Repr;
      model := model.(children := model.children + [child.model]);
    }

    /** The second loop of GetChildren: `GetChildren` on each child in
        order. The ghost t is this node as GetChildren found it. */
    method ExpandChildren(fs: Fs, cwd: Option<string>, recursive: bool, ghost t: Node) returns (err: Option<Error>)
      requires Valid() && WellFormed(fs)
      requires AllBelow(fs, model.children, t)
      modifies Repr
      ensures err.None? ==> Valid() && old(Repr) <= Repr && fresh(Repr - old(Repr))
      ensures match ExpandAll(fs, cwd, old(model).children, recursive, t)
              case Ok(us) => err == None && model == old(model).(children := us)
              case Err(e) => err == Some(e)
      decreases Height(t), Rank(fs, t.path), 2
    {
      ghost var m0 := model;
      ghost var r0 := Repr;
      ghost var cs := model.children;
      ghost var done: seq<Node> := [];
      var j := 0;
      while j < |Children|
        invariant Valid() && r0 <= Repr && fresh(Repr - r0) && |Children| == |cs|
        invariant Expanded(fs, cwd, recursive, cs, t, m0, j, done, model)
      {
        err, done := ExpandNext(fs, cwd, recursive, j, done, cs, m0, t);
        if err.Some? {
          return;
        }
        j := j + 1;
      }
      ExpandedAll(fs, cwd, recursive, cs, t, m0, done, model);
      return None;
    }

    /** One turn of that loop, stated as the step from the first j children
        expanded to the first j + 1: the j-th child is expanded in place, or
        its failure is the failure of the whole loop. */
    method ExpandNext(fs: Fs, cwd: Option<string>, recursive: bool, j: nat, ghost done: seq<Node>,
                      ghost cs: seq<Node>, ghost m0: Node, ghost t: Node)
      returns (err: Option<Error>, ghost done': seq<Node>)
      requires Valid() && j < |cs| && Expanded(fs, cwd, recursive, cs, t, m0, j, done, model)
      modifies Repr
      ensures err.None? ==> Valid() && old(Repr) <= Repr && fresh(Repr - old(Repr)) && |Children| == |cs|
      ensures err.Some? ==> ExpandAll(fs, cwd, cs, recursive, t) == Err(err.value)
      ensures err.None? ==> Expanded(fs, cwd, recursive, cs, t, m0, j + 1, done', model)
      decreases Height(t), Rank(fs, t.path), 1
    {
      assert model.children[j] == cs[j];
      err := ExpandChild(fs, cwd, recursive, j, t);
      ExpandAllStep(fs, cwd, cs, recursive, t, j, done);
      if err.None? {
        ghost var u := Expand(fs, cwd, cs[j], recursive).value;
        ReplaceNext(done, cs, j, u);
        done' := done + [u];
      } else {
        done' := done;
      }
    }

    /** The body of that loop: `GetChildren` on the j-th child; the other
        children are untouched. */
    method ExpandChild(fs: Fs, cwd: Option<string>, recursive: bool, j: nat, ghost t: Node) returns (err: Option<Error>)
      requires Valid() && WellFormed(fs) && j < |Children|
      requires Below(fs, model.children[j], t)
      modifies Repr
      ensures err.None? ==> Valid() && old(Repr) <= Repr && fresh(Repr - old(Repr)) && |Children| == |old(Children)|
      ensures match Expand(fs, cwd, old(model).children[j], recursive)
              case Ok(u) => err == None && model == old(model).(children := old(model).children[j := u])
              case Err(e) => err == Some(e)
      decreases Height(t), Rank(fs, t.path), 0
    {
      var child := Children[j];
      label Before:
      err := child.GetChildren(fs, cwd, recursive);
      if err.Some? {
        return;
      }
      Repr := Repr + child.Repr;
      model := model.(children := model.children[j := child.model]);
      forall i | 0 <= i < |Children| && i != j
        ensures Children[i].Repr == old@Before(Children[i].Repr) && Children[i].Valid()
      {
        Undisturbed@Before(Children[i]);
      }
    }

    /** The line `f.writeText(depth, buf)` writes for this node: the
        indentation, the path at the root or the base name below it, the
        link or directory marker, and a newline. */
    method FormatLine(depth: nat) returns (line: string)
      requires Valid()
      ensures line == Line(model, depth)
    {
      var prefix := Indent(depth);
      var suffix := "";
      if IsLink {
        suffix := "* (" + LinksTo + ")";
      } else if IsDir {
        suffix := "/";
      }
      var name := Name;
      if depth == 0 {
        name := path;
      }
      line := prefix + name + suffix + "\n";
    }

    /** `f.writeText(depth, buf)`: this node's line, then each child's
        subtree one level deeper. The buffer is passed in as the text
        written so far and handed back with this subtree appended. */
    method WriteText(depth: nat, buf: string) returns (out: string)
      requires Valid()
      ensures out == buf + Render(model, depth)
      decreases Repr, 1
    {
      var line := FormatLine(depth);
      out := WriteChildren(depth + 1, buf + line);
      ConcatAssoc(buf, line, RenderAll(model.children, depth + 1));
    }

    /** The loop of `f.writeText` over the children, in order, each at the
        given depth. */
    method WriteChildren(depth: nat, buf: string) returns (out: string)
      requires Valid()
      ensures out == buf + RenderAll(model.children, depth)
      decreases Repr, 0
    {
      out := buf;
      var k := 0;
      while k < |Children|
        invariant 0 <= k <= |Children|
        invariant out == buf + RenderAll(model.children[..k], depth)
      {
        ghost var prev := out;
        out := Children[k].WriteText(depth, out);
        RenderStep(buf, prev, out, model.children, k, model.children[k], depth);
        k := k + 1;
      }
      assert model.children[..k] == model.children;
    }

    /** `f.ToText()`: the whole tree written into an empty buffer. */
    method ToText() returns (s: string)
      requires Valid()
      ensures s == Text.ToText(model)
    {
      s := WriteText(0, "");
    }
  }

  /** Where the first loop of GetChildren stands after i turns: the first i
      names are read, in order, and appended after the node's children. */
  ghost predicate Appended(fs: Fs, cwd: Option<string>, dir: string, names: seq<string>, i: nat,
                           t: Node, read: seq<Node>, m: Node)
  {
    && i <= |names|
    && ReadEntries(fs, cwd, dir, names[..i]) == Ok(read)
    && m == t.(children := t.children + read)
  }

  /** Once every name is read, the appended nodes are what ReadEntries
      returns for the whole listing. */
  lemma AppendedAll(fs: Fs, cwd: Option<string>, dir: string, names: seq<string>, t: Node, read: seq<Node>, m: Node)
    requires Appended(fs, cwd, dir, names, |names|, t, read, m)
    ensures ReadEntries(fs, cwd, dir, names) == Ok(read)
    ensures m == t.(children := t.children + read)
  {
    assert names[..|names|] == names;
  }

  /** Where the second loop of GetChildren stands after j turns: the first j
      children are replaced by their expansions, which ExpandFirst describes,
      and the others are as they were. */
  ghost predicate Expanded(fs: Fs, cwd: Option<string>, recursive: bool, cs: seq<Node>, t: Node, m0: Node,
                           j: nat, done: seq<Node>, m: Node)
  {
    && WellFormed(fs) && j <= |cs| && |done| == j
    && AllBelow(fs, cs, t)
    && ExpandFirst(fs, cwd, cs, j, recursive, t) == Ok(done)
    && m == m0.(children := done + cs[j..])
  }

  /** Once every child is expanded, the children are what ExpandAll returns. */
  lemma ExpandedAll(fs: Fs, cwd: Option<string>, recursive: bool, cs: seq<Node>, t: Node, m0: Node, done: seq<Node>, m: Node)
    requires Expanded(fs, cwd, recursive, cs, t, m0, |cs|, done, m)
    ensures WellFormed(fs) && AllBelow(fs, cs, t)
    ensures ExpandAll(fs, cwd, cs, recursive, t) == Ok(done)
    ensures m == m0.(children := done)
  {
    assert done + cs[|cs|..] == done;
  }

  /** A subtree none of whose objects changed is still well formed. */
  twostate lemma Undisturbed(c: FileTree)
    requires old(c.Valid()) && unchanged(old(c.Repr))
    ensures c.Repr == old(c.Repr) && c.Valid() && c.model == old(c.model)
  {
  }

  /** Replacing the first not yet expanded child by its expansion. */
  lemma ReplaceNext<T>(done: seq<T>, cs: seq<T>, j: nat, u: T)
    requires |done| == j < |cs|
    ensures (done + cs[j..])[j := u] == done + [u] + cs[j + 1..]
  {
  }

  /** `GetTree(path)`: a fresh object with p's own metadata and no
      children; a link's target is read and resolved against the link's
      directory. A path that cannot be stat'ed or a link that cannot be read
      is returned as the failure the program exits on. */
  method GetTree(fs: Fs, cwd: Option<string>, p: string) returns (r: Result<FileTree, Error>)
    ensures ReadNode(fs, cwd, p).Err? ==> r == Err(ReadNode(fs, cwd, p).error)
    ensures ReadNode(fs, cwd, p).Ok? ==>
      && r.Ok? && fresh(r.value) && r.value.Valid() && r.value.Repr == {r.value}
      && r.value.model == ReadNode(fs, cwd, p).value
  {
    var info := Lstat(fs, p);
    if info.Err? {
      return Err(info.error);
    }
    var linksTo := "";
    if info.value.isLink {
      var link := Readlink(fs, p);
      if link.None? {
        return Err(LinkUnreadable(info.value.name));
      }
      linksTo := Abs(cwd, Join(Dir(p), link.value));
    }
    var f := new FileTree(info.value.modTime, info.value.isLink, info.value.isDir, linksTo,
                          info.value.size, info.value.name, p);
    return Ok(f);
  }

  /** `main` once the flags are parsed: validate them, build the tree, and
      produce what would be printed. */
  method Run(fs: Fs, cwd: Option<string>, path: string, recursive: bool, output: string) returns (o: Outcome)
    requires WellFormed(fs)
    ensures o == Pipeline(fs, cwd, path, recursive, output)
  {
    var format := Validate(path, output);
    if format.Err? {
      return Exit(format.error);
    }
    var r := GetTree(fs, cwd, path);
    if r.Err? {
      return Exit(2);
    }
    var tree := r.value;
    var err := tree.GetChildren(fs, cwd, recursive);
    if err.Some? {
      return Exit(2);
    }
    match format.value
    case TextFormat =>
      var s := tree.ToText();
      o := Done(TextOutput(s));
    case Json =>
      o := Done(Structured(Json, tree.Snapshot().children));
    case Yaml =>
      o := Done(Structured(Yaml, tree.Snapshot().children));
  }
}
