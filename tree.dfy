/** The `FileTree` of filelister.go as a value, with the two operations that
    build it: `GetTree` (ReadNode) reads one path's metadata into a node
    without children, and `GetChildren` (Expand) attaches a directory's
    entries, recursing into them when asked. The in-place version of both
    lives in module FileLister; the functions here are what it is proved
    against. */
module Tree {
  import opened Wrappers
  import opened Paths
  import opened FileSystem

  /** One `FileTree`: the exported fields, the unexported `path`, and the
      children in the order they were appended. */
  datatype Node = Node(
    name: string,
    modTime: int,
    size: int,
    isDir: bool,
    isLink: bool,
    linksTo: string,
    path: string,
    children: seq<Node>)

  /** The nodes GetChildren lists: directories that are not symlinks. */
  predicate Expandable(n: Node) {
    n.isDir && !n.isLink
  }

  // ---------------------------------------------------------------------
  // GetTree

  /** `LinksTo` as filelister.go computes it: the link text joined onto the
      link's directory, then made absolute. `filepath.Join` does not restart
      at an absolute second element, so an absolute link text ends up
      nested under the link's directory. The result is absolute whenever the
      working directory is. */
  function LinksToAsWritten(cwd: Option<string>, p: string, link: string): (r: string)
    ensures cwd.Some? && IsAbs(cwd.value) ==> IsAbs(r)
  {
    Abs(cwd, Join(Dir(p), link))
  }

  /** The link target the program evidently means to report: an absolute
      link text is the target itself; a relative one is resolved against the
      link's directory and made absolute, which is what the code computes. */
  function LinkTarget(cwd: Option<string>, p: string, link: string): (r: string)
    ensures IsAbs(link) ==> r == link
    ensures !IsAbs(link) ==> r == LinksToAsWritten(cwd, p, link)
    ensures IsAbs(link) || (cwd.Some? && IsAbs(cwd.value)) ==> IsAbs(r)
  {
    if IsAbs(link) then link else LinksToAsWritten(cwd, p, link)
  }

  /** An absolute link `/tmp/a/l -> /etc/x` is reported by the code as written
      with a target below `/tmp/a`, not as `/etc/x`. */
  lemma AbsoluteLinkTextIsMisresolved()
    ensures LinksToAsWritten(Some("/"), "/tmp/a/l", "/etc/x") == "/tmp/a//etc/x"
    ensures LinksToAsWritten(Some("/"), "/tmp/a/l", "/etc/x") != "/etc/x"
    ensures LinkTarget(Some("/"), "/tmp/a/l", "/etc/x") == "/etc/x"
  {
    LastSlashAfter("/tmp/a/l", 6);
    assert Dir("/tmp/a/l") == "/tmp/a";
  }

  /** `GetTree(p)`: the metadata of p itself (a link is not followed) as a
      node without children, or the failure that makes the program exit. */
  function ReadNode(fs: Fs, cwd: Option<string>, p: string): (r: Result<Node, Error>)
    ensures r.Err? <==> p !in fs || (fs[p].isLink && fs[p].link.None?)
    ensures p !in fs ==> r == Err(PathUnreadable(p))
    ensures p in fs && fs[p].isLink && fs[p].link.None? ==> r == Err(LinkUnreadable(fs[p].name))
    ensures r.Ok? ==>
      && r.value.children == []
      && r.value.path == p
      && r.value.name == fs[p].name && r.value.modTime == fs[p].modTime && r.value.size == fs[p].size
      && r.value.isDir == fs[p].isDir && r.value.isLink == fs[p].isLink
      && (r.value.linksTo != "" ==> r.value.isLink)
      && (r.value.isLink ==> r.value.linksTo == LinksToAsWritten(cwd, p, fs[p].link.value))
  {
    match Lstat(fs, p)
    case Err(e) => Err(e)
    case Ok(info) =>
      if !info.isLink then
        Ok(Node(info.name, info.modTime, info.size, info.isDir, false, "", p, []))
      else
        match Readlink(fs, p)
        case None => Err(LinkUnreadable(info.name))
        case Some(link) =>
          Ok(Node(info.name, info.modTime, info.size, info.isDir, true, LinksToAsWritten(cwd, p, link), p, []))
  }

  /** The first loop of GetChildren: one GetTree per listed name, at the
      path joined onto the directory, stopping at the first failure. */
  function ReadEntries(fs: Fs, cwd: Option<string>, dir: string, names: seq<string>): (r: Result<seq<Node>, Error>)
    ensures r.Ok? ==> |r.value| == |names|
  {
    if names == [] then Ok([])
    else
      match ReadEntries(fs, cwd, dir, names[..|names| - 1])
      case Err(e) => Err(e)
      case Ok(xs) =>
        match ReadNode(fs, cwd, Join(dir, names[|names| - 1]))
        case Err(e) => Err(e)
        case Ok(x) => Ok(xs + [x])
  }

  /** ReadEntries succeeds exactly when every listed entry can be read, and
      then holds the entries' nodes in listing order. */
  lemma ReadEntriesSpec(fs: Fs, cwd: Option<string>, dir: string, names: seq<string>)
    ensures ReadEntries(fs, cwd, dir, names).Ok? <==>
              forall i :: 0 <= i < |names| ==> ReadNode(fs, cwd, Join(dir, names[i])).Ok?
    ensures ReadEntries(fs, cwd, dir, names).Ok? ==>
              forall i :: 0 <= i < |names| ==>
                ReadNode(fs, cwd, Join(dir, names[i])) == Ok(ReadEntries(fs, cwd, dir, names).value[i])
  {
    if ReadEntries(fs, cwd, dir, names).Ok? {
      ReadEntriesValues(fs, cwd, dir, names);
    }
    if forall i :: 0 <= i < |names| ==> ReadNode(fs, cwd, Join(dir, names[i])).Ok? {
      ReadEntriesAllRead(fs, cwd, dir, names);
    }
  }

  /** ReadEntries succeeds when every listed entry can be read. */
  lemma {:induction false} ReadEntriesAllRead(fs: Fs, cwd: Option<string>, dir: string, names: seq<string>)
    requires forall i :: 0 <= i < |names| ==> ReadNode(fs, cwd, Join(dir, names[i])).Ok?
    ensures ReadEntries(fs, cwd, dir, names).Ok?
  {
    if names != [] {
      var last := |names| - 1;
      var init := names[..last];
      forall i | 0 <= i < |init|
        ensures ReadNode(fs, cwd, Join(dir, init[i])).Ok?
      {
        assert init[i] == names[i];
      }
      ReadEntriesAllRead(fs, cwd, dir, init);
      assert ReadNode(fs, cwd, Join(dir, names[last])).Ok?;
    }
  }

  /** A successful ReadEntries holds the entries' nodes in listing order. */
  lemma {:induction false} ReadEntriesValues(fs: Fs, cwd: Option<string>, dir: string, names: seq<string>)
    requires ReadEntries(fs, cwd, dir, names).Ok?
    ensures forall i :: 0 <= i < |names| ==>
              ReadNode(fs, cwd, Join(dir, names[i])) == Ok(ReadEntries(fs, cwd, dir, names).value[i])
  {
    if names != [] {
      var last := |names| - 1;
      var init := names[..last];
      var pre := ReadEntries(fs, cwd, dir, init);
      var fin := ReadNode(fs, cwd, Join(dir, names[last]));
      var r := ReadEntries(fs, cwd, dir, names).value;
      assert pre.Ok? && fin.Ok? && r == pre.value + [fin.value];
      ReadEntriesValues(fs, cwd, dir, init);
      forall i | 0 <= i < |names|
        ensures ReadNode(fs, cwd, Join(dir, names[i])) == Ok(r[i])
      {
        if i < last {
          assert init[i] == names[i] && r[i] == pre.value[i];
        }
      }
    }
  }

  /** When ReadEntries fails, it fails with the error of the first entry that
      cannot be read: the traversal is fail-fast. */
  lemma {:induction false} ReadEntriesFirstError(fs: Fs, cwd: Option<string>, dir: string, names: seq<string>)
    requires ReadEntries(fs, cwd, dir, names).Err?
    ensures exists i :: && 0 <= i < |names|
                        && ReadNode(fs, cwd, Join(dir, names[i])) == Err(ReadEntries(fs, cwd, dir, names).error)
                        && forall k :: 0 <= k < i ==> ReadNode(fs, cwd, Join(dir, names[k])).Ok?
  {
    var last := |names| - 1;
    var init := names[..last];
    assert forall i :: 0 <= i < |init| ==> init[i] == names[i];
    var prefix := ReadEntries(fs, cwd, dir, init);
    if prefix.Err? {
      assert ReadEntries(fs, cwd, dir, names) == prefix;
      ReadEntriesFirstError(fs, cwd, dir, init);
      var i :| && 0 <= i < |init|
               && ReadNode(fs, cwd, Join(dir, init[i])) == Err(prefix.error)
               && forall k :: 0 <= k < i ==> ReadNode(fs, cwd, Join(dir, init[k])).Ok?;
      assert ReadNode(fs, cwd, Join(dir, names[i])) == Err(prefix.error);
    } else {
      ReadEntriesSpec(fs, cwd, dir, init);
      assert ReadEntries(fs, cwd, dir, names) == Err(ReadNode(fs, cwd, Join(dir, names[last])).error);
      assert forall k :: 0 <= k < last ==> ReadNode(fs, cwd, Join(dir, names[k])).Ok?;
    }
  }

  /** A failure while reading some prefix of a listing is the failure of the
      whole listing. */
  lemma {:induction false} ReadEntriesPrefixFails(fs: Fs, cwd: Option<string>, dir: string, names: seq<string>, n: nat)
    requires n <= |names|
    requires ReadEntries(fs, cwd, dir, names[..n]).Err?
    ensures ReadEntries(fs, cwd, dir, names) == ReadEntries(fs, cwd, dir, names[..n])
    decreases |names| - n
  {
    if n < |names| {
      assert names[..n + 1][..n] == names[..n];
      ReadEntriesPrefixFails(fs, cwd, dir, names, n + 1);
    } else {
      assert names[..n] == names;
    }
  }

  /** One more entry read after a prefix that was read without failure:
      its node is appended, or its failure is that of the whole listing. */
  lemma ReadEntriesStep(fs: Fs, cwd: Option<string>, dir: string, names: seq<string>, i: nat, read: seq<Node>)
    requires i < |names|
    requires ReadEntries(fs, cwd, dir, names[..i]) == Ok(read)
    ensures ReadNode(fs, cwd, Join(dir, names[i])).Ok? ==>
              ReadEntries(fs, cwd, dir, names[..i + 1]) == Ok(read + [ReadNode(fs, cwd, Join(dir, names[i])).value])
    ensures ReadNode(fs, cwd, Join(dir, names[i])).Err? ==>
              ReadEntries(fs, cwd, dir, names) == Err(ReadNode(fs, cwd, Join(dir, names[i])).error)
  {
    assert names[..i + 1][..i] == names[..i];
    if ReadNode(fs, cwd, Join(dir, names[i])).Err? {
      ReadEntriesPrefixFails(fs, cwd, dir, names, i + 1);
    }
  }

  // ---------------------------------------------------------------------
  // GetChildren

  /** The height of a tree: 0 for a node without children. */
  function Height(n: Node): nat
    decreases n, 1
  {
    if n.children == [] then 0 else 1 + MaxHeight(n.children)
  }

  function MaxHeight(cs: seq<Node>): nat
    decreases cs, 0
  {
    if cs == [] then 0
    else
      var a := MaxHeight(cs[..|cs| - 1]);
      var b := Height(cs[|cs| - 1]);
      if a < b then b else a
  }

  /** A child is strictly lower than its parent. */
  lemma ChildIsLower(n: Node, k: nat)
    requires k < |n.children|
    ensures Height(n.children[k]) < Height(n)
  {
    MaxHeightBounds(n.children, k);
  }

  lemma {:induction false} MaxHeightBounds(cs: seq<Node>, k: nat)
    requires k < |cs|
    ensures Height(cs[k]) <= MaxHeight(cs)
  {
    if k < |cs| - 1 {
      assert cs[..|cs| - 1][k] == cs[k];
      MaxHeightBounds(cs[..|cs| - 1], k);
    }
  }

  /** The paths of the filesystem that are longer than p: a child's path is
      longer than its directory's, so this set shrinks on the way down. */
  ghost function Rank(fs: Fs, p: string): set<string> {
    set q | q in fs && |q| > |p|
  }

  /** The order the recursion of GetChildren follows: c is a lower tree
      than t, or an equally high one deeper in the filesystem. */
  ghost predicate Below(fs: Fs, c: Node, t: Node) {
    || Height(c) < Height(t)
    || (Height(c) == Height(t) && Rank(fs, c.path) < Rank(fs, t.path))
  }

  /** Every node of cs comes before parent in that order. */
  ghost predicate AllBelow(fs: Fs, cs: seq<Node>, parent: Node) {
    forall k {:trigger Below(fs, cs[k], parent)} :: 0 <= k < |cs| ==> Below(fs, cs[k], parent)
  }

  /** Every child GetChildren recurses into, old or freshly read, comes
      before the node itself in the order the recursion follows: a lower
      tree, or an equally high one deeper in the filesystem. */
  lemma ChildrenBelow(fs: Fs, cwd: Option<string>, t: Node, names: seq<string>, read: seq<Node>)
    requires WellFormed(fs)
    requires ReadDir(fs, t.path) == Ok(names)
    requires ReadEntries(fs, cwd, t.path, names) == Ok(read)
    ensures AllBelow(fs, t.children + read, t)
  {
    forall k | 0 <= k < |t.children + read|
      ensures Below(fs, (t.children + read)[k], t)
    {
      ChildBelow(fs, cwd, t, names, read, k);
    }
  }

  /** The same for the k-th child: an old child is a lower tree, a freshly
      read one lies deeper in the filesystem. */
  lemma ChildBelow(fs: Fs, cwd: Option<string>, t: Node, names: seq<string>, read: seq<Node>, k: nat)
    requires WellFormed(fs)
    requires ReadDir(fs, t.path) == Ok(names)
    requires ReadEntries(fs, cwd, t.path, names) == Ok(read)
    requires k < |t.children + read|
    ensures Below(fs, (t.children + read)[k], t)
  {
    if k < |t.children| {
      assert (t.children + read)[k] == t.children[k];
      ChildIsLower(t, k);
    } else {
      var i := k - |t.children|;
      ReadEntriesValues(fs, cwd, t.path, names);
      assert (t.children + read)[k] == read[i];
      assert names[i] == fs[t.path].listing.value[i] != "";
      EntryBelow(fs, cwd, t, names[i], read[i]);
    }
  }

  /** A node read from a non-empty name joined onto t's path is a leaf one
      level deeper in the filesystem than t. */
  lemma EntryBelow(fs: Fs, cwd: Option<string>, t: Node, name: string, c: Node)
    requires name != "" && ReadNode(fs, cwd, Join(t.path, name)) == Ok(c)
    ensures c.children == [] && |c.path| > |t.path|
    ensures Below(fs, c, t)
  {
    assert c.path in Rank(fs, t.path) && c.path !in Rank(fs, c.path);
    assert Height(c) == 0;
  }

  /** `f.GetChildren(recursive)` on the node t: a leaf is left as it is; a
      directory gets one child per listed entry appended after its existing
      children, and with `recursive` every child is then expanded in turn. */
  function Expand(fs: Fs, cwd: Option<string>, t: Node, recursive: bool): (r: Result<Node, Error>)
    requires WellFormed(fs)
    ensures r.Ok? ==> r.value.(children := t.children) == t
    ensures !Expandable(t) ==> r == Ok(t)
    ensures Expandable(t) && r.Ok? ==> ReadDir(fs, t.path).Ok?
    decreases Height(t), Rank(fs, t.path), 3
  {
    if !Expandable(t) then Ok(t) else ExpandListed(fs, cwd, t, recursive)
  }

  /** GetChildren past its first test: list the directory, append what the
      listing names, and with `recursive` expand every child. */
  function ExpandListed(fs: Fs, cwd: Option<string>, t: Node, recursive: bool): (r: Result<Node, Error>)
    requires WellFormed(fs) && Expandable(t)
    ensures r.Ok? ==> r.value.(children := t.children) == t
    ensures r.Ok? ==> ReadDir(fs, t.path).Ok?
    decreases Height(t), Rank(fs, t.path), 2
  {
    match ReadDir(fs, t.path)
    case Err(e) => Err(e)
    case Ok(names) =>
      match ReadEntries(fs, cwd, t.path, names)
      case Err(e) => Err(e)
      case Ok(read) =>
        var cs := t.children + read;
        if !recursive then Ok(t.(children := cs))
        else
          ChildrenBelow(fs, cwd, t, names, read);
          match ExpandAll(fs, cwd, cs, recursive, t)
          case Err(e) => Err(e)
          case Ok(us) => Ok(t.(children := us))
  }

  /** The second loop of GetChildren: Expand on each child in order,
      stopping at the first failure. */
  function ExpandAll(fs: Fs, cwd: Option<string>, cs: seq<Node>, recursive: bool, ghost parent: Node): (r: Result<seq<Node>, Error>)
    requires WellFormed(fs)
    requires AllBelow(fs, cs, parent)
    ensures r.Ok? ==> |r.value| == |cs|
    decreases Height(parent), Rank(fs, parent.path), 1
  {
    ExpandFirst(fs, cwd, cs, |cs|, recursive, parent)
  }

  /** The first n rounds of that loop. */
  function ExpandFirst(fs: Fs, cwd: Option<string>, cs: seq<Node>, n: nat, recursive: bool, ghost parent: Node): (r: Result<seq<Node>, Error>)
    requires WellFormed(fs) && n <= |cs|
    requires AllBelow(fs, cs, parent)
    ensures r.Ok? ==> |r.value| == n
    decreases Height(parent), Rank(fs, parent.path), 0, n
  {
    if n == 0 then Ok([])
    else
      match ExpandFirst(fs, cwd, cs, n - 1, recursive, parent)
      case Err(e) => Err(e)
      case Ok(us) =>
        assert Below(fs, cs[n - 1], parent);
        match Expand(fs, cwd, cs[n - 1], recursive)
        case Err(e) => Err(e)
        case Ok(u) => Ok(us + [u])
  }

  /** A failure in the first n rounds is the failure of every longer run,
      the whole loop included. */
  lemma {:induction false} ExpandFirstFails(fs: Fs, cwd: Option<string>, cs: seq<Node>, n: nat, m: nat, recursive: bool, parent: Node)
    requires WellFormed(fs) && n <= m <= |cs|
    requires AllBelow(fs, cs, parent)
    requires ExpandFirst(fs, cwd, cs, n, recursive, parent).Err?
    ensures ExpandFirst(fs, cwd, cs, m, recursive, parent) == ExpandFirst(fs, cwd, cs, n, recursive, parent)
    decreases m
  {
    if n < m {
      ExpandFirstFails(fs, cwd, cs, n, m - 1, recursive, parent);
    }
  }

  /** One more round after j rounds without failure: the next child's
      expansion is appended, or its failure is that of the whole loop. */
  lemma ExpandAllStep(fs: Fs, cwd: Option<string>, cs: seq<Node>, recursive: bool, parent: Node, j: nat, done: seq<Node>)
    requires WellFormed(fs) && j < |cs|
    requires AllBelow(fs, cs, parent)
    requires ExpandFirst(fs, cwd, cs, j, recursive, parent) == Ok(done)
    ensures Expand(fs, cwd, cs[j], recursive).Ok? ==>
              ExpandFirst(fs, cwd, cs, j + 1, recursive, parent) == Ok(done + [Expand(fs, cwd, cs[j], recursive).value])
    ensures Expand(fs, cwd, cs[j], recursive).Err? ==>
              ExpandAll(fs, cwd, cs, recursive, parent) == Err(Expand(fs, cwd, cs[j], recursive).error)
  {
    if Expand(fs, cwd, cs[j], recursive).Err? {
      ExpandFirstFails(fs, cwd, cs, j + 1, |cs|, recursive, parent);
    }
  }

  /** The first n rounds succeed exactly when each of the first n children
      can be expanded, and then hold their expansions in order. */
  lemma ExpandFirstSpec(fs: Fs, cwd: Option<string>, cs: seq<Node>, n: nat, recursive: bool, parent: Node)
    requires WellFormed(fs) && n <= |cs|
    requires AllBelow(fs, cs, parent)
    ensures ExpandFirst(fs, cwd, cs, n, recursive, parent).Ok? <==>
              forall k :: 0 <= k < n ==> Expand(fs, cwd, cs[k], recursive).Ok?
    ensures ExpandFirst(fs, cwd, cs, n, recursive, parent).Ok? ==>
              forall k :: 0 <= k < n ==>
                Expand(fs, cwd, cs[k], recursive) == Ok(ExpandFirst(fs, cwd, cs, n, recursive, parent).value[k])
  {
    if ExpandFirst(fs, cwd, cs, n, recursive, parent).Ok? {
      ExpandFirstValues(fs, cwd, cs, n, recursive, parent);
    }
    if forall k :: 0 <= k < n ==> Expand(fs, cwd, cs[k], recursive).Ok? {
      ExpandFirstAllExpanded(fs, cwd, cs, n, recursive, parent);
    }
  }

  /** The first n rounds succeed when each of the first n children can be
      expanded. */
  lemma {:induction false} ExpandFirstAllExpanded(fs: Fs, cwd: Option<string>, cs: seq<Node>, n: nat, recursive: bool, parent: Node)
    requires WellFormed(fs) && n <= |cs|
    requires AllBelow(fs, cs, parent)
    requires forall k :: 0 <= k < n ==> Expand(fs, cwd, cs[k], recursive).Ok?
    ensures ExpandFirst(fs, cwd, cs, n, recursive, parent).Ok?
    decreases n
  {
    if n > 0 {
      ExpandFirstAllExpanded(fs, cwd, cs, n - 1, recursive, parent);
      assert Below(fs, cs[n - 1], parent);
      assert Expand(fs, cwd, cs[n - 1], recursive).Ok?;
    }
  }

  /** After n successful rounds, the k-th result is the k-th child expanded. */
  lemma {:induction false} ExpandFirstValues(fs: Fs, cwd: Option<string>, cs: seq<Node>, n: nat, recursive: bool, parent: Node)
    requires WellFormed(fs) && n <= |cs|
    requires AllBelow(fs, cs, parent)
    requires ExpandFirst(fs, cwd, cs, n, recursive, parent).Ok?
    ensures forall k :: 0 <= k < n ==>
              Expand(fs, cwd, cs[k], recursive) == Ok(ExpandFirst(fs, cwd, cs, n, recursive, parent).value[k])
    decreases n
  {
    if n > 0 {
      assert Below(fs, cs[n - 1], parent);
      ExpandFirstValues(fs, cwd, cs, n - 1, recursive, parent);
      var us := ExpandFirst(fs, cwd, cs, n, recursive, parent).value;
      var prefix := ExpandFirst(fs, cwd, cs, n - 1, recursive, parent).value;
      assert us == prefix + [Expand(fs, cwd, cs[n - 1], recursive).value];
      forall k | 0 <= k < n
        ensures Expand(fs, cwd, cs[k], recursive) == Ok(us[k])
      {
        if k < n - 1 {
          assert us[k] == prefix[k];
        }
      }
    }
  }

  /** ExpandAll succeeds exactly when every child can be expanded, and then
      holds the expanded children in their order. */
  lemma ExpandAllSpec(fs: Fs, cwd: Option<string>, cs: seq<Node>, recursive: bool, parent: Node)
    requires WellFormed(fs)
    requires AllBelow(fs, cs, parent)
    ensures ExpandAll(fs, cwd, cs, recursive, parent).Ok? <==>
              forall k :: 0 <= k < |cs| ==> Expand(fs, cwd, cs[k], recursive).Ok?
    ensures ExpandAll(fs, cwd, cs, recursive, parent).Ok? ==>
              forall k :: 0 <= k < |cs| ==>
                Expand(fs, cwd, cs[k], recursive) == Ok(ExpandAll(fs, cwd, cs, recursive, parent).value[k])
  {
    ExpandFirstSpec(fs, cwd, cs, |cs|, recursive, parent);
  }

  /** The k-th child is the first whose expansion fails, and it fails
      with e. */
  predicate FirstFailure(fs: Fs, cwd: Option<string>, cs: seq<Node>, recursive: bool, k: nat, e: Error)
    requires WellFormed(fs) && k < |cs|
  {
    && Expand(fs, cwd, cs[k], recursive) == Err(e)
    && forall j :: 0 <= j < k ==> Expand(fs, cwd, cs[j], recursive).Ok?
  }

  /** When the first n rounds fail, they fail with the error of the first
      child whose expansion fails. */
  lemma {:induction false} ExpandFirstError(fs: Fs, cwd: Option<string>, cs: seq<Node>, n: nat, recursive: bool, parent: Node)
    requires WellFormed(fs) && n <= |cs|
    requires AllBelow(fs, cs, parent)
    requires ExpandFirst(fs, cwd, cs, n, recursive, parent).Err?
    ensures exists k :: 0 <= k < n && FirstFailure(fs, cwd, cs, recursive, k, ExpandFirst(fs, cwd, cs, n, recursive, parent).error)
    decreases n
  {
    assert Below(fs, cs[n - 1], parent);
    var prefix := ExpandFirst(fs, cwd, cs, n - 1, recursive, parent);
    if prefix.Err? {
      ExpandFirstError(fs, cwd, cs, n - 1, recursive, parent);
      var k :| 0 <= k < n - 1 && FirstFailure(fs, cwd, cs, recursive, k, prefix.error);
      assert ExpandFirst(fs, cwd, cs, n, recursive, parent) == prefix;
    } else {
      ExpandFirstValues(fs, cwd, cs, n - 1, recursive, parent);
      assert FirstFailure(fs, cwd, cs, recursive, n - 1, ExpandFirst(fs, cwd, cs, n, recursive, parent).error);
    }
  }

  /** When ExpandAll fails, it fails with the error of the first child whose
      expansion fails. */
  lemma ExpandAllFirstError(fs: Fs, cwd: Option<string>, cs: seq<Node>, recursive: bool, parent: Node)
    requires WellFormed(fs)
    requires AllBelow(fs, cs, parent)
    requires ExpandAll(fs, cwd, cs, recursive, parent).Err?
    ensures exists k :: 0 <= k < |cs| && FirstFailure(fs, cwd, cs, recursive, k, ExpandAll(fs, cwd, cs, recursive, parent).error)
  {
    ExpandFirstError(fs, cwd, cs, |cs|, recursive, parent);
  }

  /** Non-recursive GetChildren on a directory succeeds exactly when the
      directory and every entry in it can be read. It then appends one child
      per listed name, in listing order, each read from the path joined onto
      the directory, named by its entry and without children of its own; the existing
      children and the node's own fields stay as they were. */
  lemma ExpandOneLevel(fs: Fs, cwd: Option<string>, t: Node)
    requires WellFormed(fs) && Expandable(t)
    ensures ReadDir(fs, t.path).Err? ==> Expand(fs, cwd, t, false) == Err(DirectoryUnreadable(t.path))
    ensures Expand(fs, cwd, t, false).Ok? <==>
              && ReadDir(fs, t.path).Ok?
              && forall i :: 0 <= i < |ReadDir(fs, t.path).value| ==>
                   ReadNode(fs, cwd, Join(t.path, ReadDir(fs, t.path).value[i])).Ok?
    ensures Expand(fs, cwd, t, false).Ok? ==>
              var u := Expand(fs, cwd, t, false).value;
              var names := ReadDir(fs, t.path).value;
              && u.(children := t.children) == t
              && |u.children| == |t.children| + |names|
              && u.children[..|t.children|] == t.children
              && forall i :: 0 <= i < |names| ==>
                   && ReadNode(fs, cwd, Join(t.path, names[i])) == Ok(u.children[|t.children| + i])
                   && u.children[|t.children| + i].name == names[i]
                   && u.children[|t.children| + i].children == []
  {
    if ReadDir(fs, t.path).Ok? {
      ReadEntriesSpec(fs, cwd, t.path, ReadDir(fs, t.path).value);
    }
  }

  /** What a recursive build produces from a freshly read node: every
      directory that is not a symlink holds exactly the nodes read from its
      listing, in order, each named by its entry and built the same way;
      every other node, symlinks
      to directories included, has no children. */
  ghost predicate Built(fs: Fs, cwd: Option<string>, u: Node)
    decreases u
  {
    if Expandable(u) then
      && ReadDir(fs, u.path).Ok?
      && |u.children| == |ReadDir(fs, u.path).value|
      && forall i :: 0 <= i < |u.children| ==>
           && ReadNode(fs, cwd, Join(u.path, ReadDir(fs, u.path).value[i])) == Ok(u.children[i].(children := []))
           && u.children[i].name == ReadDir(fs, u.path).value[i]
           && Built(fs, cwd, u.children[i])
    else
      u.children == []
  }

  /** Recursive GetChildren on a node without children, when it succeeds,
      builds the whole tree below it. */
  lemma {:induction false} ExpandRecursiveBuilds(fs: Fs, cwd: Option<string>, t: Node)
    requires WellFormed(fs) && t.children == []
    requires Expand(fs, cwd, t, true).Ok?
    ensures Built(fs, cwd, Expand(fs, cwd, t, true).value)
    decreases Height(t), Rank(fs, t.path)
  {
    var u := Expand(fs, cwd, t, true).value;
    if Expandable(t) {
      var names := ReadDir(fs, t.path).value;
      var read := ReadEntries(fs, cwd, t.path, names).value;
      ReadEntriesSpec(fs, cwd, t.path, names);
      ChildrenBelow(fs, cwd, t, names, read);
      assert t.children + read == read;
      ExpandAllSpec(fs, cwd, read, true, t);
      var us := ExpandAll(fs, cwd, read, true, t).value;
      assert u.children == us;
      forall i | 0 <= i < |us|
        ensures ReadNode(fs, cwd, Join(u.path, names[i])) == Ok(us[i].(children := []))
        ensures us[i].name == names[i]
        ensures Built(fs, cwd, us[i])
      {
        assert Expand(fs, cwd, read[i], true) == Ok(us[i]);
        assert Below(fs, read[i], t);
        ExpandRecursiveBuilds(fs, cwd, read[i]);
      }
    }
  }

  /** In a built tree no symlink has children, whatever it points to. */
  lemma {:induction false} BuiltLinksAreLeaves(fs: Fs, cwd: Option<string>, u: Node, n: Node)
    requires Built(fs, cwd, u)
    requires Contains(u, n)
    ensures n.isLink ==> n.children == []
    ensures Built(fs, cwd, n)
    decreases u
  {
    if n != u {
      var i :| 0 <= i < |u.children| && Contains(u.children[i], n);
      BuiltLinksAreLeaves(fs, cwd, u.children[i], n);
    }
  }

  /** n is u or one of its descendants. */
  ghost predicate Contains(u: Node, n: Node)
    decreases u
  {
    n == u || exists i :: 0 <= i < |u.children| && Contains(u.children[i], n)
  }
}
