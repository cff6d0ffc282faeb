# filelister in Dafny

A model of `filelister`, a small Go command that lists a file tree. It reads
one path's metadata into a `FileTree` (`GetTree`), attaches the entries of a
directory as children, optionally all the way down (`GetChildren`), and
prints the tree as indented text (`ToText`/`writeText`) or hands the root's
children to a JSON or YAML encoder. Before any of that, `main` checks its
two flags.

The filesystem is a finite map from path to what `os.Lstat`, `os.Readlink`
and `ioutil.ReadDir` would report for it (`FileSystem`). The three fatal
failures of the program (`os.Exit(2)` after a failed `Lstat`, `Readlink` or
`ReadDir`) are returned as `Error` values instead.

The modules follow the program's parts:

- `Wrappers`: the `Option` and `Result` types.
- `Paths`: `filepath.Join`, `filepath.Dir` and `filepath.Abs` for Unix paths.
  `Abs` takes the working directory as a parameter.
- `FileSystem`: the map, the three system calls, the `Error` values, and
  what makes a map a well-formed filesystem.
- `Tree`: the `FileTree` as a value (`Node`).
  - `ReadNode` is what `GetTree` computes.
  - `Expand` is what `GetChildren` does to a node.
  - The lemmas state what building promises: one child per listed entry, in
    order; links are never expanded; the first failure wins; a recursive
    build covers the whole tree.
- `Text`: what `writeText` writes, and an independent pre-order walk it is
  proved equal to.
- `Cli`: the checks in `main` and the whole run as a function.
- `FileLister`: the program as it runs.
  - `FileTree` is a class whose `Children` sequence `GetChildren` extends in
    place, one object per node.
  - Each method is proved against the `Tree`, `Text` or `Cli` function that
    describes the same step.
  - Ghost fields `model` (the subtree as a value) and `Repr` (its objects)
    connect it to those functions, and the `Valid` predicate keeps the
    subtrees of different children disjoint.
- `Seqs`: one fact about concatenation.

Two facts about the program shape what the model keeps:

- `ioutil.ReadDir` returns entries sorted by name, so children come in the
  order of the listing that `ReadDir` reports. The filesystem map holds that
  listing as it is.
- `main` prints "Must specify path." before exiting with status 1. The model
  keeps only the status.

A filesystem is well formed when no listing holds an empty name and an
entry listed as `n` under `p` is the entry at `Join(p, n)` named `n`, as
`os.Lstat` reports the base name of what it stats.

## Model

| member | source | states |
|---|---|---|
| Paths.Join | filelister.go:73 | joining a name onto a directory keeps the directory as a prefix, makes the result strictly longer for a non-empty name, and preserves absoluteness; an empty directory gives the name itself |
| Paths.DirOfJoin | filelister.go:55 | `Dir` of a name joined onto a directory gives that directory back (a link's directory is the directory it was listed in) |
| Paths.Abs | filelister.go:55-59 | an absolute path is kept; a relative one is absolute once the working directory is; a failing working directory gives "", the value `LinksTo` then receives |
| FileSystem.Lstat | filelister.go:28-32 | stat succeeds exactly for known paths and reports the entry itself; otherwise it fails with that path |
| FileSystem.Readlink | filelister.go:50-54 | the link text is returned exactly when the path is known and its link can be read |
| FileSystem.ReadDir | filelister.go:66-70 | the listing is returned exactly when the directory can be read; otherwise it fails with the directory's path |
| Tree.ReadNode | filelister.go:27-62 | `GetTree` fails exactly when the path cannot be stat'ed or is a link whose text cannot be read, each with its own error. Otherwise the node has no children, the path as given, the entry's name, time, size and flags, a `LinksTo` that is non-empty only for links, and for a link the link text joined onto the link's directory and made absolute |
| Tree.LinksToAsWritten | filelister.go:55-59 | the code's link target, the link text joined onto the link's directory and made absolute, is absolute whenever the working directory is |
| Tree.LinkTarget | filelister.go:49-59 | the corrected link target: an absolute link text is the target itself; a relative one is what the code computes; the result is absolute whenever the link text or the working directory is |
| Tree.AbsoluteLinkTextIsMisresolved | filelister.go:55 | for the link `/tmp/a/l -> /etc/x`, the code as written reports a target under `/tmp/a` and not `/etc/x`, which `LinkTarget` reports |
| Tree.ReadEntries | filelister.go:72-75 | a successful read of a listing gives one node per name |
| Tree.ReadEntriesSpec | filelister.go:72-75 | reading the listing succeeds if and only if every entry, joined onto the directory, can be read; the i-th node is then `GetTree` of the i-th entry |
| Tree.ReadEntriesAllRead | filelister.go:72-75 | when every entry can be read, reading the listing succeeds |
| Tree.ReadEntriesValues | filelister.go:72-75 | a successful read holds each entry's node at its position in the listing |
| Tree.ReadEntriesFirstError | filelister.go:72-75 | a failed read fails with the error of the first entry `GetTree` cannot read; every earlier entry was read |
| Tree.ReadEntriesPrefixFails | filelister.go:72-75 | a failure on a prefix of the listing is the failure of the whole listing: the loop never continues past an exit |
| Tree.ReadEntriesStep | filelister.go:72-75 | one turn of the first loop: a readable entry's node is appended to what was read so far, or its failure is the failure of the loop |
| Tree.ChildIsLower | filelister.go:76-80 | a child's tree is lower than its parent's, so recursion into old children ends |
| Tree.ChildrenBelow | filelister.go:76-80 | every child `GetChildren` recurses into, old or just read, lies below the node in the order the recursion follows, so the recursion ends on every finite filesystem |
| Tree.EntryBelow | filelister.go:73-74 | a node read from a non-empty entry name is a leaf at a strictly longer path than its directory, so it lies below the directory in the order the recursion follows |
| Tree.Expand | filelister.go:64-82 | `GetChildren` changes nothing but the children; a link or non-directory is returned unchanged; a successful expansion means the directory could be listed |
| Tree.ExpandListed | filelister.go:66-80 | past the first test, only the children change, and success means the directory was listed |
| Tree.ExpandAll | filelister.go:76-80 | the recursive loop, when it succeeds, gives one subtree per child |
| Tree.ExpandFirst | filelister.go:76-80 | the first n turns of that loop, when they succeed, give n subtrees |
| Tree.ExpandFirstFails | filelister.go:76-80 | a failure in the first n turns is the failure of every longer run, the whole loop included |
| Tree.ExpandAllStep | filelister.go:77-79 | one turn of the recursive loop: the next child's expansion is appended, or its failure is the failure of the loop |
| Tree.ExpandFirstSpec | filelister.go:76-80 | the first n turns succeed if and only if each of the first n children can be expanded, and then hold those expansions in order |
| Tree.ExpandFirstAllExpanded | filelister.go:76-80 | when each of the first n children can be expanded, the first n turns succeed |
| Tree.ExpandFirstValues | filelister.go:76-80 | after n successful turns, the k-th result is the k-th child expanded |
| Tree.ExpandAllSpec | filelister.go:76-80 | the recursive loop succeeds if and only if every child can be expanded, and then holds the expanded children in their order |
| Tree.ExpandFirstError | filelister.go:76-80 | failed turns fail with the error of the first child whose expansion fails |
| Tree.ExpandAllFirstError | filelister.go:76-80 | a failed recursive loop fails with the error of the first child whose expansion fails, all earlier children having been expanded |
| Tree.ExpandOneLevel | filelister.go:64-75 | non-recursive `GetChildren` on a directory fails with the directory's error when it cannot be listed. It succeeds if and only if the listing and every entry in it can be read. It then appends one child per entry after the existing children, in listing order, each read from the joined path, named by its entry and without children; the node's own fields are unchanged |
| Tree.ExpandRecursiveBuilds | filelister.go:64-80 | recursive `GetChildren` on a fresh node builds the whole tree: every non-link directory holds exactly the nodes of its listing, in order, each named by its entry and built the same way, and every other node has no children |
| Tree.BuiltLinksAreLeaves | filelister.go:65 | in a built tree no symlink has children, whatever it points to, and every subtree is itself built |
| Text.Indent | filelister.go:91 | the prefix at depth d is exactly 2·d spaces |
| Text.LineShape | filelister.go:90-102 | a line is 2·d spaces, the display name (path at depth 0, name below), the suffix, and a final newline, and nothing else |
| Text.SuffixKinds | filelister.go:92-97 | the suffix is `* (target)` exactly for links (a link that is also a directory included), `/` exactly for non-link directories, and empty exactly for the rest |
| Text.RenderStep | filelister.go:103-105 | writing one more child's subtree extends the text of the earlier children by that subtree |
| Text.LinesAppend | filelister.go:102-105 | the lines of two consecutive runs of visits are the lines of the first followed by those of the second |
| Text.RenderIsPreorder | filelister.go:90-106 | `writeText` writes exactly the lines of a pre-order walk: the node's line, then each child's subtree in stored order, one level deeper |
| Text.RenderAllIsPreorder | filelister.go:103-105 | the children's loop writes exactly the lines of their walks, one after the other |
| Text.PreorderShape | filelister.go:102-105 | the walk has one visit per node, starts with the node at its own depth, and visits everything else strictly deeper |
| Text.PreorderAllShape | filelister.go:103-105 | the children's walks have one visit per node, none shallower than the children's depth |
| Text.LineHasOneNewline | filelister.go:102 | a node's line holds exactly one newline when its names do not |
| Text.RenderLineCount | filelister.go:102-105 | the text holds exactly one newline per node of the tree when no name holds one |
| Text.RenderAllLineCount | filelister.go:103-105 | the children's text holds one newline per node of their subtrees |
| Cli.Validate | filelister.go:132-140 | an empty path gives status 1; otherwise an output other than yaml, json or text gives status 2; otherwise the named format, and each of these if and only if its condition holds |
| Cli.Pipeline | filelister.go:124-158 | a run exits with 1 exactly for an empty path, and with 2 for an unknown format. It finishes exactly when the flags are valid and the root can be read and expanded. Text output starts with the root's path and ends in a newline; the other formats get the root's children, one per listed entry of a root directory |
| Cli.TextStartsWithPath | filelister.go:84-102 | the text opens with the root's path as given and ends in a newline |
| Cli.RenderAllEndsInNewline | filelister.go:103-105 | the children's text is empty or ends in a newline |
| Cli.RenderEndsInNewline | filelister.go:102-105 | a subtree's text is non-empty and ends in a newline |
| Cli.ChildrenListed | filelister.go:108-122 | the encoders of an expanded root directory receive one child per listed entry |
| Cli.ListedChildLine | filelister.go:98-102 | below the root a child is shown by its listed entry name: the line of the i-th appended child is its indentation, the i-th listed name, its marker and a newline |
| Cli.ArgumentsCheckedFirst | filelister.go:132-143 | invalid flags give the same status whatever the filesystem, the working directory or `-recursive`: nothing is read before the checks |
| FileLister.FileTree.constructor | filelister.go:34-41 | a new object holds the given metadata, no children, and is a tree of one object |
| FileLister.FileTree.Snapshot | filelister.go:16-25 | the value read off the objects is the subtree they represent |
| FileLister.FileTree.ChildSnapshots | filelister.go:24 | the values of the first n children read off the objects are those children's subtrees |
| FileLister.FileTree.GetChildren | filelister.go:64-82 | the object tree becomes exactly what `Expand` computes, with fresh objects only, or the call returns `Expand`'s failure; a link or non-directory keeps its children and objects |
| FileLister.FileTree.AppendEntries | filelister.go:71-75 | the first loop appends exactly the nodes `ReadEntries` reads, after the existing children, or returns its failure |
| FileLister.FileTree.AppendNext | filelister.go:72-75 | one turn of that loop takes the first i entries read and appended to the first i + 1, or returns the failure of the whole listing |
| FileLister.FileTree.AppendEntry | filelister.go:73-74 | `GetTree` of the joined path is appended as a fresh child, or its failure is returned |
| FileLister.FileTree.AddChild | filelister.go:74 | `append` puts the child last, and its objects join the tree |
| FileLister.FileTree.ExpandChildren | filelister.go:76-80 | the second loop replaces the children by exactly what `ExpandAll` computes, or returns its failure |
| FileLister.FileTree.ExpandNext | filelister.go:77-79 | one turn of that loop takes the first j children expanded to the first j + 1, or returns the failure of the whole loop |
| FileLister.FileTree.ExpandChild | filelister.go:78 | `GetChildren` on the j-th child replaces it by its expansion and leaves the other children as they were, or returns its failure |
| FileLister.FileTree.FormatLine | filelister.go:91-102 | the line built from the object's fields is `Line` of its value |
| FileLister.FileTree.WriteText | filelister.go:90-106 | the buffer is extended by exactly `Render` of the subtree at the given depth |
| FileLister.FileTree.WriteChildren | filelister.go:103-105 | the buffer is extended by each child's rendering, in order, one level deeper |
| FileLister.FileTree.ToText | filelister.go:84-88 | the text is `ToText` of the tree the objects represent |
| FileLister.AppendedAll | filelister.go:72-75 | once every entry is read, the appended nodes are what `ReadEntries` gives for the whole listing |
| FileLister.ExpandedAll | filelister.go:76-80 | once every child is expanded, the children are what `ExpandAll` gives |
| FileLister.GetTree | filelister.go:27-62 | `GetTree` returns a fresh one-object tree whose value is `ReadNode` of the path, or `ReadNode`'s failure |
| FileLister.Run | filelister.go:124-158 | the program run on objects gives exactly the outcome `Pipeline` describes |

## Left out

- `filepath.Clean`: `Join` and `Dir` do not normalise `.`, `..` or repeated separators. A path is kept as it was given.
- `filepath.Abs` depends on the process's working directory, so the model passes that directory in as a parameter (`None` when `os.Getwd` fails).
- The error message printed when `Abs` fails (filelister.go:56-58) is not modelled; the program then carries on with `LinksTo` = "", and so does the model.
- `ToJson` and `ToYaml` (filelister.go:108-122): the encoders are not modelled. The model records only that they are given the root's children (`Structured`).
- The real system calls are replaced by the filesystem map. So are their order, their timing, and any change to the filesystem while the tree is built.
- `ModifiedTime` and `Size` are opaque integers that are only copied. `time.Time` is not modelled.
- Flag parsing and the default values of the flags (filelister.go:127-130) are not modelled. The flags arrive parsed.
- All `fmt.Println` output, the final print (filelister.go:158), and the messages on the error paths are not modelled. `os.Exit` becomes an `Error` or exit status that the caller returns.
- The duplicated assignments at filelister.go:43-48 repeat the struct literal and are not modelled separately.
- The `bytes.Buffer` of `writeText` is the string written so far, passed in and handed back.
- FileLister.FileTree.GetChildren: after a failure, its contract says nothing about the object tree or its `Valid` invariant. The program exits at that point and never looks at the tree again.
- FileLister.FileTree.AppendEntries: the same holds after a failure.
- FileLister.FileTree.AppendNext: the same holds after a failure.
- FileLister.FileTree.ExpandChildren: the same holds after a failure.
- FileLister.FileTree.ExpandNext: the same holds after a failure.
- FileLister.FileTree.ExpandChild: the same holds after a failure.
- The corrected link target of Findings (`Tree.LinkTarget`) is defined and proved about, but not used: `ReadNode` and `GetTree` compute the target as the code does, so absolute link texts keep the code's behaviour throughout the model.

## Findings

| source | as written | input that shows it | evidently intended | confidence | as-written member | corrected member |
|---|---|---|---|---|---|---|
| filelister.go:55 | `filepath.Abs(filepath.Join(filepath.Dir(f.path), link))` joins the link text onto the link's directory even when the text is an absolute path; `Join` does not restart at an absolute element | the link `/tmp/a/l -> /etc/x` gets `LinksTo` `/tmp/a/etc/x` (unnormalised in the model: `/tmp/a//etc/x`) | an absolute link text is the target itself (`/etc/x`); only a relative one is resolved against the link's directory | high, not executed | Tree.LinksToAsWritten, Tree.AbsoluteLinkTextIsMisresolved | Tree.LinkTarget |
