/** The command line of filelister.go (`main`): the argument checks, the
    two exit statuses, and what is printed once the tree is built. The flags
    arrive already parsed; what `fmt.Println` writes on the error paths is
    not modelled, only the status the program exits with. */
module Cli {
  import opened Wrappers
  import opened FileSystem
  import opened Tree
  import opened Text

  /** The three values `-output` accepts. */
  datatype Format = Json | Yaml | TextFormat

  /** What the program prints on success: the text rendering of the whole
      tree, or a JSON or YAML document of the root's children (the encoders
      themselves are not modelled, only what they are given). */
  datatype Rendering =
    | TextOutput(text: string)
    | Structured(format: Format, children: seq<Node>)

  /** How one run ends: an exit status, or the rendering printed before the
      program returns normally (status 0). */
  datatype Outcome = Exit(code: int) | Done(output: Rendering)

  predicate KnownFormat(output: string) {
    output == "yaml" || output == "json" || output == "text"
  }

  /** The two checks `main` makes before touching the filesystem: an empty
      `-path` is status 1, an unknown `-output` status 2, in that order. */
  function Validate(path: string, output: string): (r: Result<Format, int>)
    ensures r == Err(1) <==> path == ""
    ensures r == Err(2) <==> path != "" && !KnownFormat(output)
    ensures r.Ok? <==> path != "" && KnownFormat(output)
    ensures r.Ok? ==> (r.value == Json <==> output == "json")
    ensures r.Ok? ==> (r.value == Yaml <==> output == "yaml")
    ensures r.Ok? ==> (r.value == TextFormat <==> output == "text")
  {
    if path == "" then Err(1)
    else if output == "json" then Ok(Json)
    else if output == "yaml" then Ok(Yaml)
    else if output == "text" then Ok(TextFormat)
    else Err(2)
  }

  /** A whole run: validate the flags, `GetTree(path)`, `GetChildren`, then
      print in the chosen format. Every failure after validation is the
      status 2 that GetTree and GetChildren exit with. */
  function Pipeline(fs: Fs, cwd: Option<string>, path: string, recursive: bool, output: string): (o: Outcome)
    requires WellFormed(fs)
    ensures o.Exit? ==> o.code == 1 || o.code == 2
    ensures o == Exit(1) <==> path == ""
    ensures path != "" && !KnownFormat(output) ==> o == Exit(2)
    ensures o.Done? <==>
      && Validate(path, output).Ok?
      && ReadNode(fs, cwd, path).Ok?
      && Expand(fs, cwd, ReadNode(fs, cwd, path).value, recursive).Ok?
    ensures o.Done? && output == "text" ==>
      && o.output.TextOutput?
      && |o.output.text| > |path|
      && o.output.text[..|path|] == path
      && o.output.text[|o.output.text| - 1] == '\n'
    ensures o.Done? && output != "text" ==>
      && o.output.Structured?
      && (o.output.format == Json <==> output == "json")
      && (fs[path].isDir && !fs[path].isLink ==> |o.output.children| == |fs[path].listing.value|)
  {
    match Validate(path, output)
    case Err(code) => Exit(code)
    case Ok(format) =>
      match ReadNode(fs, cwd, path)
      case Err(_) => Exit(2)
      case Ok(root) =>
        match Expand(fs, cwd, root, recursive)
        case Err(_) => Exit(2)
        case Ok(tree) =>
          if format == TextFormat then
            TextStartsWithPath(tree, path);
            Done(TextOutput(ToText(tree)))
          else
            ChildrenListed(fs, cwd, root, recursive);
            Done(Structured(format, tree.children))
  }

  /** The text output opens with the root's path as given and ends in a
      newline. */
  lemma TextStartsWithPath(u: Node, path: string)
    requires u.path == path
    ensures |ToText(u)| > |path|
    ensures ToText(u)[..|path|] == path
    ensures ToText(u)[|ToText(u)| - 1] == '\n'
  {
    var line, rest := Line(u, 0), RenderAll(u.children, 1);
    LineShape(u, 0);
    assert ToText(u) == line + rest;
    assert line[0..|line| - 1] == path + Suffix(u);
    assert line[..|path|] == (path + Suffix(u))[..|path|];
    assert (line + rest)[..|path|] == line[..|path|];
    RenderAllEndsInNewline(u.children, 1);
  }

  /** Every rendering of a non-empty list of subtrees ends in a newline. */
  lemma {:induction false} RenderAllEndsInNewline(cs: seq<Node>, depth: nat)
    ensures RenderAll(cs, depth) == "" || RenderAll(cs, depth)[|RenderAll(cs, depth)| - 1] == '\n'
    decreases cs
  {
    if cs != [] {
      var last := cs[|cs| - 1];
      RenderEndsInNewline(last, depth);
    }
  }

  lemma RenderEndsInNewline(n: Node, depth: nat)
    ensures |Render(n, depth)| > 0
    ensures Render(n, depth)[|Render(n, depth)| - 1] == '\n'
    decreases n
  {
    RenderAllEndsInNewline(n.children, depth + 1);
  }

  /** An expanded root that was a listable directory has at least one child
      per listed entry, so the structured formats see all of them. */
  lemma ChildrenListed(fs: Fs, cwd: Option<string>, root: Node, recursive: bool)
    requires WellFormed(fs)
    requires ReadNode(fs, cwd, root.path) == Ok(root)
    requires Expand(fs, cwd, root, recursive).Ok?
    ensures root.path in fs && (Expandable(root) ==> fs[root.path].listing.Some?)
    ensures Expandable(root) ==> |Expand(fs, cwd, root, recursive).value.children| == |fs[root.path].listing.value|
  {
    if Expandable(root) {
      var names := ReadDir(fs, root.path).value;
      var read := ReadEntries(fs, cwd, root.path, names).value;
      if recursive {
        ChildrenBelow(fs, cwd, root, names, read);
      }
    }
  }

  /** Below the root a node is shown by its entry name: the line of the i-th
      child that non-recursive GetChildren appends is that child's
      indentation, the i-th listed name, its marker and a newline. */
  lemma ListedChildLine(fs: Fs, cwd: Option<string>, t: Node, i: nat, depth: nat)
    requires WellFormed(fs) && Expandable(t)
    requires Expand(fs, cwd, t, false).Ok?
    requires i < |ReadDir(fs, t.path).value|
    ensures |Expand(fs, cwd, t, false).value.children| == |t.children| + |ReadDir(fs, t.path).value|
    ensures var c := Expand(fs, cwd, t, false).value.children[|t.children| + i];
            Line(c, depth + 1) == Indent(depth + 1) + ReadDir(fs, t.path).value[i] + Suffix(c) + "\n"
  {
    ExpandOneLevel(fs, cwd, t);
  }

  /** Bad flags are reported before the filesystem is read: the status does
      not depend on the filesystem, the working directory or `-recursive`. */
  lemma ArgumentsCheckedFirst(
    fs1: Fs, cwd1: Option<string>, recursive1: bool,
    fs2: Fs, cwd2: Option<string>, recursive2: bool,
    path: string, output: string)
    requires WellFormed(fs1) && WellFormed(fs2)
    requires Validate(path, output).Err?
    ensures Pipeline(fs1, cwd1, path, recursive1, output) == Pipeline(fs2, cwd2, path, recursive2, output)
    ensures Pipeline(fs1, cwd1, path, recursive1, output) == Exit(Validate(path, output).error)
  {
  }
}
