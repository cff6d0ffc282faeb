/** The three `path/filepath` operations the lister relies on, for Unix paths
    (separator '/'). Go's `filepath.Join` and `filepath.Dir` finish with
    `filepath.Clean`; this model does not normalise `.`, `..` or repeated
    separators, and keeps only the cases of `Clean` that decide where a
    separator goes. */
module Paths {
  import opened Wrappers

  /** `filepath.IsAbs` on Unix: the path starts at the root. */
  predicate IsAbs(p: string) {
    |p| > 0 && p[0] == '/'
  }

  /** `filepath.Join(dir, name)`: empty elements are ignored, and exactly one
      separator stands between the two parts. */
  function Join(dir: string, name: string): (r: string)
    ensures dir == "" ==> r == name
    ensures dir != "" ==> |r| >= |dir| && r[..|dir|] == dir
    ensures name != "" ==> |r| > |dir|
    ensures IsAbs(dir) ==> IsAbs(r)
  {
    if dir == "" then name
    else if name == "" then dir
    else if dir[|dir| - 1] == '/' then dir + name
    else dir + "/" + name
  }

  /** The index of the last separator in p, or -1 when there is none. */
  function LastSlash(p: string): (i: int)
    ensures -1 <= i < |p|
    ensures i >= 0 ==> p[i] == '/'
    ensures forall k :: i < k < |p| ==> p[k] != '/'
  {
    if p == [] then -1
    else if p[|p| - 1] == '/' then |p| - 1
    else LastSlash(p[..|p| - 1])
  }

  /** `filepath.Dir(p)`: everything before the last separator, "/" when that
      separator is the root, "." when there is no separator at all. */
  function Dir(p: string): (r: string)
    ensures r != ""
  {
    var i := LastSlash(p);
    if i < 0 then "."
    else if i == 0 then "/"
    else p[..i]
  }

  /** `filepath.Abs(p)` for a process whose working directory is `cwd`
      (None when `os.Getwd` fails, in which case Go returns "" and an error). */
  function Abs(cwd: Option<string>, p: string): (r: string)
    ensures IsAbs(p) ==> r == p
    ensures !IsAbs(p) && cwd.Some? && IsAbs(cwd.value) ==> IsAbs(r)
    ensures !IsAbs(p) && cwd.None? ==> r == ""
  {
    if IsAbs(p) then p
    else if cwd.None? then ""
    else Join(cwd.value, p)
  }

  /** Dir undoes Join: the directory of a joined path is the directory it was
      joined onto, whenever that directory carries no trailing separator (or is
      the root) and the name is a single non-empty path element. */
  lemma {:induction false} DirOfJoin(dir: string, name: string)
    requires dir != "" && (dir == "/" || dir[|dir| - 1] != '/')
    requires name != "" && forall k :: 0 <= k < |name| ==> name[k] != '/'
    ensures Dir(Join(dir, name)) == dir
  {
    var j := Join(dir, name);
    if dir == "/" {
      assert j == "/" + name;
      LastSlashAfter(j, 0);
    } else {
      assert j == dir + "/" + name;
      LastSlashAfter(j, |dir|);
      assert j[..|dir|] == dir;
    }
  }

  /** When p[i] is a separator and nothing after it is, LastSlash finds i. */
  lemma {:induction false} LastSlashAfter(p: string, i: nat)
    requires i < |p| && p[i] == '/'
    requires forall k :: i < k < |p| ==> p[k] != '/'
    ensures LastSlash(p) == i
    decreases |p|
  {
    if i < |p| - 1 {
      var q := p[..|p| - 1];
      assert forall k :: i < k < |q| ==> q[k] == p[k];
      LastSlashAfter(q, i);
    }
  }
}
