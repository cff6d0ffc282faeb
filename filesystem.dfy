/** The filesystem the lister reads, as a finite map from path to what the
    three system calls it makes would report for that path. A path that is
    not a key is one `os.Lstat` cannot stat. */
module FileSystem {
  import opened Wrappers
  import opened Paths

  /** What `os.Lstat`, `os.Readlink` and `ioutil.ReadDir` report for one path.
      `modTime` and `size` are opaque metadata the lister only copies;
      `link` is the raw link text (None when `Readlink` fails), `listing` the
      entry names `ReadDir` returns, in its order (None when it fails). */
  datatype Entry = Entry(
    name: string,
    modTime: int,
    size: int,
    isDir: bool,
    isLink: bool,
    link: Option<string>,
    listing: Option<seq<string>>)

  type Fs = map<string, Entry>

  /** The three fatal failures of the lister; each makes it exit with status 2. */
  datatype Error =
    | PathUnreadable(path: string)
    | LinkUnreadable(name: string)
    | DirectoryUnreadable(path: string)

  /** `os.Lstat(p)`: the entry itself, never the target of a link. */
  function Lstat(fs: Fs, p: string): (r: Result<Entry, Error>)
    ensures r.Ok? <==> p in fs
    ensures r.Ok? ==> r.value == fs[p]
    ensures r.Err? ==> r.error == PathUnreadable(p)
  {
    if p in fs then Ok(fs[p]) else Err(PathUnreadable(p))
  }

  /** `os.Readlink(p)`: the link text, None when it cannot be read. */
  function Readlink(fs: Fs, p: string): (r: Option<string>)
    ensures r.Some? <==> p in fs && fs[p].link.Some?
    ensures r.Some? ==> r.value == fs[p].link.value
  {
    if p in fs then fs[p].link else None
  }

  /** `ioutil.ReadDir(p)`: the names of the directory's entries. */
  function ReadDir(fs: Fs, p: string): (r: Result<seq<string>, Error>)
    ensures r.Ok? <==> p in fs && fs[p].listing.Some?
    ensures r.Ok? ==> r.value == fs[p].listing.value
    ensures r.Err? ==> r.error == DirectoryUnreadable(p)
  {
    if p in fs && fs[p].listing.Some? then Ok(fs[p].listing.value)
    else Err(DirectoryUnreadable(p))
  }

  /** A real directory listing never holds an empty name, and `os.Lstat`
      reports the base name of what it stats, so an entry listed as n is
      named n. */
  ghost predicate WellFormed(fs: Fs) {
    forall p, k :: p in fs && fs[p].listing.Some? && 0 <= k < |fs[p].listing.value| ==>
      && fs[p].listing.value[k] != ""
      && (Join(p, fs[p].listing.value[k]) in fs ==> fs[Join(p, fs[p].listing.value[k])].name == fs[p].listing.value[k])
  }
}
