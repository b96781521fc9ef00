/**
  An abstract working directory: which directories exist, what each file
  holds, and which operations the environment makes fail. The operations
  mirror the `std::fs` calls the program makes; a failed call changes nothing.
*/
module FileSystem {
  import opened Wrappers
  import Paths
  import Config

  /** The one distinction the program draws among I/O errors is permission versus the rest. */
  datatype ErrorKind = PermissionDenied | NotFound | Other

  /** A document that deserializes from a file's text. */
  datatype Doc = EulaDoc(eula: bool) | ConfigDoc(config: Config.MslConfig)

  /**
    A file's content: `Text` is text that deserializes as neither document,
    `Json` is text together with the document it deserializes to.
  */
  datatype Content = Text(text: string) | Json(doc: Doc, text: string)

  /**
    `faults` names the paths where creating, writing, reading or renaming
    onto fails, and with which kind; `undeletable` names the files that cannot be removed.
  */
  datatype FsState = FsState(
    dirs: set<string>,
    files: map<string, Content>,
    faults: map<string, ErrorKind>,
    undeletable: set<string>)

  /** The outcome of one `std::fs` call. */
  datatype Io<T> = Done(value: T) | Fail(kind: ErrorKind)

  /** `Path::exists`: a file or a directory is there. */
  predicate Exists(fs: FsState, p: string)
  {
    p in fs.dirs || p in fs.files
  }

  /** File `p` is absent from both states or present with the same content. */
  predicate FileUnchanged(fs: FsState, fs': FsState, p: string)
  {
    (p in fs.files <==> p in fs'.files) && (p in fs.files ==> fs'.files[p] == fs.files[p])
  }

  /** Nothing but the directory set differs between the two states. */
  predicate OnlyDirsChanged(fs: FsState, fs': FsState)
  {
    fs'.files == fs.files && fs'.faults == fs.faults && fs'.undeletable == fs.undeletable
  }

  /** What `read_to_string` yields for a content. */
  function TextOf(c: Content): string
  {
    match c
    case Text(t) => t
    case Json(_, t) => t
  }

  /** Creating directory `q` cannot succeed: a file is there, or it is missing and faulty. */
  predicate Blocked(fs: FsState, q: string)
  {
    q in fs.files || (q !in fs.dirs && q in fs.faults)
  }

  /** The error a blocked directory gives: its fault, or `Other` for a file in the way. */
  function BlockKind(fs: FsState, q: string): ErrorKind
    requires Blocked(fs, q)
  {
    if q in fs.files then Other else fs.faults[q]
  }

  /**
    The error of the first blocked member of `p`'s chain, from the root
    down, among the prefixes `p[..j]` with `j >= i`.
  */
  function FirstBlocked(fs: FsState, p: string, i: nat): (r: Option<ErrorKind>)
    requires i <= |p| + 1
    ensures r.Some? <==> exists j :: i <= j <= |p| && Paths.ComponentEnd(p, j) && Blocked(fs, p[..j])
    ensures r.Some? ==>
      exists j :: i <= j <= |p| && Paths.ComponentEnd(p, j) && Blocked(fs, p[..j]) && r.value == BlockKind(fs, p[..j])
    decreases |p| + 1 - i
  {
    if i > |p| then None
    else if Paths.ComponentEnd(p, i) && Blocked(fs, p[..i]) then Some(BlockKind(fs, p[..i]))
    else FirstBlocked(fs, p, i + 1)
  }

  /**
    `fs::create_dir_all`: creates `p` and its missing parents, from the root
    down; it fails at the first member of the chain that is a file, or is
    missing and cannot be created.
  */
  function CreateDirAll(fs: FsState, p: string): (r: Io<FsState>)
    ensures r.Done? ==> r.value == fs.(dirs := fs.dirs + Paths.DirChain(p))
    ensures r.Fail? <==> exists q :: q in Paths.DirChain(p) && Blocked(fs, q)
    ensures r.Fail? ==> exists q :: q in Paths.DirChain(p) && Blocked(fs, q) && r.kind == BlockKind(fs, q)
  {
    forall q ensures q in Paths.DirChain(p) <==>
      exists i :: 0 <= i <= |p| && Paths.ComponentEnd(p, i) && q == p[..i]
    {
      Paths.DirChainMembers(p, q);
    }
    match FirstBlocked(fs, p, 0)
    case Some(k) => Fail(k)
    case None => Done(fs.(dirs := fs.dirs + Paths.DirChain(p)))
  }

  /** A missing parent that cannot be created makes the whole call fail, with its error. */
  lemma CreateDirAllFaultyParent()
    ensures CreateDirAll(FsState({}, map[], map["a" := PermissionDenied], {}), "a/b") == Fail(PermissionDenied)
  {
    var fs := FsState({}, map[], map["a" := PermissionDenied], {});
    assert Paths.ComponentEnd("a/b", 1) && "a/b"[..1] == "a";
    assert !Blocked(fs, "a/b"[..0]);
    assert FirstBlocked(fs, "a/b", 0) == FirstBlocked(fs, "a/b", 1) == Some(PermissionDenied);
  }

  /** `fs::write`: creates or truncates a file; its parent directories must exist. */
  function Write(fs: FsState, p: string, c: Content): (r: Io<FsState>)
    ensures r.Done? ==> r.value == fs.(files := fs.files[p := c])
    ensures r.Fail? <==> p in fs.faults || p in fs.dirs || !(Paths.Ancestors(p) <= fs.dirs)
  {
    if p in fs.faults then Fail(fs.faults[p])
    else if p in fs.dirs then Fail(Other)
    else if !(Paths.Ancestors(p) <= fs.dirs) then Fail(NotFound)
    else Done(fs.(files := fs.files[p := c]))
  }

  /**
    `fs::read_to_string`: reading a faulty path fails too (no read
    permission, or contents that are not UTF-8 text, which is `Other`).
  */
  function Read(fs: FsState, p: string): (r: Io<Content>)
    ensures r.Done? <==> p in fs.files && p !in fs.faults
    ensures r.Done? ==> r.value == fs.files[p]
    ensures p in fs.faults ==> r == Fail(fs.faults[p])
  {
    if p in fs.faults then Fail(fs.faults[p])
    else if p in fs.files then Done(fs.files[p])
    else if p in fs.dirs then Fail(Other)
    else Fail(NotFound)
  }

  /** `fs::remove_file`. */
  function RemoveFile(fs: FsState, p: string): (r: Io<FsState>)
    ensures r.Done? <==> p in fs.files && p !in fs.undeletable
    ensures r.Done? ==> r.value == fs.(files := fs.files - {p})
  {
    if p !in fs.files then (if p in fs.dirs then Fail(Other) else Fail(NotFound))
    else if p in fs.undeletable then Fail(PermissionDenied)
    else Done(fs.(files := fs.files - {p}))
  }

  /** `fs::rename` of a file onto a file path, replacing what was there. */
  function Rename(fs: FsState, from: string, to: string): (r: Io<FsState>)
    ensures r.Done? <==> from in fs.files && to !in fs.faults && to !in fs.dirs
    ensures r.Done? ==> r.value == fs.(files := (fs.files - {from})[to := fs.files[from]])
  {
    if from !in fs.files then Fail(NotFound)
    else if to in fs.faults then Fail(fs.faults[to])
    else if to in fs.dirs then Fail(Other)
    else Done(fs.(files := (fs.files - {from})[to := fs.files[from]]))
  }
}
