// One warm-up, step by step: the roots in order, the files of each root in
// walk order, every `.kumis` file compiled, written, entered in the index
// and recorded as a resource, until the roots run out or a compilation
// fails. This is the reference the warm-up method is proved against.

module Warming {
  import opened Layout

  /** What the template compiler gives back for one source file. */
  datatype Compilation = Compiled(code: string) | CompileError(message: string)

  /** Everything the warmer reads from the outside world.
      `normalize`: path normalisation of a configured root;
      `tree`: the existing directories (by normalized path), each with the
        paths of the files under it, relative to it, in walk order;
      `compile`: the compiler applied to the file at an absolute path (its
        contents, the environment's extensions and options are fixed);
      `serialize`: the JSON text of an index. */
  datatype Host = Host(
    normalize: string -> string,
    tree: map<string, seq<string>>,
    compile: string -> Compilation,
    serialize: map<string, string> -> string)

  /** What a warm-up has done so far: the directories it made, in order, the
      compiled files it wrote (by path), the index and the resources. */
  datatype Progress = Progress(dirs: seq<string>, files: map<string, string>,
                               index: map<string, string>, resources: seq<string>)

  /** A warm-up still running, or stopped by the compile error of `file`. */
  datatype Run = Running(done: Progress) | Stopped(done: Progress, file: string, message: string)

  /** Before the first root: only the templates directory exists. */
  function Initial(cacheDir: string): Progress
  {
    Progress([TemplatesDir(cacheDir)], map[], map[], [])
  }

  /** The compiled template `rel` of root `root`, numbered `i`, is written to
      its target, both its relative and its absolute path are entered in the
      index (the absolute one last), and the root is recorded. */
  function Record(p: Progress, cacheDir: string, i: nat, root: string, rel: string, code: string): Progress
  {
    var t := TargetPath(cacheDir, i, rel);
    p.(files := p.files[t := code], index := p.index[rel := t][Join(root, rel) := t],
       resources := p.resources + [root])
  }

  /** Processes the files `walk[m..]` of the existing root `root`, numbered `i`. */
  function WalkFiles(host: Host, cacheDir: string, i: nat, root: string, walk: seq<string>, m: nat,
                     p: Progress): Run
    requires m <= |walk|
    decreases |walk| - m
  {
    if m == |walk| then Running(p)
    else
      var file := Join(root, walk[m]);
      if !IsTemplate(file) then WalkFiles(host, cacheDir, i, root, walk, m + 1, p)
      else
        match host.compile(file)
        case CompileError(message) => Stopped(p, file, message)
        case Compiled(code) => WalkFiles(host, cacheDir, i, root, walk, m + 1, Record(p, cacheDir, i, root, walk[m], code))
  }

  /** Processes the roots `paths[k..]`: a root that does not exist is skipped,
      an existing one gets its numbered directory and then its files. */
  function WalkRoots(host: Host, cacheDir: string, paths: seq<string>, k: nat, p: Progress): Run
    requires k <= |paths|
    decreases |paths| - k, 1
  {
    if k == |paths| then Running(p)
    else
      var root := host.normalize(paths[k]);
      if root !in host.tree then WalkRoots(host, cacheDir, paths, k + 1, p)
      else
        Resume(host, cacheDir, paths, k,
               WalkFiles(host, cacheDir, k, root, host.tree[root], 0, p.(dirs := p.dirs + [TargetDir(cacheDir, k)])))
  }

  /** Goes on with the root after root `k`, unless the walk of root `k` stopped. */
  function Resume(host: Host, cacheDir: string, paths: seq<string>, k: nat, r: Run): Run
    requires k < |paths|
    decreases |paths| - k, 0
  {
    match r
    case Stopped(_, _, _) => r
    case Running(p) => WalkRoots(host, cacheDir, paths, k + 1, p)
  }

  /** The filesystem changes of a warm-up: directories created, in order,
      and the compiled files written. */
  datatype Effects = Effects(dirs: seq<string>, files: map<string, string>)

  datatype Outcome =
    /** The cache was fresh: nothing was compiled or written. */
    | Fresh
    /** Every template compiled; `text` was published at `artifact` with
        `resources` as the watched resources. */
    | Written(effects: Effects, index: map<string, string>, resources: seq<string>,
              artifact: string, text: string)
    /** Compiling `file` failed; the index was not published. */
    | Failed(effects: Effects, file: string, message: string)

  /** A finished run becomes the published index module, a stopped one the
      compile error with what was already on disk. */
  function Report(host: Host, cacheDir: string, r: Run): Outcome
  {
    match r
    case Running(p) =>
      Written(Effects(p.dirs, p.files), p.index, p.resources, IndexFile(cacheDir), Exports(host.serialize(p.index)))
    case Stopped(p, file, message) => Failed(Effects(p.dirs, p.files), file, message)
  }

  /** The outcome of one warm-up over the roots `paths`; `stale` is the
      cache factory's verdict on the previously published index. */
  function WarmUpResult(host: Host, paths: seq<string>, cacheDir: string, stale: bool): (out: Outcome)
    ensures out.Fresh? <==> !stale
    ensures out.Written? ==> out.artifact == IndexFile(cacheDir)
                             && ExportedBody(out.text) == Some(host.serialize(out.index))
  {
    if !stale then Fresh
    else
      var r := WalkRoots(host, cacheDir, paths, 0, Initial(cacheDir));
      ExportsRoundTrip(host.serialize(r.done.index));
      Report(host, cacheDir, r)
  }
}
