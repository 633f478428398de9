// The files a warm-up compiles, as one flat list, and what they add up to:
// the directories made, the compiled files written, the index and the
// resources. The step-by-step run of the warm-up is proved to produce
// exactly this, and the properties of the warm-up are proved about it.

module Listing {
  import opened Layout
  import opened Warming

  /** One template file: the position of its root in the root list, the
      normalized root path and its path relative to that root. */
  datatype Entry = Entry(pos: nat, root: string, rel: string)
  {
    /** The absolute path the directory walk yields for this file. */
    function File(): string
    {
      Join(root, rel)
    }

    /** The two index keys the file sets. */
    function Keys(): set<string>
    {
      {rel, File()}
    }
  }

  /** Where the compiled form of `e` is written. */
  function Target(cacheDir: string, e: Entry): string
  {
    TargetPath(cacheDir, e.pos, e.rel)
  }

  predicate Compiles(host: Host, e: Entry)
  {
    host.compile(e.File()).Compiled?
  }

  /** The template files of the root numbered `i`, in walk order. */
  function RootEntries(i: nat, root: string, rels: seq<string>): (es: seq<Entry>)
    ensures |es| <= |rels|
    ensures forall n :: 0 <= n < |es| ==> es[n].pos == i && es[n].root == root && IsTemplate(es[n].File())
  {
    if rels == [] then []
    else
      var rel := rels[|rels| - 1];
      RootEntries(i, root, rels[..|rels| - 1])
        + (if IsTemplate(Join(root, rel)) then [Entry(i, root, rel)] else [])
  }

  /** The template files of all roots: roots in order, a missing root
      contributing nothing, files in walk order within a root. */
  function Entries(host: Host, paths: seq<string>): (es: seq<Entry>)
    ensures forall n :: 0 <= n < |es| ==> es[n].pos < |paths|
  {
    if paths == [] then []
    else
      var i := |paths| - 1;
      var root := host.normalize(paths[i]);
      Entries(host, paths[..i])
        + (if root in host.tree then RootEntries(i, root, host.tree[root]) else [])
  }

  /** The directories created: the templates directory, then one per
      existing root. */
  function MadeDirs(host: Host, cacheDir: string, paths: seq<string>): seq<string>
  {
    if paths == [] then [TemplatesDir(cacheDir)]
    else
      var i := |paths| - 1;
      MadeDirs(host, cacheDir, paths[..i])
        + (if host.normalize(paths[i]) in host.tree then [TargetDir(cacheDir, i)] else [])
  }

  /** The index after the files `es` were processed in order: each sets
      its relative path and then its absolute path to its target. */
  function IndexOf(cacheDir: string, es: seq<Entry>): map<string, string>
  {
    if es == [] then map[]
    else
      var e := es[|es| - 1];
      var t := Target(cacheDir, e);
      IndexOf(cacheDir, es[..|es| - 1])[e.rel := t][e.File() := t]
  }

  /** The resources recorded: the root of every compiled file, in order. */
  function Resources(es: seq<Entry>): (r: seq<string>)
    ensures |r| == |es|
    ensures forall n :: 0 <= n < |es| ==> r[n] == es[n].root
  {
    if es == [] then [] else Resources(es[..|es| - 1]) + [es[|es| - 1].root]
  }

  /** The compiled files written, by target path. */
  function Writes(host: Host, cacheDir: string, es: seq<Entry>): map<string, string>
  {
    if es == [] then map[]
    else
      var e := es[|es| - 1];
      var prior := Writes(host, cacheDir, es[..|es| - 1]);
      match host.compile(e.File())
      case Compiled(code) => prior[Target(cacheDir, e) := code]
      case CompileError(_) => prior
  }

  /** Every file of `es` compiles. */
  predicate AllCompile(host: Host, es: seq<Entry>)
  {
    es == [] || (AllCompile(host, es[..|es| - 1]) && Compiles(host, es[|es| - 1]))
  }

  lemma {:induction false} AllCompileIff(host: Host, es: seq<Entry>)
    ensures AllCompile(host, es) <==> forall n :: 0 <= n < |es| ==> Compiles(host, es[n])
  {
    if es != [] {
      var init := es[..|es| - 1];
      AllCompileIff(host, init);
      assert forall n :: 0 <= n < |init| ==> init[n] == es[n];
    }
  }

  /** The position of the first file that does not compile, or `|es|`. */
  function FirstFailure(host: Host, es: seq<Entry>): (n: nat)
    ensures n <= |es|
    ensures n < |es| ==> !Compiles(host, es[n])
    ensures forall m :: 0 <= m < n ==> Compiles(host, es[m])
  {
    if es == [] || !Compiles(host, es[0]) then 0 else 1 + FirstFailure(host, es[1..])
  }

  /** What the files `es` add up to, with the directories `dirs`. */
  function Accumulated(host: Host, cacheDir: string, dirs: seq<string>, es: seq<Entry>): Progress
  {
    Progress(dirs, Writes(host, cacheDir, es), IndexOf(cacheDir, es), Resources(es))
  }

  /** The run over `paths`, described by its file list: finished with all
      files when all compile; otherwise stopped at the first file that does
      not, with the files before it and the directories up to its root. */
  function Described(host: Host, paths: seq<string>, cacheDir: string): Run
  {
    var es := Entries(host, paths);
    var n := FirstFailure(host, es);
    if n == |es| then Running(Accumulated(host, cacheDir, MadeDirs(host, cacheDir, paths), es))
    else
      var e := es[n];
      Stopped(Accumulated(host, cacheDir, MadeDirs(host, cacheDir, paths[..e.pos + 1]), es[..n]),
              e.File(), host.compile(e.File()).message)
  }

  // ----- the run follows the file list -----

  /** The step-by-step warm-up produces exactly the described run. */
  lemma WalkDescribed(host: Host, paths: seq<string>, cacheDir: string)
    ensures WalkRoots(host, cacheDir, paths, 0, Initial(cacheDir)) == Described(host, paths, cacheDir)
  {
    assert paths[..0] == [];
    RootsFrom(host, paths, cacheDir, 0);
  }

  /** From root `k` on, with what the earlier roots added up to, the run
      ends as described. */
  lemma {:induction false} RootsFrom(host: Host, paths: seq<string>, cacheDir: string, k: nat)
    requires k <= |paths|
    requires AllCompile(host, Entries(host, paths[..k]))
    ensures WalkRoots(host, cacheDir, paths, k,
                      Accumulated(host, cacheDir, MadeDirs(host, cacheDir, paths[..k]), Entries(host, paths[..k])))
         == Described(host, paths, cacheDir)
    decreases |paths| - k, 1
  {
    if k == |paths| {
      assert paths[..k] == paths;
      SuccessIsFinished(host, paths, cacheDir);
    } else {
      var root := host.normalize(paths[k]);
      if root in host.tree {
        RootStep(host, cacheDir, paths, k);
        var walk := host.tree[root];
        assert walk[..0] == [];
        assert Entries(host, paths[..k]) + RootEntries(k, root, walk[..0]) == Entries(host, paths[..k]);
        FilesFrom(host, paths, cacheDir, k, root, walk, 0);
      } else {
        RootMissing(host, cacheDir, paths, k);
        RootsFrom(host, paths, cacheDir, k + 1);
      }
    }
  }

  /** From the `m`-th walked file of the existing root `k` on, with what the
      files before it added up to, the run ends as described. */
  lemma {:induction false} FilesFrom(host: Host, paths: seq<string>, cacheDir: string, k: nat,
                                     root: string, walk: seq<string>, m: nat)
    requires k < |paths| && root == host.normalize(paths[k]) && root in host.tree && walk == host.tree[root]
    requires m <= |walk|
    requires AllCompile(host, Entries(host, paths[..k]) + RootEntries(k, root, walk[..m]))
    ensures Resume(host, cacheDir, paths, k,
                   WalkFiles(host, cacheDir, k, root, walk, m,
                             Accumulated(host, cacheDir, MadeDirs(host, cacheDir, paths[..k + 1]),
                                         Entries(host, paths[..k]) + RootEntries(k, root, walk[..m]))))
         == Described(host, paths, cacheDir)
    decreases |paths| - k, 0, |walk| - m
  {
    var dirs := MadeDirs(host, cacheDir, paths[..k + 1]);
    var before := Entries(host, paths[..k]);
    if m == |walk| {
      RootScanned(host, cacheDir, paths, k, m);
      RootsFrom(host, paths, cacheDir, k + 1);
    } else {
      var file := Join(root, walk[m]);
      if !IsTemplate(file) {
        SkippedStep(before, k, root, walk, m);
        FilesFrom(host, paths, cacheDir, k, root, walk, m + 1);
      } else {
        match host.compile(file)
        case CompileError(_) =>
          FailureIsFirst(host, paths, cacheDir, k, root, walk, m, before + RootEntries(k, root, walk[..m]));
        case Compiled(code) =>
          TemplateStep(host, cacheDir, dirs, before, k, root, walk, m, code);
          FilesFrom(host, paths, cacheDir, k, root, walk, m + 1);
      }
    }
  }

  /** The outcome of a stale warm-up, in terms of the files it compiles. */
  lemma WarmUpDescribed(host: Host, paths: seq<string>, cacheDir: string)
    ensures WarmUpResult(host, paths, cacheDir, true) == Report(host, cacheDir, Described(host, paths, cacheDir))
  {
    WalkDescribed(host, paths, cacheDir);
  }

  /** After an existing root is walked to the end, its template files follow
      those of the earlier roots and its directory follows theirs. */
  lemma {:induction false} RootScanned(host: Host, cacheDir: string, paths: seq<string>, i: nat, stop: nat)
    requires i < |paths| && host.normalize(paths[i]) in host.tree
    requires stop == |host.tree[host.normalize(paths[i])]|
    ensures Entries(host, paths[..i + 1]) == Entries(host, paths[..i])
              + RootEntries(i, host.normalize(paths[i]), host.tree[host.normalize(paths[i])][..stop])
    ensures MadeDirs(host, cacheDir, paths[..i + 1]) == MadeDirs(host, cacheDir, paths[..i]) + [TargetDir(cacheDir, i)]
  {
    RootStep(host, cacheDir, paths, i);
    assert host.tree[host.normalize(paths[i])][..stop] == host.tree[host.normalize(paths[i])];
  }

  /** A root that does not exist adds no file and no directory. */
  lemma {:induction false} RootMissing(host: Host, cacheDir: string, paths: seq<string>, i: nat)
    requires i < |paths| && host.normalize(paths[i]) !in host.tree
    ensures Entries(host, paths[..i + 1]) == Entries(host, paths[..i])
    ensures MadeDirs(host, cacheDir, paths[..i + 1]) == MadeDirs(host, cacheDir, paths[..i])
  {
    RootStep(host, cacheDir, paths, i);
  }

  /** A walked file that is not a template changes nothing. */
  lemma {:induction false} SkippedStep(before: seq<Entry>, i: nat, root: string, walk: seq<string>, m: nat)
    requires m < |walk| && !IsTemplate(Join(root, walk[m]))
    ensures before + RootEntries(i, root, walk[..m + 1]) == before + RootEntries(i, root, walk[..m])
  {
    WalkExtend(before, i, root, walk, m);
  }

  /** Compiling the `m`-th walked file, a template, records it on top of
      what the files before it added up to. */
  lemma {:induction false} TemplateStep(host: Host, cacheDir: string, dirs: seq<string>, before: seq<Entry>,
                                        i: nat, root: string, walk: seq<string>, m: nat, code: string)
    requires m < |walk| && IsTemplate(Join(root, walk[m]))
    requires host.compile(Join(root, walk[m])) == Compiled(code)
    ensures AllCompile(host, before + RootEntries(i, root, walk[..m + 1]))
         == AllCompile(host, before + RootEntries(i, root, walk[..m]))
    ensures Accumulated(host, cacheDir, dirs, before + RootEntries(i, root, walk[..m + 1]))
         == Record(Accumulated(host, cacheDir, dirs, before + RootEntries(i, root, walk[..m])),
                   cacheDir, i, root, walk[m], code)
  {
    WalkExtend(before, i, root, walk, m);
    FileStep(host, cacheDir, before + RootEntries(i, root, walk[..m]), Entry(i, root, walk[m]), code);
  }

  lemma {:induction false} RootStep(host: Host, cacheDir: string, paths: seq<string>, i: nat)
    requires i < |paths|
    ensures Entries(host, paths[..i + 1]) == Entries(host, paths[..i])
              + (if host.normalize(paths[i]) in host.tree
                 then RootEntries(i, host.normalize(paths[i]), host.tree[host.normalize(paths[i])]) else [])
    ensures MadeDirs(host, cacheDir, paths[..i + 1]) == MadeDirs(host, cacheDir, paths[..i])
              + (if host.normalize(paths[i]) in host.tree then [TargetDir(cacheDir, i)] else [])
  {
    assert paths[..i + 1][..i] == paths[..i];
  }

  lemma {:induction false} WalkStep(i: nat, root: string, walk: seq<string>, m: nat)
    requires m < |walk|
    ensures RootEntries(i, root, walk[..m + 1]) == RootEntries(i, root, walk[..m])
              + (if IsTemplate(Join(root, walk[m])) then [Entry(i, root, walk[m])] else [])
  {
    assert walk[..m + 1][..m] == walk[..m];
  }

  lemma {:induction false} WalkExtend(before: seq<Entry>, i: nat, root: string, walk: seq<string>, m: nat)
    requires m < |walk|
    ensures before + RootEntries(i, root, walk[..m + 1]) == before + RootEntries(i, root, walk[..m])
              + (if IsTemplate(Join(root, walk[m])) then [Entry(i, root, walk[m])] else [])
  {
    WalkStep(i, root, walk, m);
  }

  lemma {:induction false} FileStep(host: Host, cacheDir: string, done: seq<Entry>, e: Entry, code: string)
    requires host.compile(e.File()) == Compiled(code)
    ensures Writes(host, cacheDir, done + [e]) == Writes(host, cacheDir, done)[Target(cacheDir, e) := code]
    ensures IndexOf(cacheDir, done + [e])
         == IndexOf(cacheDir, done)[e.rel := Target(cacheDir, e)][e.File() := Target(cacheDir, e)]
    ensures Resources(done + [e]) == Resources(done) + [e.root]
    ensures AllCompile(host, done + [e]) == AllCompile(host, done)
  {
  }

  /** The prefix of `Entries(host, paths[..k])` is a prefix of all entries. */
  lemma {:induction false} EntriesPrefix(host: Host, paths: seq<string>, k: nat)
    requires k <= |paths|
    ensures Entries(host, paths[..k]) <= Entries(host, paths)
  {
    if k < |paths| {
      var init := paths[..|paths| - 1];
      assert init[..k] == paths[..k];
      EntriesPrefix(host, init, k);
    } else {
      assert paths[..k] == paths;
    }
  }

  lemma {:induction false} RootEntriesPrefix(i: nat, root: string, rels: seq<string>, m: nat)
    requires m <= |rels|
    ensures RootEntries(i, root, rels[..m]) <= RootEntries(i, root, rels)
  {
    if m < |rels| {
      var init := rels[..|rels| - 1];
      assert init[..m] == rels[..m];
      RootEntriesPrefix(i, root, init, m);
    } else {
      assert rels[..m] == rels;
    }
  }

  /** When every file compiles, the described run finishes with all of them. */
  lemma {:induction false} SuccessIsFinished(host: Host, paths: seq<string>, cacheDir: string)
    requires AllCompile(host, Entries(host, paths))
    ensures Described(host, paths, cacheDir)
         == Running(Accumulated(host, cacheDir, MadeDirs(host, cacheDir, paths), Entries(host, paths)))
  {
    AllCompileIff(host, Entries(host, paths));
  }

  /** The files processed before a template of root `i`, followed by that
      template, form a prefix of all the files of the warm-up. */
  lemma {:induction false} ProcessedPrefix(host: Host, paths: seq<string>, i: nat, root: string, walk: seq<string>, m: nat)
    requires i < |paths| && root == host.normalize(paths[i]) && root in host.tree
    requires walk == host.tree[root] && m < |walk| && IsTemplate(Join(root, walk[m]))
    ensures Entries(host, paths[..i]) + RootEntries(i, root, walk[..m]) + [Entry(i, root, walk[m])]
            <= Entries(host, paths)
  {
    var e := Entry(i, root, walk[m]);
    var before, inRoot, rootPart := Entries(host, paths[..i]), RootEntries(i, root, walk[..m]), RootEntries(i, root, walk);
    WalkStep(i, root, walk, m);
    RootEntriesPrefix(i, root, walk, m + 1);
    RootStep(host, "", paths, i);
    EntriesPrefix(host, paths, i + 1);
    PrefixOfConcat(before, inRoot + [e], rootPart);
    assert before + inRoot + [e] == before + (inRoot + [e]);
    PrefixTransitive(before + (inRoot + [e]), before + rootPart, Entries(host, paths));
  }

  lemma {:induction false} PrefixOfConcat<T>(a: seq<T>, b: seq<T>, c: seq<T>)
    requires b <= c
    ensures a + b <= a + c
  {
  }

  lemma {:induction false} PrefixTransitive<T>(a: seq<T>, b: seq<T>, c: seq<T>)
    requires a <= b && b <= c
    ensures a <= c
  {
  }

  /** When the `m`-th walked file of existing root `i` is a template that does
      not compile and everything before it compiled, the described run stops
      at that file, with the effects made so far. */
  lemma {:induction false} FailureIsFirst(host: Host, paths: seq<string>, cacheDir: string, i: nat, root: string, walk: seq<string>,
                       m: nat, done: seq<Entry>)
    requires i < |paths| && root == host.normalize(paths[i]) && root in host.tree
    requires walk == host.tree[root] && m < |walk| && IsTemplate(Join(root, walk[m]))
    requires done == Entries(host, paths[..i]) + RootEntries(i, root, walk[..m])
    requires AllCompile(host, done)
    requires host.compile(Join(root, walk[m])).CompileError?
    ensures Described(host, paths, cacheDir)
         == Stopped(Accumulated(host, cacheDir, MadeDirs(host, cacheDir, paths[..i + 1]), done),
                    Join(root, walk[m]), host.compile(Join(root, walk[m])).message)
  {
    var e := Entry(i, root, walk[m]);
    ProcessedPrefix(host, paths, i, root, walk, m);
    var es := Entries(host, paths);
    FailureAt(host, es, done, e);
  }

  /** The first file that does not compile is the one just after the
      compiled prefix `done`. */
  lemma {:induction false} FailureAt(host: Host, es: seq<Entry>, done: seq<Entry>, e: Entry)
    requires done + [e] <= es
    requires AllCompile(host, done)
    requires !Compiles(host, e)
    ensures FirstFailure(host, es) == |done| && es[|done|] == e && es[..|done|] == done
  {
    AllCompileIff(host, done);
    assert es[|done|] == (done + [e])[|done|];
    assert es[..|done|] == done;
  }

  // ----- which files are compiled -----

  lemma {:induction false} RootEntriesMembership(i: nat, root: string, rels: seq<string>, e: Entry)
    ensures e in RootEntries(i, root, rels)
        <==> e.pos == i && e.root == root && e.rel in rels && IsTemplate(e.File())
  {
    if rels != [] {
      var init := rels[..|rels| - 1];
      RootEntriesMembership(i, root, init, e);
      assert rels == init + [rels[|rels| - 1]];
    }
  }

  /** A file is compiled exactly when it is a `.kumis` file under an
      existing root, and it carries that root's position in the root list
      (so a missing root uses up its position). */
  lemma {:induction false} EntriesMembership(host: Host, paths: seq<string>, e: Entry)
    ensures e in Entries(host, paths)
        <==> e.pos < |paths| && e.root == host.normalize(paths[e.pos]) && e.root in host.tree
             && e.rel in host.tree[e.root] && IsTemplate(e.File())
  {
    if paths != [] {
      var i := |paths| - 1;
      var init := paths[..i];
      EntriesMembership(host, init, e);
      var root := host.normalize(paths[i]);
      if root in host.tree {
        RootEntriesMembership(i, root, host.tree[root], e);
      }
      if e.pos < i {
        assert init[e.pos] == paths[e.pos];
      }
    }
  }

  /** A root that does not exist contributes no file and no directory. */
  lemma MissingRootSkipped(host: Host, paths: seq<string>, cacheDir: string, i: nat)
    requires i < |paths| && host.normalize(paths[i]) !in host.tree
    ensures forall n :: 0 <= n < |Entries(host, paths)| ==> Entries(host, paths)[n].pos != i
    ensures TargetDir(cacheDir, i) !in MadeDirs(host, cacheDir, paths)
  {
    var es := Entries(host, paths);
    forall n | 0 <= n < |es|
      ensures es[n].pos != i
    {
      EntriesMembership(host, paths, es[n]);
    }
    MadeDirsMembership(host, cacheDir, paths, i);
  }

  lemma {:induction false} MadeDirsMembership(host: Host, cacheDir: string, paths: seq<string>, i: nat)
    requires i < |paths|
    ensures TargetDir(cacheDir, i) in MadeDirs(host, cacheDir, paths)
        <==> host.normalize(paths[i]) in host.tree
  {
    var k := |paths| - 1;
    var init := paths[..k];
    if i < k {
      assert init[i] == paths[i];
      MadeDirsMembership(host, cacheDir, init, i);
      if TargetDir(cacheDir, i) == TargetDir(cacheDir, k) {
        TargetDirInjective(cacheDir, i, k);
      }
    } else {
      MadeDirsBefore(host, cacheDir, init, i);
    }
  }

  /** The directories made for the first roots never include that of a
      later root. */
  lemma {:induction false} MadeDirsBefore(host: Host, cacheDir: string, paths: seq<string>, i: nat)
    requires |paths| <= i
    ensures TargetDir(cacheDir, i) !in MadeDirs(host, cacheDir, paths)
  {
    if paths != [] {
      var k := |paths| - 1;
      MadeDirsBefore(host, cacheDir, paths[..k], i);
      if TargetDir(cacheDir, i) == TargetDir(cacheDir, k) {
        TargetDirInjective(cacheDir, i, k);
      }
    } else {
      assert TemplatesDir(cacheDir) != TargetDir(cacheDir, i) by {
        assert |TemplatesDir(cacheDir)| < |TargetDir(cacheDir, i)|;
      }
    }
  }

  /** Roots are processed in the order of the root list. */
  lemma {:induction false} EntriesOrdered(host: Host, paths: seq<string>)
    ensures forall m, n :: 0 <= m < n < |Entries(host, paths)|
              ==> Entries(host, paths)[m].pos <= Entries(host, paths)[n].pos
  {
    if paths != [] {
      var i := |paths| - 1;
      EntriesOrdered(host, paths[..i]);
    }
  }

  // ----- the index -----

  /** The index holds exactly the two keys of every compiled file. */
  lemma {:induction false} IndexKeys(cacheDir: string, es: seq<Entry>, k: string)
    ensures k in IndexOf(cacheDir, es) <==> exists n :: 0 <= n < |es| && k in es[n].Keys()
  {
    if k in IndexOf(cacheDir, es) {
      IndexKeySet(cacheDir, es, k);
    }
    if exists n :: 0 <= n < |es| && k in es[n].Keys() {
      var n :| 0 <= n < |es| && k in es[n].Keys();
      IndexKeySetBy(cacheDir, es, n, k);
    }
  }

  lemma {:induction false} IndexKeySet(cacheDir: string, es: seq<Entry>, k: string)
    requires k in IndexOf(cacheDir, es)
    ensures exists n :: 0 <= n < |es| && k in es[n].Keys()
  {
    var last := |es| - 1;
    if k !in es[last].Keys() {
      var init := es[..last];
      IndexKeySet(cacheDir, init, k);
      var n :| 0 <= n < |init| && k in init[n].Keys();
      assert es[n] == init[n];
    }
  }

  lemma {:induction false} IndexKeySetBy(cacheDir: string, es: seq<Entry>, n: nat, k: string)
    requires n < |es| && k in es[n].Keys()
    ensures k in IndexOf(cacheDir, es)
  {
    var last := |es| - 1;
    if n < last {
      var init := es[..last];
      assert init[n] == es[n];
      IndexKeySetBy(cacheDir, init, n, k);
    }
  }

  /** Last write wins: a key maps to the target of the last compiled file
      that sets it. */
  lemma {:induction false} IndexLastWriteWins(cacheDir: string, es: seq<Entry>, n: nat, k: string)
    requires n < |es| && k in es[n].Keys()
    requires forall m :: n < m < |es| ==> k !in es[m].Keys()
    ensures k in IndexOf(cacheDir, es) && IndexOf(cacheDir, es)[k] == Target(cacheDir, es[n])
  {
    var last := |es| - 1;
    var init := es[..last];
    assert es == init + [es[last]];
    IndexStep(cacheDir, init, es[last]);
    if n < last {
      assert k !in es[last].Keys();
      assert init[n] == es[n];
      assert forall m :: n < m < |init| ==> init[m] == es[m];
      IndexLastWriteWins(cacheDir, init, n, k);
    }
  }

  /** Processing one more file sets both its keys to its target and leaves
      every other key as it was. */
  lemma IndexStep(cacheDir: string, es: seq<Entry>, e: Entry)
    ensures IndexOf(cacheDir, es + [e])[e.rel] == Target(cacheDir, e)
    ensures IndexOf(cacheDir, es + [e])[e.File()] == Target(cacheDir, e)
    ensures forall k :: k !in e.Keys() ==>
              (k in IndexOf(cacheDir, es + [e]) <==> k in IndexOf(cacheDir, es))
              && (k in IndexOf(cacheDir, es) ==> IndexOf(cacheDir, es + [e])[k] == IndexOf(cacheDir, es)[k])
  {
  }

  // ----- the compiled files -----

  /** Entries of the same root position come from the same root. */
  predicate Coherent(es: seq<Entry>)
  {
    forall m, n :: 0 <= m < |es| && 0 <= n < |es| && es[m].pos == es[n].pos ==> es[m].root == es[n].root
  }

  lemma {:induction false} WritesHoldOwnCode(host: Host, cacheDir: string, es: seq<Entry>, e: Entry)
    requires Coherent(es) && e in es
    requires forall m :: 0 <= m < |es| ==> Compiles(host, es[m])
    ensures Target(cacheDir, e) in Writes(host, cacheDir, es)
    ensures host.compile(e.File()) == Compiled(Writes(host, cacheDir, es)[Target(cacheDir, e)])
  {
    var last := |es| - 1;
    var x := es[last];
    var init := es[..last];
    assert es == init + [x];
    if Target(cacheDir, x) == Target(cacheDir, e) {
      TargetPathInjective(cacheDir, x.pos, x.rel, e.pos, e.rel);
      var j :| 0 <= j < |es| && es[j] == e;
      assert x.root == e.root;
    } else {
      assert e in init;
      assert forall m :: 0 <= m < |init| ==> init[m] == es[m];
      WritesHoldOwnCode(host, cacheDir, init, e);
    }
  }

  /** Every compiled file is written at its own target path with its own
      code: distinct files never overwrite each other. */
  lemma CompiledFilesWritten(host: Host, paths: seq<string>, cacheDir: string, e: Entry)
    requires e in Entries(host, paths)
    requires forall m :: 0 <= m < |Entries(host, paths)| ==> Compiles(host, Entries(host, paths)[m])
    ensures Target(cacheDir, e) in Writes(host, cacheDir, Entries(host, paths))
    ensures host.compile(e.File()) == Compiled(Writes(host, cacheDir, Entries(host, paths))[Target(cacheDir, e)])
  {
    var es := Entries(host, paths);
    forall m, n | 0 <= m < |es| && 0 <= n < |es| && es[m].pos == es[n].pos
      ensures es[m].root == es[n].root
    {
      EntriesMembership(host, paths, es[m]);
      EntriesMembership(host, paths, es[n]);
    }
    WritesHoldOwnCode(host, cacheDir, es, e);
  }


  /** Exactly the targets of the files that compile are written. */
  lemma {:induction false} WritesKeys(host: Host, cacheDir: string, es: seq<Entry>, t: string)
    ensures t in Writes(host, cacheDir, es)
        <==> exists e :: e in es && Compiles(host, e) && t == Target(cacheDir, e)
  {
    if es != [] {
      var init := es[..|es| - 1];
      WritesKeys(host, cacheDir, init, t);
      assert es == init + [es[|es| - 1]];
    }
  }

  /** Only `.kumis` files are indexed: every key of the index, relative or
      absolute, names a template. */
  lemma IndexedOnlyTemplates(host: Host, paths: seq<string>, cacheDir: string, k: string)
    requires k in IndexOf(cacheDir, Entries(host, paths))
    ensures IsTemplate(k)
  {
    var es := Entries(host, paths);
    IndexKeys(cacheDir, es, k);
    var n :| 0 <= n < |es| && k in es[n].Keys();
    EntriesMembership(host, paths, es[n]);
    TemplateByRelativeName(es[n].root, es[n].rel);
  }

  // ----- the outcome -----

  /** The described run finishes exactly when every template compiles. */
  lemma DescribedFinishes(host: Host, paths: seq<string>, cacheDir: string)
    ensures Described(host, paths, cacheDir).Running?
        <==> forall n :: 0 <= n < |Entries(host, paths)| ==> Compiles(host, Entries(host, paths)[n])
  {
    var es := Entries(host, paths);
    var n := FirstFailure(host, es);
    if n < |es| {
      assert !Compiles(host, es[n]);
      assert Described(host, paths, cacheDir).Stopped?;
    }
  }

  /** The index is published exactly when the cache is stale and every
      template compiles; a stale warm-up otherwise fails. The published text
      gives back the serialized index. */
  lemma PublishedUnlessCompileError(host: Host, paths: seq<string>, cacheDir: string, stale: bool)
    ensures WarmUpResult(host, paths, cacheDir, stale).Written?
        <==> stale && forall n :: 0 <= n < |Entries(host, paths)| ==> Compiles(host, Entries(host, paths)[n])
    ensures WarmUpResult(host, paths, cacheDir, stale).Failed?
        <==> stale && exists n :: 0 <= n < |Entries(host, paths)| && !Compiles(host, Entries(host, paths)[n])
    ensures WarmUpResult(host, paths, cacheDir, stale).Written? ==>
              ExportedBody(WarmUpResult(host, paths, cacheDir, stale).text)
                == Some(host.serialize(WarmUpResult(host, paths, cacheDir, stale).index))
  {
    if stale {
      WarmUpDescribed(host, paths, cacheDir);
      DescribedFinishes(host, paths, cacheDir);
      var out := WarmUpResult(host, paths, cacheDir, stale);
      if out.Written? {
        ExportsRoundTrip(host.serialize(out.index));
      }
    }
  }

  /** What a published warm-up leaves behind: one directory per existing
      root after the templates directory, the index module at its path, the
      index of all compiled templates (exactly their two keys each), writes
      at exactly their targets, each holding that template's own code, and
      one resource per template, naming its root. */
  lemma PublishedContents(host: Host, paths: seq<string>, cacheDir: string, stale: bool)
    requires WarmUpResult(host, paths, cacheDir, stale).Written?
    ensures WarmUpResult(host, paths, cacheDir, stale).effects.dirs == MadeDirs(host, cacheDir, paths)
    ensures WarmUpResult(host, paths, cacheDir, stale).artifact == IndexFile(cacheDir)
    ensures WarmUpResult(host, paths, cacheDir, stale).index == IndexOf(cacheDir, Entries(host, paths))
    ensures WarmUpResult(host, paths, cacheDir, stale).effects.files == Writes(host, cacheDir, Entries(host, paths))
    ensures forall t :: t in WarmUpResult(host, paths, cacheDir, stale).effects.files
              <==> exists e :: e in Entries(host, paths) && t == Target(cacheDir, e)
    ensures forall k :: k in WarmUpResult(host, paths, cacheDir, stale).index
              <==> exists n :: 0 <= n < |Entries(host, paths)| && k in Entries(host, paths)[n].Keys()
    ensures forall e :: e in Entries(host, paths) ==>
              Target(cacheDir, e) in WarmUpResult(host, paths, cacheDir, stale).effects.files
              && host.compile(e.File())
                 == Compiled(WarmUpResult(host, paths, cacheDir, stale).effects.files[Target(cacheDir, e)])
    ensures |WarmUpResult(host, paths, cacheDir, stale).resources| == |Entries(host, paths)|
    ensures forall n :: 0 <= n < |Entries(host, paths)| ==>
              WarmUpResult(host, paths, cacheDir, stale).resources[n] == Entries(host, paths)[n].root
  {
    PublishedUnlessCompileError(host, paths, cacheDir, stale);
    WarmUpDescribed(host, paths, cacheDir);
    var es := Entries(host, paths);
    forall k
      ensures k in IndexOf(cacheDir, es) <==> exists n :: 0 <= n < |es| && k in es[n].Keys()
    {
      IndexKeys(cacheDir, es, k);
    }
    forall e | e in es
      ensures Target(cacheDir, e) in Writes(host, cacheDir, es)
              && host.compile(e.File()) == Compiled(Writes(host, cacheDir, es)[Target(cacheDir, e)])
    {
      CompiledFilesWritten(host, paths, cacheDir, e);
    }
    forall t
      ensures t in Writes(host, cacheDir, es) <==> exists e :: e in es && t == Target(cacheDir, e)
    {
      WritesKeys(host, cacheDir, es, t);
    }
  }

  /** A failed warm-up stopped at the first template, in processing order,
      that does not compile, reports that compiler's message, and had
      written exactly the templates before it. */
  lemma FailedAtFirstError(host: Host, paths: seq<string>, cacheDir: string, stale: bool)
    requires WarmUpResult(host, paths, cacheDir, stale).Failed?
    ensures exists n :: 0 <= n < |Entries(host, paths)|
              && WarmUpResult(host, paths, cacheDir, stale).file == Entries(host, paths)[n].File()
              && host.compile(WarmUpResult(host, paths, cacheDir, stale).file)
                 == CompileError(WarmUpResult(host, paths, cacheDir, stale).message)
              && (forall m :: 0 <= m < n ==> Compiles(host, Entries(host, paths)[m]))
              && WarmUpResult(host, paths, cacheDir, stale).effects.files
                 == Writes(host, cacheDir, Entries(host, paths)[..n])
              && WarmUpResult(host, paths, cacheDir, stale).effects.dirs
                 == MadeDirs(host, cacheDir, paths[..Entries(host, paths)[n].pos + 1])
  {
    WarmUpDescribed(host, paths, cacheDir);
    var es := Entries(host, paths);
    var n := FirstFailure(host, es);
    assert n < |es|;
  }
}
