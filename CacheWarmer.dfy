// The template cache warmer: the root list built at construction, and the
// warm-up that walks every root, compiles its `.kumis` files, writes them
// under the cache directory and accumulates the lookup index and the
// watched resources before publishing the index module.

module CacheWarmer {
  import opened Layout
  import opened Warming

  /** A kernel bundle, known by its base path. */
  datatype Bundle = Bundle(path: string)

  /** `<bundle.path>/Resources/templates` for every bundle, in kernel order. */
  function BundleTemplateDirs(bundles: seq<Bundle>): (r: seq<string>)
    ensures |r| == |bundles|
    ensures forall j :: 0 <= j < |bundles| ==> r[j] == bundles[j].path + "/Resources/templates"
  {
    if bundles == [] then []
    else [bundles[0].path + "/Resources/templates"] + BundleTemplateDirs(bundles[1..])
  }

  /** The roots to scan: the explicit template paths, then one directory per
      bundle, order kept and nothing removed. */
  function ResolvePaths(templatePaths: seq<string>, bundles: seq<Bundle>): (r: seq<string>)
    ensures |r| == |templatePaths| + |bundles|
    ensures r[..|templatePaths|] == templatePaths
    ensures forall j :: 0 <= j < |bundles| ==> r[|templatePaths| + j] == bundles[j].path + "/Resources/templates"
  {
    templatePaths + BundleTemplateDirs(bundles)
  }

  class TemplatesCacheWarmer {
    /** The ordered template roots. */
    const paths: seq<string>

    constructor (bundles: seq<Bundle>, templatePaths: seq<string>)
      ensures paths == ResolvePaths(templatePaths, bundles)
    {
      paths := ResolvePaths(templatePaths, bundles);
    }

    /** The warmer may be skipped by the warm-up driver. */
    function Optional(): (r: bool)
      ensures r
    {
      true
    }

    /** Warms the cache under `cacheDir`; `stale` is the cache factory's
        verdict on the previously published index. */
    method WarmUp(host: Host, cacheDir: string, stale: bool) returns (out: Outcome)
      ensures out == WarmUpResult(host, paths, cacheDir, stale)
    {
      if !stale {
        return Fresh;
      }
      var dirs := [TemplatesDir(cacheDir)];
      var files: map<string, string> := map[];
      var index: map<string, string> := map[];
      var resources: seq<string> := [];

      var i := 0;
      while i < |paths|
        invariant i <= |paths|
        invariant WalkRoots(host, cacheDir, paths, i, Progress(dirs, files, index, resources))
               == WalkRoots(host, cacheDir, paths, 0, Initial(cacheDir))
      {
        var templatePath := host.normalize(paths[i]);
        if templatePath in host.tree {
          var targetDir := TargetDir(cacheDir, i);
          dirs := dirs + [targetDir];
          var walk := host.tree[templatePath];
          var m := 0;
          while m < |walk|
            invariant m <= |walk|
            invariant Resume(host, cacheDir, paths, i,
                             WalkFiles(host, cacheDir, i, templatePath, walk, m, Progress(dirs, files, index, resources)))
                   == WalkRoots(host, cacheDir, paths, 0, Initial(cacheDir))
          {
            var relativePath := walk[m];
            var file := Join(templatePath, relativePath);
            if IsTemplate(file) {
              match host.compile(file)
              case CompileError(message) =>
                return Failed(Effects(dirs, files), file, message);
              case Compiled(code) =>
                var tPath := targetDir + "/" + relativePath + CompiledExtension;
                assert tPath == TargetPath(cacheDir, i, relativePath);
                files := files[tPath := code];
                index := index[relativePath := tPath][file := tPath];
                resources := resources + [templatePath];
            }
            m := m + 1;
          }
        }
        i := i + 1;
      }
      out := Written(Effects(dirs, files), index, resources, IndexFile(cacheDir),
                     Exports(host.serialize(index)));
    }
  }
}
