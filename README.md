# Kumis template cache warmer, modelled in Dafny

`TemplatesCacheWarmer` precompiles every Kumis template of an application
before it serves requests. When it is constructed, it fixes an ordered list of
template roots: the explicitly configured template paths, then
`<bundle.path>/Resources/templates` for every kernel bundle. Warming a cache
directory works as follows when the cache factory judges the published index
stale:

- it creates `<cacheDir>/kumis/templates`;
- it then takes the roots in order and skips any root that does not exist;
- for an existing root numbered `i`, it creates `<cacheDir>/kumis/templates/<NN>`, where `NN` is `i` zero-padded to two digits;
- it walks the root and compiles every file whose name ends in `.kumis`;
- it writes each compiled template to `<NN>/<relative path>.js`;
- it points both the template's absolute path and its relative path at that target in the index;
- it records the root as a watched resource once per compiled template.

At the end it publishes `module.exports = <JSON of the index>;\n` as
`<cacheDir>/kumis/templates.js`. A compile error ends the warm-up before
anything is published.

The model has four modules:

- `Layout` (Layout.dfy): the on-disk layout.
  - `%02d` directory names, proved unambiguous.
  - The target paths, proved injective in (root position, relative path) and distinct from the index file.
  - The `.kumis` filter.
  - The text of the index module, proved to give back the serialized index.
- `Warming` (Warming.dfy): the warm-up step by step, as a reference.
  - `WalkRoots` and `WalkFiles` take the roots in order and the files in walk order. They accumulate a `Progress`: directories made, files written, index and resources.
  - A compile error stops the run.
  - `WarmUpResult` turns the run into the outcome `Fresh`, `Written` or `Failed`.
- `Listing` (Listing.dfy): the same warm-up described by the flat list of template files it compiles (`Entries`).
  - `WalkDescribed` proves that the step-by-step run produces exactly what that list adds up to.
  - The properties of the warm-up are proved about the list: which files are compiled, their order, the index keys, last write wins, the written files and the resources. So are the published and failed outcomes.
- `CacheWarmer` (CacheWarmer.dfy): the class `TemplatesCacheWarmer`.
  - Its constructor builds the root list.
  - `WarmUp` is an imperative method with the source's two nested loops. The outer loop extends the list of directories made. The inner loop reassigns the written-files map, the index map and the resources sequence once per compiled template. The method is proved to return `WarmUpResult`.

Inputs from the outside world form a `Host` value:

- the path normaliser;
- the existing directories, each with its files relative to it in walk order;
- the compiler, which maps an absolute file path to code or to an error;
- the JSON serialiser.

The cache factory's freshness verdict is the `stale` parameter. A template's
absolute path is its root, `/`, then its relative path, so
`relative(root, file)` is the relative path by construction.

The code pushes the root as a watched resource once per compiled template
(`TemplatesCacheWarmer.js:91`), so a root without templates is not watched at
all. The model follows this (`Listing.Resources`, `Listing.PublishedContents`).

## Model

| member | source | states |
|---|---|---|
| CacheWarmer.BundleTemplateDirs | src/Bundle/CacheWarmer/TemplatesCacheWarmer.js:35-39 | one `<bundle.path>/Resources/templates` per bundle, in bundle order |
| CacheWarmer.ResolvePaths | src/Bundle/CacheWarmer/TemplatesCacheWarmer.js:35-46 | the roots are the template paths unchanged and in order, followed by one templates directory per bundle; the length is the sum, so nothing is deduplicated |
| CacheWarmer.TemplatesCacheWarmer.constructor | src/Bundle/CacheWarmer/TemplatesCacheWarmer.js:20-47 | the warmer's roots are the resolved root list |
| CacheWarmer.TemplatesCacheWarmer.Optional | src/Bundle/CacheWarmer/TemplatesCacheWarmer.js:102-104 | the warmer is always optional |
| CacheWarmer.TemplatesCacheWarmer.WarmUp | src/Bundle/CacheWarmer/TemplatesCacheWarmer.js:52-97 | the nested root and file loops, which reassign the written files, the index map and the resource list once per compiled template, end in exactly the reference outcome: nothing when fresh, the published index module when every template compiles, and otherwise the first compile error with the directories and files made so far |
| Layout.IsTemplate | src/Bundle/CacheWarmer/TemplatesCacheWarmer.js:71 | a file is a template when its path ends in `.kumis` |
| Layout.Pad2 | src/Bundle/CacheWarmer/TemplatesCacheWarmer.js:66 | `%02d`: the decimal digits of the position, with a leading `0` below 10 |
| Layout.TemplatesDir | src/Bundle/CacheWarmer/TemplatesCacheWarmer.js:55 | `<cacheDir>/kumis/templates`, the directory made first |
| Layout.IndexFile | src/Bundle/CacheWarmer/TemplatesCacheWarmer.js:54 | `<cacheDir>/kumis/templates.js`, where the index module is published |
| Layout.Join | src/Bundle/CacheWarmer/TemplatesCacheWarmer.js:70-75 | a walked file's absolute path is its normalized root, `/`, then its path relative to that root |
| Layout.TargetDir | src/Bundle/CacheWarmer/TemplatesCacheWarmer.js:66 | `<cacheDir>/kumis/templates/<NN>` for the root at position `i` |
| Layout.TargetPath | src/Bundle/CacheWarmer/TemplatesCacheWarmer.js:83 | `<root directory>/<relative path>.js`, where a compiled template is written |
| Layout.Exports | src/Bundle/CacheWarmer/TemplatesCacheWarmer.js:95 | `module.exports = ` followed by the serialized index and `;\n` |
| Layout.TemplateByRelativeName | src/Bundle/CacheWarmer/TemplatesCacheWarmer.js:71-75 | filtering the absolute path on `.kumis` is the same as filtering the relative path |
| Layout.Decimal | src/Bundle/CacheWarmer/TemplatesCacheWarmer.js:66 | the decimal form of a number is a non-empty digit string, and it is one digit exactly below 10 |
| Layout.Pad2RoundTrip | src/Bundle/CacheWarmer/TemplatesCacheWarmer.js:66 | a `%02d` directory name has at least two digits and reads back as the root position it came from |
| Layout.Pad2Injective | src/Bundle/CacheWarmer/TemplatesCacheWarmer.js:66 | distinct root positions get distinct directory names |
| Layout.Pad2Width | src/Bundle/CacheWarmer/TemplatesCacheWarmer.js:66 | the name is exactly two characters if and only if the position is below 100 |
| Layout.TargetDirInjective | src/Bundle/CacheWarmer/TemplatesCacheWarmer.js:66-67 | two roots share a target directory only if they have the same position |
| Layout.TargetPathInjective | src/Bundle/CacheWarmer/TemplatesCacheWarmer.js:83 | two compiled files share a target path only if they have the same root position and the same relative path |
| Layout.IndexFileIsNotCompiled | src/Bundle/CacheWarmer/TemplatesCacheWarmer.js:54 | the published index file is never the target of a compiled template |
| Layout.ExportsRoundTrip | src/Bundle/CacheWarmer/TemplatesCacheWarmer.js:95 | the published module text assigns exactly the serialized index to `module.exports` |
| Warming.Initial | src/Bundle/CacheWarmer/TemplatesCacheWarmer.js:55-58 | before the first root: only the templates directory made, no file written, an empty index, no resources |
| Warming.Record | src/Bundle/CacheWarmer/TemplatesCacheWarmer.js:83-91 | one compiled template: its code is written at its target; its relative path and then its absolute path are pointed at that target; its root is appended to the resources |
| Warming.WalkFiles | src/Bundle/CacheWarmer/TemplatesCacheWarmer.js:70-92 | the files of one root in walk order: a non-template is skipped, a compile error stops the run at that file, and a compiled template is recorded |
| Warming.WalkRoots | src/Bundle/CacheWarmer/TemplatesCacheWarmer.js:60-93 | the roots in order: a missing root is skipped; an existing root adds its numbered directory, then its files are walked, and the run goes on to the next root unless it stopped |
| Warming.Report | src/Bundle/CacheWarmer/TemplatesCacheWarmer.js:76-95 | a finished run publishes the module text of its index at the index path together with its resources; a stopped run reports the compile error and what was already on disk |
| Warming.WarmUpResult | src/Bundle/CacheWarmer/TemplatesCacheWarmer.js:52-97 | nothing happens exactly when the cache is fresh; a published outcome puts its text at the index path, and that text gives back the serialized index |
| Listing.MadeDirs | src/Bundle/CacheWarmer/TemplatesCacheWarmer.js:55-67 | the directories made: the templates directory, then one numbered directory per existing root, in root order |
| Listing.IndexOf | src/Bundle/CacheWarmer/TemplatesCacheWarmer.js:90 | the index after a list of files, each setting its relative path and then its absolute path to its target |
| Listing.Writes | src/Bundle/CacheWarmer/TemplatesCacheWarmer.js:83-88 | the files written after a list of files: each one that compiles is written at its target with its code |
| Listing.RootEntries | src/Bundle/CacheWarmer/TemplatesCacheWarmer.js:69-75 | the files compiled from a root carry that root's position and path and are `.kumis` files, at most one per walked file |
| Listing.Entries | src/Bundle/CacheWarmer/TemplatesCacheWarmer.js:60-73 | every compiled file carries the position of a configured root |
| Listing.Resources | src/Bundle/CacheWarmer/TemplatesCacheWarmer.js:91 | one resource per compiled file, in order, each the root of that file |
| Listing.FirstFailure | src/Bundle/CacheWarmer/TemplatesCacheWarmer.js:76-81 | the position of the first file that does not compile: every earlier file compiles |
| Listing.RootsFrom | src/Bundle/CacheWarmer/TemplatesCacheWarmer.js:60-93 | invariant of the root loop: from any root on, with what the earlier roots added up to, the run ends as the file list describes |
| Listing.FilesFrom | src/Bundle/CacheWarmer/TemplatesCacheWarmer.js:70-92 | invariant of the file loop: from any walked file on, with what the earlier files added up to, the run ends as the file list describes; a compile error stops at that file |
| Listing.WalkDescribed | src/Bundle/CacheWarmer/TemplatesCacheWarmer.js:55-93 | the step-by-step warm-up produces exactly the directories, writes, index and resources of its file list, or stops at its first failing file |
| Listing.WarmUpDescribed | src/Bundle/CacheWarmer/TemplatesCacheWarmer.js:52-97 | the outcome of a stale warm-up is the report of the described run |
| Listing.RootEntriesMembership | src/Bundle/CacheWarmer/TemplatesCacheWarmer.js:69-75 | a file is compiled from a root if and only if it is walked under that root and ends in `.kumis` |
| Listing.EntriesMembership | src/Bundle/CacheWarmer/TemplatesCacheWarmer.js:60-75 | a file is compiled if and only if it is a walked `.kumis` file of an existing normalized root, and it carries that root's position in the root list |
| Listing.MissingRootSkipped | src/Bundle/CacheWarmer/TemplatesCacheWarmer.js:60-67 | a root that does not exist compiles no file and gets no directory, while its position stays used up |
| Listing.MadeDirsMembership | src/Bundle/CacheWarmer/TemplatesCacheWarmer.js:60-67 | the directory of root `i` is created if and only if root `i` exists |
| Listing.EntriesOrdered | src/Bundle/CacheWarmer/TemplatesCacheWarmer.js:60-70 | files are processed root by root, in the order of the root list |
| Listing.IndexKeys | src/Bundle/CacheWarmer/TemplatesCacheWarmer.js:90 | the index holds a key if and only if the key is the absolute or the relative path of a compiled file |
| Listing.IndexLastWriteWins | src/Bundle/CacheWarmer/TemplatesCacheWarmer.js:90 | a key maps to the target of the last compiled file that sets it |
| Listing.IndexStep | src/Bundle/CacheWarmer/TemplatesCacheWarmer.js:90 | one more file sets both its keys to its target and leaves every other key as it was |
| Listing.CompiledFilesWritten | src/Bundle/CacheWarmer/TemplatesCacheWarmer.js:83-88 | when every template compiles, each one's own code is at its own target path, so no compiled file overwrites another |
| Listing.PublishedUnlessCompileError | src/Bundle/CacheWarmer/TemplatesCacheWarmer.js:76-95 | the index is published if and only if the cache is stale and every template compiles; a stale warm-up fails if and only if some template does not compile; the published text gives back the serialized index |
| Listing.PublishedContents | src/Bundle/CacheWarmer/TemplatesCacheWarmer.js:55-95 | a published warm-up made one directory per existing root and put the module at the index path; its index is the index of all its templates, holding exactly their two keys each; it wrote exactly the targets of its templates, each holding that template's own code; it has one resource per template, naming its root |
| Listing.WritesKeys | src/Bundle/CacheWarmer/TemplatesCacheWarmer.js:83-88 | a path is written if and only if it is the target of a processed file that compiled |
| Listing.IndexedOnlyTemplates | src/Bundle/CacheWarmer/TemplatesCacheWarmer.js:71-73 | every index key, whether relative or absolute, names a `.kumis` file |
| Listing.FailedAtFirstError | src/Bundle/CacheWarmer/TemplatesCacheWarmer.js:76-88 | a failed warm-up reports the first template, in processing order, that does not compile, together with its message, and it wrote exactly the templates before that one and made exactly the directories of the roots up to and including that template's root |

## Left out

- Filesystem calls are not modelled as I/O. `existsSync` on a root becomes membership in `Host.tree`, and the recursive directory walk is a given walk-order sequence of relative paths. `readFileSync` is folded into `Host.compile`, and the directory creations and file writes become the `Effects` of the outcome. Read and write errors are not modelled.
- The compiler is an uninterpreted function from an absolute file path to code or an error. The template source, the environment's extension list and its options are fixed inputs of that function.
- `path.normalize` is the uninterpreted `Host.normalize`. `path.relative` is modelled by construction: a walked file is its root, `/`, then its relative path.
- The `mkdir(dirname(tPath))` for nested relative paths (lines 84-86) is not modelled, because it depends on `dirname` and on the existing output tree. `Effects.dirs` holds only the templates directory and the per-root directories.
- `JSON.stringify(obj, null, 2)` is the uninterpreted `Host.serialize`. The index is a map, so the insertion order of its keys is not modelled.
- The `ConfigCacheFactory` and its debug flag are not modelled: freshness checking and the atomic publication of the text with its resources are the `stale` parameter and the `Written` outcome. As a result, idempotence across two warm-ups is not modelled either, since it rests on that factory.
- The constructor takes `templatePaths` explicitly: the default `templatePaths = []` of `__construct` has no counterpart, because a Dafny caller always passes the list. Passing `[]` gives the same roots.
- `FileResource` is modelled as the root path it wraps.
- Kernel and bundle discovery are reduced to the bundle list passed to the constructor (`Bundle` holds only its path). The environment, the kernel reference and the `CacheWarmerInterface` glue are not modelled.
