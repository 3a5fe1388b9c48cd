/**
 * `analyzeDependencies` from `utils/dependency-analyzer.ts`: pick the code
 * files of a tree listing, analyse the first 30 of them, and turn their
 * imports into a graph of nodes and links.
 *
 * The network and the two helpers the function calls are parameters:
 * `fetch(path)` is the outcome of `fetchFileContent` for a path (`None` when it
 * throws), `extract(content, fileExt, path)` the outcome of `extractImports`
 * (`None` when it throws) and `find(importPath, filePath, codeFiles)` the value
 * of `findMatchingFile` (`None` for a missing result). The per-file work runs
 * in input order, one file at a time.
 */
module DependencyAnalyzer {
  import opened Wrappers
  import opened Strings
  import opened Types

  /** The extensions that make a `blob` a code file. */
  const CODE_EXTENSIONS: seq<string> := ["js", "jsx", "ts", "tsx", "py", "java", "go", "rb", "php", "c", "cpp", "cs"]

  /** `MAX_FILES_TO_ANALYZE`. */
  const MAX_FILES_TO_ANALYZE: nat := 30

  /** A `DependencyNode`. */
  datatype DependencyNode = DependencyNode(id: string, labelText: string, kind: string)

  /** A `DependencyLink`. */
  datatype DependencyLink = DependencyLink(source: string, target: string)

  /** One entry of `importMap`: a file path and the imports found in it. */
  datatype Entry = Entry(path: string, imports: seq<string>)

  /** What the per-file work has built so far: `nodes` and `importMap` (entries in insertion order). */
  datatype Analysis = Analysis(nodes: seq<DependencyNode>, importMap: seq<Entry>)

  /** `DependencyData`: the result. */
  datatype DependencyData = DependencyData(nodes: seq<DependencyNode>, links: seq<DependencyLink>)

  /** `path.split(".").pop()?.toLowerCase()`: the lower-cased text after the last `.`, or the whole path lower-cased. */
  function Extension(path: string): string
  {
    ToLower(LastSegment(path, '.'))
  }

  /** The `filter` test: a `blob` whose extension is one of the twelve code extensions. */
  predicate IsCodeFile(item: TreeItem)
  {
    item.kind == "blob" && Extension(item.path) in CODE_EXTENSIONS
  }

  /** `codeFiles`: the code files of the listing, in listing order. */
  function CodeFiles(items: seq<TreeItem>): (r: seq<TreeItem>)
    ensures |r| <= |items|
    ensures forall x :: x in r <==> x in items && IsCodeFile(x)
  {
    if |items| == 0 then []
    else
      var front := items[..|items| - 1];
      var last := items[|items| - 1];
      assert items == front + [last];
      if IsCodeFile(last) then CodeFiles(front) + [last] else CodeFiles(front)
  }

  /** Filtering a concatenation filters each part and keeps the parts in order. */
  lemma {:induction false} CodeFilesAppend(a: seq<TreeItem>, b: seq<TreeItem>)
    decreases |b|
    ensures CodeFiles(a + b) == CodeFiles(a) + CodeFiles(b)
  {
    if |b| > 0 {
      var front := b[..|b| - 1];
      assert a + b == (a + front) + [b[|b| - 1]];
      assert (a + b)[..|a + b| - 1] == a + front;
      CodeFilesAppend(a, front);
    } else {
      assert a + b == a;
    }
  }

  /** The smaller of two counts. */
  function Min(x: nat, y: nat): nat
  {
    if x <= y then x else y
  }

  /** `codeFiles.slice(0, MAX_FILES_TO_ANALYZE)`. */
  function FilesToAnalyze(codeFiles: seq<TreeItem>): (r: seq<TreeItem>)
    ensures |r| == Min(MAX_FILES_TO_ANALYZE, |codeFiles|)
    ensures r <= codeFiles
  {
    codeFiles[..Min(MAX_FILES_TO_ANALYZE, |codeFiles|)]
  }

  /**
   * The analysed files are the first thirty eligible ones, in listing order:
   * all of them when there are at most thirty, and an item after the first
   * thirty code files is never analysed.
   */
  lemma SampleIsFirstEligible(items: seq<TreeItem>, k: nat)
    requires k <= |items| && |CodeFiles(items[..k])| >= MAX_FILES_TO_ANALYZE
    ensures FilesToAnalyze(CodeFiles(items)) == FilesToAnalyze(CodeFiles(items[..k]))
    ensures |CodeFiles(items)| <= MAX_FILES_TO_ANALYZE ==> FilesToAnalyze(CodeFiles(items)) == CodeFiles(items)
  {
    assert items == items[..k] + items[k..];
    CodeFilesAppend(items[..k], items[k..]);
    var c := CodeFiles(items[..k]);
    assert (c + CodeFiles(items[k..]))[..MAX_FILES_TO_ANALYZE] == c[..MAX_FILES_TO_ANALYZE];
  }

  /** `path.split(".").pop() || "file"`: the text after the last `.` in its own case, or `"file"` when that is empty. */
  function FileExt(path: string): (r: string)
    ensures r != ""
    ensures r != "file" ==> '.' !in r && |r| <= |path| && path[|path| - |r|..] == r
  {
    var ext := LastSegment(path, '.');
    if ext == "" then "file" else ext
  }

  /** The node pushed for a fetched file. */
  function MakeNode(path: string): (n: DependencyNode)
    ensures n.id == path
    ensures '/' !in n.labelText && |n.labelText| <= |path| && path[|path| - |n.labelText|..] == n.labelText
    ensures |n.labelText| < |path| ==> path[|path| - |n.labelText| - 1] == '/'
    ensures n.kind == FileExt(path)
  {
    DependencyNode(path, LastSegment(path, '/'), FileExt(path))
  }

  /** The paths that have an entry in `importMap`, in insertion order. */
  function Keys(m: seq<Entry>): (r: seq<string>)
    ensures |r| == |m| && forall k :: 0 <= k < |m| ==> r[k] == m[k].path
  {
    if |m| == 0 then [] else [m[0].path] + Keys(m[1..])
  }

  /** `importMap.get(path)`. */
  function Lookup(m: seq<Entry>, path: string): (r: Option<seq<string>>)
    ensures r.None? <==> path !in Keys(m)
    ensures r.Some? ==> Entry(path, r.value) in m
  {
    if |m| == 0 then None
    else if m[0].path == path then Some(m[0].imports)
    else Lookup(m[1..], path)
  }

  /** No path has two entries. */
  predicate DistinctKeys(m: seq<Entry>)
  {
    forall a, b :: 0 <= a < b < |Keys(m)| ==> Keys(m)[a] != Keys(m)[b]
  }

  /**
   * `importMap.set(path, imports)`: a path already present keeps its place
   * and gets the new imports; a new path is added at the end, so no path
   * ever gets a second entry.
   */
  function MapSet(m: seq<Entry>, path: string, imports: seq<string>): (r: seq<Entry>)
    ensures path in Keys(m) ==> Keys(r) == Keys(m)
    ensures path !in Keys(m) ==> Keys(r) == Keys(m) + [path]
    ensures DistinctKeys(m) ==> DistinctKeys(r)
  {
    if |m| == 0 then [Entry(path, imports)]
    else if m[0].path == path then [Entry(path, imports)] + m[1..]
    else [m[0]] + MapSet(m[1..], path, imports)
  }

  /** After `importMap.set(path, imports)`, `get(path)` gives `imports` and every other path reads as before. */
  lemma {:induction false} MapSetLookup(m: seq<Entry>, path: string, imports: seq<string>, p: string)
    ensures Lookup(MapSet(m, path, imports), p) == if p == path then Some(imports) else Lookup(m, p)
  {
    if |m| > 0 && m[0].path != path {
      MapSetLookup(m[1..], path, imports, p);
      assert MapSet(m, path, imports)[1..] == MapSet(m[1..], path, imports);
    }
  }

  /**
   * The `try` block for one file: after a successful fetch the node is pushed;
   * then the imports are extracted and stored. A fetch that throws leaves
   * everything as it was; an extraction that throws leaves the node in place
   * but stores nothing.
   */
  function Round(a: Analysis, file: TreeItem, fetch: string -> Option<string>,
                 extract: (string, string, string) -> Option<seq<string>>): Analysis
  {
    match fetch(file.path)
    case None => a
    case Some(content) =>
      var nodes := a.nodes + [MakeNode(file.path)];
      match extract(content, FileExt(file.path), file.path)
      case None => Analysis(nodes, a.importMap)
      case Some(imports) => Analysis(nodes, MapSet(a.importMap, file.path, imports))
  }

  /** The per-file work over `files`, one file after the other. */
  function Analyzed(files: seq<TreeItem>, fetch: string -> Option<string>,
                    extract: (string, string, string) -> Option<seq<string>>): Analysis
  {
    if |files| == 0 then Analysis([], [])
    else Round(Analyzed(files[..|files| - 1], fetch, extract), files[|files| - 1], fetch, extract)
  }

  /** The files whose fetch succeeds, in order. */
  function Fetched(files: seq<TreeItem>, fetch: string -> Option<string>): (r: seq<TreeItem>)
    ensures forall x :: x in r <==> x in files && fetch(x.path).Some?
  {
    if |files| == 0 then []
    else
      var front := files[..|files| - 1];
      var last := files[|files| - 1];
      assert files == front + [last];
      if fetch(last.path).Some? then Fetched(front, fetch) + [last] else Fetched(front, fetch)
  }

  /** Whether `fetchFileContent` and then `extractImports` both succeed for a path. */
  predicate Extracted(path: string, fetch: string -> Option<string>,
                      extract: (string, string, string) -> Option<seq<string>>)
  {
    fetch(path).Some? && extract(fetch(path).value, FileExt(path), path).Some?
  }

  /**
   * One node per fetched file: the nodes are exactly those of the files whose
   * fetch succeeds, one each, whatever `extract` does.
   */
  lemma {:induction false} NodesOfFetchedFiles(files: seq<TreeItem>, fetch: string -> Option<string>,
                                               extract: (string, string, string) -> Option<seq<string>>)
    ensures var a := Analyzed(files, fetch, extract); var ok := Fetched(files, fetch);
      |a.nodes| == |ok| && forall k :: 0 <= k < |ok| ==> a.nodes[k] == MakeNode(ok[k].path)
  {
    if |files| > 0 {
      var front := files[..|files| - 1];
      var last := files[|files| - 1];
      NodesOfFetchedFiles(front, fetch, extract);
      var a0 := Analyzed(front, fetch, extract);
      var ok0 := Fetched(front, fetch);
      if fetch(last.path).Some? {
        assert Fetched(files, fetch) == ok0 + [last];
        assert Analyzed(files, fetch, extract).nodes == a0.nodes + [MakeNode(last.path)];
      } else {
        assert Fetched(files, fetch) == ok0;
        assert Analyzed(files, fetch, extract).nodes == a0.nodes;
      }
    }
  }

  /** The paths of some tree items, in order. */
  function Paths(files: seq<TreeItem>): (r: seq<string>)
    ensures |r| == |files| && forall k :: 0 <= k < |files| ==> r[k] == files[k].path
  {
    seq(|files|, k requires 0 <= k < |files| => files[k].path)
  }

  /**
   * `importMap.get(p)` after the per-file work: the imports extracted from
   * `p` when `p` is an analysed path whose fetch and extraction both succeed,
   * and nothing otherwise. So a path whose extraction failed still has its
   * node but no entry, and a failure leaves the other paths' entries alone.
   */
  lemma {:induction false} ImportMapOfExtractedFiles(files: seq<TreeItem>, fetch: string -> Option<string>,
                                                     extract: (string, string, string) -> Option<seq<string>>, p: string)
    ensures Lookup(Analyzed(files, fetch, extract).importMap, p) ==
      if p in Paths(files) && Extracted(p, fetch, extract) then extract(fetch(p).value, FileExt(p), p) else None
  {
    if |files| > 0 {
      var front := files[..|files| - 1];
      var last := files[|files| - 1];
      assert Paths(files) == Paths(front) + [last.path];
      ImportMapOfExtractedFiles(front, fetch, extract, p);
      var m := Analyzed(front, fetch, extract).importMap;
      if fetch(last.path).Some? {
        var content := fetch(last.path).value;
        match extract(content, FileExt(last.path), last.path)
        case Some(imports) =>
          MapSetLookup(m, last.path, imports, p);
        case None =>
      }
    }
  }

  /** No path has two `importMap` entries. */
  lemma {:induction false} ImportMapDistinct(files: seq<TreeItem>, fetch: string -> Option<string>,
                                             extract: (string, string, string) -> Option<seq<string>>)
    ensures DistinctKeys(Analyzed(files, fetch, extract).importMap)
  {
    if |files| > 0 {
      ImportMapDistinct(files[..|files| - 1], fetch, extract);
    }
  }

  /** Every analysed file whose fetch succeeds has a node. */
  lemma FetchedFileHasNode(files: seq<TreeItem>, fetch: string -> Option<string>,
                           extract: (string, string, string) -> Option<seq<string>>, f: TreeItem)
    requires f in files && fetch(f.path).Some?
    ensures exists n :: n in Analyzed(files, fetch, extract).nodes && n.id == f.path
  {
    var ok := Fetched(files, fetch);
    NodesOfFetchedFiles(files, fetch, extract);
    assert f in ok;
    var k :| 0 <= k < |ok| && ok[k] == f;
    var nodes := Analyzed(files, fetch, extract).nodes;
    assert nodes[k] == MakeNode(f.path);
    assert nodes[k] in nodes;
  }

  /** Every `importMap` key names a file that has a node. */
  lemma EntryHasNode(files: seq<TreeItem>, fetch: string -> Option<string>,
                     extract: (string, string, string) -> Option<seq<string>>, p: string)
    requires p in Keys(Analyzed(files, fetch, extract).importMap)
    ensures exists n :: n in Analyzed(files, fetch, extract).nodes && n.id == p
  {
    ImportMapOfExtractedFiles(files, fetch, extract, p);
    var paths := Paths(files);
    assert p in paths && fetch(p).Some?;
    var j :| 0 <= j < |files| && paths[j] == p;
    FetchedFileHasNode(files, fetch, extract, files[j]);
  }

  /**
   * The per-file loop. `nodes.push` and `importMap.set` are the in-place
   * updates; the files are taken in input order.
   */
  method AnalyzeFiles(files: seq<TreeItem>, fetch: string -> Option<string>,
                      extract: (string, string, string) -> Option<seq<string>>)
    returns (nodes: seq<DependencyNode>, importMap: seq<Entry>)
    ensures Analysis(nodes, importMap) == Analyzed(files, fetch, extract)
  {
    nodes, importMap := [], [];
    for i := 0 to |files|
      invariant Analysis(nodes, importMap) == Analyzed(files[..i], fetch, extract)
    {
      assert files[..i + 1][..i] == files[..i];
      var file := files[i];
      var content := fetch(file.path);
      if content.Some? {
        var fileExt := FileExt(file.path);
        nodes := nodes + [MakeNode(file.path)];
        var imports := extract(content.value, fileExt, file.path);
        if imports.Some? {
          importMap := MapSet(importMap, file.path, imports.value);
        }
      }
    }
    assert files[..|files|] == files;
  }

  /** `findMatchingFile(...)` as the `if (targetFile)` test sees it: a missing or empty result finds nothing. */
  function Target(find: (string, string, seq<TreeItem>) -> Option<string>, importPath: string, filePath: string,
                  codeFiles: seq<TreeItem>): (r: Option<string>)
    ensures r.Some? <==> find(importPath, filePath, codeFiles).Some? && find(importPath, filePath, codeFiles).value != ""
    ensures r.Some? ==> r == find(importPath, filePath, codeFiles)
  {
    match find(importPath, filePath, codeFiles)
    case Some(t) => if t == "" then None else Some(t)
    case None => None
  }

  /** The links of one `importMap` entry: one per import that finds a target, in import order. */
  function EntryLinks(path: string, imports: seq<string>, codeFiles: seq<TreeItem>,
                      find: (string, string, seq<TreeItem>) -> Option<string>): (r: seq<DependencyLink>)
    ensures |r| <= |imports|
    ensures forall l :: l in r ==> l.source == path
  {
    if |imports| == 0 then []
    else
      var front := EntryLinks(path, imports[..|imports| - 1], codeFiles, find);
      match Target(find, imports[|imports| - 1], path, codeFiles)
      case Some(t) => front + [DependencyLink(path, t)]
      case None => front
  }

  /** The links of all entries, entry by entry in insertion order. */
  function Links(m: seq<Entry>, codeFiles: seq<TreeItem>,
                 find: (string, string, seq<TreeItem>) -> Option<string>): seq<DependencyLink>
  {
    if |m| == 0 then []
    else Links(m[..|m| - 1], codeFiles, find) + EntryLinks(m[|m| - 1].path, m[|m| - 1].imports, codeFiles, find)
  }

  /** Imports are taken one link each, in order: the links of a concatenation are the links of its parts. */
  lemma {:induction false} EntryLinksAppend(path: string, a: seq<string>, b: seq<string>, codeFiles: seq<TreeItem>,
                                            find: (string, string, seq<TreeItem>) -> Option<string>)
    decreases |b|
    ensures EntryLinks(path, a + b, codeFiles, find) == EntryLinks(path, a, codeFiles, find) + EntryLinks(path, b, codeFiles, find)
  {
    if |b| > 0 {
      var front := b[..|b| - 1];
      assert (a + b)[..|a + b| - 1] == a + front;
      assert (a + b)[|a + b| - 1] == b[|b| - 1];
      EntryLinksAppend(path, a, front, codeFiles, find);
    } else {
      assert a + b == a;
    }
  }

  /** An import repeated in a file gives a repeated link: duplicates are kept. */
  lemma RepeatedImportKept(path: string, importPath: string, codeFiles: seq<TreeItem>,
                           find: (string, string, seq<TreeItem>) -> Option<string>)
    requires Target(find, importPath, path, codeFiles).Some?
    ensures var t := Target(find, importPath, path, codeFiles).value;
      EntryLinks(path, [importPath, importPath], codeFiles, find) == [DependencyLink(path, t), DependencyLink(path, t)]
  {
    assert [importPath, importPath][..1] == [importPath];
    assert [importPath][..0] == [];
  }

  /**
   * The links are exactly the pairs `(source, target)` where `source` has an
   * entry one of whose imports finds `target`.
   */
  lemma {:induction false} LinksExactly(m: seq<Entry>, codeFiles: seq<TreeItem>,
                                        find: (string, string, seq<TreeItem>) -> Option<string>, l: DependencyLink)
    ensures l in Links(m, codeFiles, find) <==>
      exists e, i :: e in m && 0 <= i < |e.imports| && e.path == l.source && Target(find, e.imports[i], e.path, codeFiles) == Some(l.target)
  {
    if |m| > 0 {
      var front := m[..|m| - 1];
      var last := m[|m| - 1];
      assert m == front + [last];
      LinksExactly(front, codeFiles, find, l);
      EntryLinksExactly(last.path, last.imports, codeFiles, find, l);
      if exists e, i :: e in m && 0 <= i < |e.imports| && e.path == l.source && Target(find, e.imports[i], e.path, codeFiles) == Some(l.target) {
        var e, i :| e in m && 0 <= i < |e.imports| && e.path == l.source && Target(find, e.imports[i], e.path, codeFiles) == Some(l.target);
        assert e in front || e == last;
      }
    }
  }

  /** The links of one entry are exactly the pairs its imports find. */
  lemma {:induction false} EntryLinksExactly(path: string, imports: seq<string>, codeFiles: seq<TreeItem>,
                                             find: (string, string, seq<TreeItem>) -> Option<string>, l: DependencyLink)
    ensures l in EntryLinks(path, imports, codeFiles, find) <==>
      l.source == path && exists i :: 0 <= i < |imports| && Target(find, imports[i], path, codeFiles) == Some(l.target)
  {
    if |imports| > 0 {
      var front := imports[..|imports| - 1];
      EntryLinksExactly(path, front, codeFiles, find, l);
      if l.source == path && exists i :: 0 <= i < |imports| && Target(find, imports[i], path, codeFiles) == Some(l.target) {
        var i :| 0 <= i < |imports| && Target(find, imports[i], path, codeFiles) == Some(l.target);
        if i < |imports| - 1 {
          assert front[i] == imports[i];
        }
      }
      if exists i :: 0 <= i < |front| && Target(find, front[i], path, codeFiles) == Some(l.target) {
        var i :| 0 <= i < |front| && Target(find, front[i], path, codeFiles) == Some(l.target);
        assert imports[i] == front[i];
      }
    }
  }

  /** The link loop: nested `forEach` over the entries and their imports, pushing into `links`. */
  method BuildLinks(importMap: seq<Entry>, codeFiles: seq<TreeItem>,
                    find: (string, string, seq<TreeItem>) -> Option<string>)
    returns (links: seq<DependencyLink>)
    ensures links == Links(importMap, codeFiles, find)
  {
    links := [];
    for e := 0 to |importMap|
      invariant links == Links(importMap[..e], codeFiles, find)
    {
      assert importMap[..e + 1][..e] == importMap[..e];
      var filePath := importMap[e].path;
      var imports := importMap[e].imports;
      for j := 0 to |imports|
        invariant links == Links(importMap[..e], codeFiles, find) + EntryLinks(filePath, imports[..j], codeFiles, find)
      {
        assert imports[..j + 1][..j] == imports[..j];
        var targetFile := find(imports[j], filePath, codeFiles);
        if targetFile.Some? && targetFile.value != "" {
          links := links + [DependencyLink(filePath, targetFile.value)];
        }
      }
      assert imports[..|imports|] == imports;
    }
    assert importMap[..|importMap|] == importMap;
  }

  /** The result, as a function of the listing and the abstracted calls. */
  function Dependencies(items: seq<TreeItem>, fetch: string -> Option<string>,
                        extract: (string, string, string) -> Option<seq<string>>,
                        find: (string, string, seq<TreeItem>) -> Option<string>): DependencyData
  {
    var codeFiles := CodeFiles(items);
    var a := Analyzed(FilesToAnalyze(codeFiles), fetch, extract);
    DependencyData(a.nodes, Links(a.importMap, codeFiles, find))
  }

  /** `analyzeDependencies`. */
  method AnalyzeDependencies(items: seq<TreeItem>, fetch: string -> Option<string>,
                             extract: (string, string, string) -> Option<seq<string>>,
                             find: (string, string, seq<TreeItem>) -> Option<string>)
    returns (data: DependencyData)
    ensures data == Dependencies(items, fetch, extract, find)
  {
    var codeFiles := CodeFiles(items);
    var filesToAnalyze := FilesToAnalyze(codeFiles);
    var nodes, importMap := AnalyzeFiles(filesToAnalyze, fetch, extract);
    var links := BuildLinks(importMap, codeFiles, find);
    data := DependencyData(nodes, links);
  }

  /** Every link's source has an `importMap` entry. */
  lemma {:induction false} LinkSourcesAreKeys(m: seq<Entry>, codeFiles: seq<TreeItem>,
                                              find: (string, string, seq<TreeItem>) -> Option<string>)
    ensures forall l :: l in Links(m, codeFiles, find) ==> l.source in Keys(m)
  {
    if |m| > 0 {
      var front := m[..|m| - 1];
      LinkSourcesAreKeys(front, codeFiles, find);
      assert Keys(m) == Keys(front) + [m[|m| - 1].path];
    }
  }

  /** Every link's source is a file that has a node. */
  lemma LinkSourcesAreNodes(items: seq<TreeItem>, fetch: string -> Option<string>,
                            extract: (string, string, string) -> Option<seq<string>>,
                            find: (string, string, seq<TreeItem>) -> Option<string>)
    ensures var d := Dependencies(items, fetch, extract, find);
      forall l :: l in d.links ==> exists n :: n in d.nodes && n.id == l.source
  {
    var codeFiles := CodeFiles(items);
    var files := FilesToAnalyze(codeFiles);
    var a := Analyzed(files, fetch, extract);
    var d := Dependencies(items, fetch, extract, find);
    assert d.nodes == a.nodes && d.links == Links(a.importMap, codeFiles, find);
    LinkSourcesAreKeys(a.importMap, codeFiles, find);
    forall l | l in d.links
      ensures exists n :: n in d.nodes && n.id == l.source
    {
      EntryHasNode(files, fetch, extract, l.source);
    }
  }

  /** The extension of `dir/name.ext` is `ext`, lower-cased, when `ext` holds no `.`. */
  lemma ExtensionOf(front: string, ext: string)
    requires '.' !in ext
    ensures Extension(front + "." + ext) == ToLower(ext)
    ensures FileExt(front + "." + ext) == if ext == "" then "file" else ext
  {
    LastSegmentAfter(front, '.', ext);
    assert front + "." + ext == front + ['.'] + ext;
  }

  /** `JAVA`, lower-cased, is one of the code extensions. */
  lemma UpperJavaIsCodeExtension()
    ensures ToLower("JAVA") in CODE_EXTENSIONS
  {
    assert ToLower("JAVA") == "java";
    assert CODE_EXTENSIONS[5] == "java";
  }

  /** Extensions are compared lower-cased: any `….JAVA` blob is a code file. */
  lemma UpperCaseExtensionExample(front: string)
    ensures IsCodeFile(TreeItem(front + ".JAVA", "blob"))
  {
    ExtensionOf(front, "JAVA");
    assert front + "." + "JAVA" == front + ".JAVA";
    UpperJavaIsCodeExtension();
  }

  /** The node type keeps the case of the extension: a `….JAVA` file has the type `JAVA`. */
  lemma UpperCaseNodeTypeExample(front: string)
    ensures MakeNode(front + ".JAVA").kind == "JAVA"
  {
    ExtensionOf(front, "JAVA");
    assert front + "." + "JAVA" == front + ".JAVA";
  }

  /** Only `blob` items count: a `tree` is never a code file, whatever its name. */
  lemma TreeNotCodeFileExample(path: string)
    ensures !IsCodeFile(TreeItem(path, "tree"))
  {
    assert "tree"[0] != "blob"[0];
  }

  /** `md` is not a code extension: a `….md` blob is not a code file. */
  lemma MarkdownNotCodeFileExample(front: string)
    ensures !IsCodeFile(TreeItem(front + ".md", "blob"))
  {
    ExtensionOf(front, "md");
    assert front + "." + "md" == front + ".md";
    assert ToLower("md") == "md";
    NoCodeExtensionStartsWithM("md");
  }

  /** No code extension starts with `m`. */
  lemma NoCodeExtensionStartsWithM(e: string)
    requires |e| > 0 && e[0] == 'm'
    ensures e !in CODE_EXTENSIONS
  {
    assert forall k :: 0 <= k < |CODE_EXTENSIONS| ==> CODE_EXTENSIONS[k][0] != 'm';
  }

  /** A path without `.` is its own extension, lower-cased, and its own node type. */
  lemma DotlessExtension(path: string)
    requires '.' !in path
    ensures Extension(path) == ToLower(path)
    ensures path != "" ==> MakeNode(path).kind == path
  {
    assert LastSegment(path, '.') == path;
  }

  /** A blob named just like a code extension, such as `go`, is a code file: the whole name is its extension. */
  lemma BareExtensionIsCodeFile(path: string)
    requires '.' !in path && IsLower(path) && path in CODE_EXTENSIONS
    ensures IsCodeFile(TreeItem(path, "blob"))
  {
    DotlessExtension(path);
    ToLowerFacts(path);
  }

  /** A path ending in `.` has an empty extension, so its node gets the type `file`. */
  lemma TrailingDotExample(front: string)
    ensures MakeNode(front + ".").kind == "file"
  {
    ExtensionOf(front, "");
    assert front + "." + "" == front + ".";
  }

  /** The node of `<dir>/App.tsx` is labelled `App.tsx` and typed `tsx`. */
  lemma NodeExample(dir: string)
    ensures MakeNode(dir + "/App.tsx") == DependencyNode(dir + "/App.tsx", "App.tsx", "tsx")
  {
    var path := dir + "/App.tsx";
    ExtensionOf(dir + "/App", "tsx");
    assert dir + "/App" + "." + "tsx" == path;
    LastSegmentAfter(dir, '/', "App.tsx");
    assert dir + ['/'] + "App.tsx" == path;
  }

  /** A fetch that succeeds for `a.ts` only. */
  function FetchOnlyA(path: string): Option<string>
  {
    if path == "a.ts" then Some("") else None
  }

  /** An extraction that finds one import, `./b`, in every file. */
  function ImportsB(content: string, fileExt: string, path: string): Option<seq<string>>
  {
    Some(["./b"])
  }

  /** A matcher that resolves every import to `b.ts`. */
  function FindsB(importPath: string, filePath: string, codeFiles: seq<TreeItem>): Option<string>
  {
    Some("b.ts")
  }

  /** `a.ts` and `b.ts` are code files. */
  lemma TsFilesAreCode()
    ensures IsCodeFile(TreeItem("a.ts", "blob")) && IsCodeFile(TreeItem("b.ts", "blob"))
  {
    ExtensionOf("a", "ts");
    assert "a" + "." + "ts" == "a.ts";
    ExtensionOf("b", "ts");
    assert "b" + "." + "ts" == "b.ts";
    assert ToLower("ts") == "ts";
  }

  /** Two code files pass the filter and the cap unchanged. */
  lemma TwoCodeFilesKept(a: TreeItem, b: TreeItem)
    requires IsCodeFile(a) && IsCodeFile(b)
    ensures FilesToAnalyze(CodeFiles([a, b])) == [a, b]
  {
    assert [a, b][..1] == [a];
    assert [a][..0] == [];
  }

  /** The per-file work for `a.ts` alone. */
  lemma AAnalyzed(a: TreeItem)
    requires a.path == "a.ts"
    ensures Analyzed([a], FetchOnlyA, ImportsB) == Analysis([MakeNode(a.path)], [Entry(a.path, ["./b"])])
  {
    var none := Analysis([], []);
    assert [a][..0] == [];
    assert Analyzed([a], FetchOnlyA, ImportsB) == Round(none, a, FetchOnlyA, ImportsB);
    assert FetchOnlyA(a.path) == Some("");
    assert ImportsB("", FileExt(a.path), a.path) == Some(["./b"]);
    assert MapSet([], a.path, ["./b"]) == [Entry(a.path, ["./b"])];
  }

  /** The per-file work for `a.ts` (fetched) and `b.ts` (not fetched). */
  lemma OnlyAAnalyzed(a: TreeItem, b: TreeItem)
    requires a.path == "a.ts" && b.path == "b.ts"
    ensures Analyzed([a, b], FetchOnlyA, ImportsB) == Analysis([MakeNode(a.path)], [Entry(a.path, ["./b"])])
  {
    var one := Analysis([MakeNode(a.path)], [Entry(a.path, ["./b"])]);
    assert [a, b][..1] == [a];
    AAnalyzed(a);
    assert FetchOnlyA(b.path) == None;
    assert Round(one, b, FetchOnlyA, ImportsB) == one;
  }

  /** The links of the one entry `a.ts -> ["./b"]`. */
  lemma OneLinkToB(codeFiles: seq<TreeItem>)
    ensures Links([Entry("a.ts", ["./b"])], codeFiles, FindsB) == [DependencyLink("a.ts", "b.ts")]
  {
    assert ["./b"][..0] == [];
    assert [Entry("a.ts", ["./b"])][..0] == [];
  }

  /**
   * Link targets are not checked against the nodes: with `a.ts` importing
   * `./b` and the fetch of `b.ts` failing, the graph has the link from `a.ts`
   * to `b.ts` but no node for `b.ts`.
   */
  lemma TargetOutsideNodesExample()
    ensures var d := Dependencies([TreeItem("a.ts", "blob"), TreeItem("b.ts", "blob")], FetchOnlyA, ImportsB, FindsB);
      d.links == [DependencyLink("a.ts", "b.ts")] && |d.nodes| == 1 && d.nodes[0].id == "a.ts" &&
      forall n :: n in d.nodes ==> n.id != "b.ts"
  {
    TsFilesAreCode();
    OnlyAFetchedGraph(TreeItem("a.ts", "blob"), TreeItem("b.ts", "blob"));
  }

  /** The graph of the code files `a.ts` and `b.ts` when only `a.ts` is fetched. */
  lemma OnlyAFetchedGraph(a: TreeItem, b: TreeItem)
    requires a.path == "a.ts" && b.path == "b.ts" && IsCodeFile(a) && IsCodeFile(b)
    ensures Dependencies([a, b], FetchOnlyA, ImportsB, FindsB) ==
      DependencyData([MakeNode(a.path)], [DependencyLink("a.ts", "b.ts")])
  {
    TwoCodeFilesKept(a, b);
    OnlyAAnalyzed(a, b);
    OneLinkToB(CodeFiles([a, b]));
  }
}
