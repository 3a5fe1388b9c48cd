/**
 * `resolveRelativePath(basePath, relativePath)` from `utils/path-resolver.ts`:
 * a purely textual transform that strips one leading `./`, pops one segment of
 * the base directory per leading `../`, and joins what is left.
 */
module PathResolver {
  import opened Strings

  /** The import text with one leading `./` removed, if there is one. */
  function StripCurrentDir(rel: string): (r: string)
    ensures StartsWith(rel, "./") ==> rel == "./" + r
    ensures !StartsWith(rel, "./") ==> r == rel
  {
    if StartsWith(rel, "./") then rel[2..] else rel
  }

  /** How many times the `../` loop runs on `rel`. */
  function LeadingUps(rel: string): nat
    decreases |rel|
  {
    if StartsWith(rel, "../") then 1 + LeadingUps(rel[3..]) else 0
  }

  /**
   * The import text the `../` loop leaves: each round removes three characters,
   * so the loop ends, and it ends at the first text that does not start with `../`.
   */
  function AfterUps(rel: string): (r: string)
    decreases |rel|
    ensures |r| + 3 * LeadingUps(rel) == |rel|
    ensures r == rel[3 * LeadingUps(rel)..]
    ensures !StartsWith(r, "../")
  {
    if StartsWith(rel, "../") then AfterUps(rel[3..]) else rel
  }

  /** `parts` after `n` calls of `pop()`; `pop()` on an empty array changes nothing. */
  function PopN(parts: seq<string>, n: nat): (r: seq<string>)
    ensures |r| == if n <= |parts| then |parts| - n else 0
    ensures r == parts[..|r|]
  {
    if n == 0 || |parts| == 0 then parts else PopN(parts[..|parts| - 1], n - 1)
  }

  /** The path `resolveRelativePath(base, rel)` returns, stage by stage. */
  function Resolve(base: string, rel: string): string
  {
    var stripped := StripCurrentDir(rel);
    var parts := PopN(Split(base, '/'), LeadingUps(stripped));
    var rest := AfterUps(stripped);
    if |parts| > 0 then Join(parts, '/') + "/" + rest else rest
  }

  /** `resolveRelativePath`: the loop rewrites the import and pops the base segments in place. */
  method ResolveRelativePath(basePath: string, relativePath: string) returns (r: string)
    ensures r == Resolve(basePath, relativePath)
  {
    var rel := relativePath;
    if StartsWith(rel, "./") {
      rel := rel[2..];
    }
    var parts := Split(basePath, '/');
    ghost var start := rel;
    ghost var popped := 0;
    while StartsWith(rel, "../")
      invariant LeadingUps(rel) + popped == LeadingUps(start)
      invariant AfterUps(rel) == AfterUps(start)
      invariant parts == PopN(Split(basePath, '/'), popped)
      decreases |rel|
    {
      rel := rel[3..];
      if |parts| > 0 {
        parts := parts[..|parts| - 1];
      }
      popped := popped + 1;
    }
    if |parts| > 0 {
      r := Join(parts, '/') + "/" + rel;
    } else {
      r := rel;
    }
  }

  /** An import with neither `./` nor `../` in front is appended to the whole base. */
  lemma PlainImportAppended(base: string, rel: string)
    requires !StartsWith(rel, "./") && !StartsWith(rel, "../")
    ensures Resolve(base, rel) == base + "/" + rel
  {
    JoinSplit(base, '/');
  }

  /** A leading `./` is dropped once, before any `../` is looked at. */
  lemma CurrentDirIgnored(base: string, rel: string)
    requires !StartsWith(rel, "./")
    ensures Resolve(base, "./" + rel) == Resolve(base, rel)
  {
    assert ("./" + rel)[..2] == "./";
    assert ("./" + rel)[2..] == rel;
  }

  /** A leading `../` resolves against the parent of the base directory. */
  lemma UpMovesToParent(base: string, up: string)
    requires '/' in base && StartsWith(up, "../") && !StartsWith(up[3..], "./")
    ensures Resolve(base, up) == Resolve(DropLastSegment(base, '/'), up[3..])
  {
    DropLastSegmentSplit(base, '/');
    var rel := up[3..];
    assert !StartsWith(up, "./") by {
      assert up[..3][1] == '.';
    }
    var parts := Split(base, '/');
    var n := LeadingUps(rel);
    assert PopN(parts, n + 1) == PopN(parts[..|parts| - 1], n);
  }

  /**
   * Popping past the root is a no-op: once there are at least as many `../`
   * as base segments, the result is the bare import text.
   */
  lemma UpsPastRootClamp(base: string, rel: string)
    requires LeadingUps(StripCurrentDir(rel)) >= |Split(base, '/')|
    ensures Resolve(base, rel) == AfterUps(StripCurrentDir(rel))
  {
  }

  /** `("src/utils", "helpers")` resolves to `"src/utils/helpers"`. */
  lemma PlainExample()
    ensures Resolve("src/utils", "helpers") == "src/utils" + "/" + "helpers"
  {
    var rel := "helpers";
    assert !StartsWith(rel, "./") && !StartsWith(rel, "../") by {
      assert rel[..2][0] == 'h';
    }
    PlainImportAppended("src/utils", rel);
  }

  /** `("src/utils", "./helpers")` resolves to `"src/utils/helpers"` as well. */
  lemma CurrentDirExample()
    ensures Resolve("src/utils", "./helpers") == "src/utils" + "/" + "helpers"
  {
    var rel := "helpers";
    assert !StartsWith(rel, "./") by {
      assert rel[..2][0] == 'h';
    }
    assert "./" + rel == "./helpers";
    CurrentDirIgnored("src/utils", rel);
    PlainExample();
  }

  /** The parent of `src/utils` is `src`. */
  lemma SrcUtilsParent()
    ensures '/' in "src/utils" && DropLastSegment("src/utils", '/') == "src"
  {
    LastSegmentAfter("src", '/', "utils");
    assert "src" + ['/'] + "utils" == "src/utils";
  }

  /** `("src/utils", "../core/init")` resolves to `"src/core/init"`. */
  lemma ParentDirExample()
    ensures Resolve("src/utils", "../core/init") == "src" + "/" + "core/init"
  {
    var rel := "core/init";
    assert !StartsWith(rel, "./") && !StartsWith(rel, "../") by {
      assert rel[..2][0] == 'c';
    }
    var up := "../core/init";
    assert StartsWith(up, "../") && up[3..] == rel;
    SrcUtilsParent();
    PlainImportAppended("src", rel);
    UpMovesToParent("src/utils", up);
  }

  /** `("a", "../../x")` resolves to `"x"`: the second `../` pops nothing. */
  lemma PastRootExample()
    ensures Resolve("a", "../../x") == "x"
  {
    var rel := "../../x";
    assert StartsWith(rel, "../") && rel[3..] == "../x";
    assert StartsWith("../x", "../") && "../x"[3..] == "x";
    assert !StartsWith("x", "../");
    assert !StartsWith(rel, "./") by {
      assert rel[..2][1] == '.';
    }
    assert LeadingUps(rel) == 2;
    assert AfterUps(rel) == "x";
    assert Split("a", '/') == ["a"];
    UpsPastRootClamp("a", rel);
  }

  /** An empty base is one empty segment, so `("", "x")` resolves to `"/x"`. */
  lemma EmptyBaseExample()
    ensures Resolve("", "x") == "/" + "x"
  {
    PlainImportAppended("", "x");
  }

  /** Only a leading `./` is stripped: `("a/b", ".././x")` resolves to `"a/./x"`. */
  lemma InnerCurrentDirKeptExample()
    ensures Resolve("a/b", ".././x") == "a" + "/" + "./x"
  {
    var rel := ".././x";
    assert !StartsWith(rel, "./") by {
      assert rel[..2][1] == '.';
    }
    assert StartsWith(rel, "../") && rel[3..] == "./x";
    assert !StartsWith("./x", "../") by {
      assert "./x"[..3][1] == '/';
    }
    assert LeadingUps(rel) == 1;
    assert AfterUps(rel) == "./x";
    assert LastIndexOf("a/b", '/') == 1;
    assert "a/b"[..1] == "a" && "a/b"[2..] == "b";
    assert Split("a", '/') == ["a"];
    assert Split("a/b", '/') == ["a", "b"];
    assert PopN(["a", "b"], 1) == ["a"];
  }
}
