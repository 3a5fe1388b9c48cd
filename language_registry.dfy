/**
 * The language registry: a fixed table of language configurations, an
 * extension-to-language map filled from it once, and pure lookups over that map.
 * Regular expressions are kept as data (a name standing for their source text,
 * their flags and the capture group that holds the imported path); nothing
 * here matches them.
 */
module LanguageRegistry {
  import opened Wrappers
  import opened Strings

  /** One import-statement pattern: a regular expression, its flags and the group holding the path. */
  datatype ImportPattern = ImportPattern(regex: Regex, flags: string, captureGroup: nat)

  /** The regular expressions the table uses, by name. */
  datatype Regex =
    | EsImportFrom | RequireCall | DynamicImport | ImportTypeFrom
    | FromImport | LineImport | LineImportAs | JavaImport
    | GoImport | GoImportBlock | UseCrate | UseSuper
    | UseSelf | ModDecl | UseExternal | IncludeQuoted
    | IncludeAngled | UsingDirective | RequireQuoted | RequireRelative
    | LoadQuoted | RequireOnce | IncludeString | IncludeOnce
    | UseStatement | ImportWord | SwiftImport | ImportQuoted
    | ExportQuoted | AliasWord | RequireWord | HaskellImport

  /** The source text of each regular expression. */
  function Source(r: Regex): string
  {
    match r
    case EsImportFrom => @"import\s+(?:(?:{[^}]*}|\*\s+as\s+\w+|\w+)\s+from\s+)?['""]([^'""]+)['""]"
    case RequireCall => @"require\s*\(\s*['""]([^'""]+)['""]\s*\)"
    case DynamicImport => @"import\s*\(\s*['""]([^'""]+)['""]\s*\)"
    case ImportTypeFrom => @"import\s+type\s+(?:{[^}]*}|\w+)\s+from\s+['""]([^'""]+)['""]"
    case FromImport => @"from\s+([^\s]+)\s+import"
    case LineImport => @"^import\s+([^\s]+)"
    case LineImportAs => @"^import\s+([^\s]+)\s+as"
    case JavaImport => @"import\s+(?:static\s+)?([^;]+);"
    case GoImport => @"import\s+""([^""]+)"""
    case GoImportBlock => @"import\s+\([^)]*""([^""]+)"""
    case UseCrate => @"use\s+crate::([^;]+);"
    case UseSuper => @"use\s+super::([^;]+);"
    case UseSelf => @"use\s+self::([^;]+);"
    case ModDecl => @"mod\s+([^;]+);"
    case UseExternal => @"use\s+([a-zA-Z_][a-zA-Z0-9_]*)::"
    case IncludeQuoted => @"#include\s+""([^""]+)"""
    case IncludeAngled => @"#include\s+<([^>]+)>"
    case UsingDirective => @"using\s+([^;]+);"
    case RequireQuoted => @"require\s+['""]([^'""]+)['""]"
    case RequireRelative => @"require_relative\s+['""]([^'""]+)['""]"
    case LoadQuoted => @"load\s+['""]([^'""]+)['""]"
    case RequireOnce => @"require_once\s+['""]([^'""]+)['""]"
    case IncludeString => @"include\s+['""]([^'""]+)['""]"
    case IncludeOnce => @"include_once\s+['""]([^'""]+)['""]"
    case UseStatement => @"use\s+([^;]+);"
    case ImportWord => @"import\s+([^\s]+)"
    case SwiftImport => @"import\s+(?:class|struct|enum|protocol|typealias|func|let|var)?\s*([^\s]+)"
    case ImportQuoted => @"import\s+['""]([^'""]+)['""]"
    case ExportQuoted => @"export\s+['""]([^'""]+)['""]"
    case AliasWord => @"alias\s+([^\s]+)"
    case RequireWord => @"require\s+([^\s]+)"
    case HaskellImport => @"import\s+(?:qualified\s+)?([^\s(]+)"
  }

  /** A language configuration; `moduleExtensions` and `indexFiles` are optional. */
  datatype LanguageConfig = LanguageConfig(
    name: string,
    extensions: seq<string>,
    color: string,
    importPatterns: seq<ImportPattern>,
    moduleExtensions: Option<seq<string>>,
    indexFiles: Option<seq<string>>)


  /**
   * The table, one constant per entry of the source's `LANGUAGES` record, named
   * after its key.
   */
  const JAVASCRIPT: LanguageConfig := LanguageConfig("JavaScript", ["js", "jsx", "mjs", "cjs"], "#f7df1e",
    [ImportPattern(EsImportFrom, "g", 1), ImportPattern(RequireCall, "g", 1), ImportPattern(DynamicImport, "g", 1)],
    Some([".js", ".jsx", ".mjs", ".cjs", ".json"]),
    Some(["index.js", "index.jsx", "index.mjs"]))

  const TYPESCRIPT: LanguageConfig := LanguageConfig("TypeScript", ["ts", "tsx", "mts", "cts"], "#3178c6",
    [ImportPattern(EsImportFrom, "g", 1), ImportPattern(RequireCall, "g", 1), ImportPattern(DynamicImport, "g", 1),
    ImportPattern(ImportTypeFrom, "g", 1)],
    Some([".ts", ".tsx", ".mts", ".cts", ".js", ".jsx", ".json", ".d.ts"]),
    Some(["index.ts", "index.tsx", "index.mts", "index.js"]))

  const PYTHON: LanguageConfig := LanguageConfig("Python", ["py", "pyw", "pyi"], "#3776ab",
    [ImportPattern(FromImport, "g", 1),
    ImportPattern(LineImport, "gm", 1),
    ImportPattern(LineImportAs, "gm", 1)],
    Some([".py", ".pyi"]),
    Some(["__init__.py"]))

  const JAVA: LanguageConfig := LanguageConfig("Java", ["java"], "#b07219",
    [ImportPattern(JavaImport, "g", 1)],
    Some([".java"]), None)

  const GO: LanguageConfig := LanguageConfig("Go", ["go"], "#00add8",
    [ImportPattern(GoImport, "g", 1),
    ImportPattern(GoImportBlock, "g", 1)],
    Some([".go"]), None)

  const RUST: LanguageConfig := LanguageConfig("Rust", ["rs"], "#dea584",
    [ImportPattern(UseCrate, "g", 1),
    ImportPattern(UseSuper, "g", 1),
    ImportPattern(UseSelf, "g", 1),
    ImportPattern(ModDecl, "g", 1),
    ImportPattern(UseExternal, "g", 1)],
    Some([".rs"]),
    Some(["mod.rs", "lib.rs"]))

  const C: LanguageConfig := LanguageConfig("C", ["c", "h"], "#555555",
    [ImportPattern(IncludeQuoted, "g", 1), ImportPattern(IncludeAngled, "g", 1)],
    Some([".h", ".c"]), None)

  const CPP: LanguageConfig := LanguageConfig("C++", ["cpp", "cc", "cxx", "hpp", "hh", "hxx"], "#f34b7d",
    [ImportPattern(IncludeQuoted, "g", 1), ImportPattern(IncludeAngled, "g", 1)],
    Some([".hpp", ".hh", ".hxx", ".h", ".cpp", ".cc", ".cxx"]), None)

  const CSHARP: LanguageConfig := LanguageConfig("C#", ["cs"], "#178600",
    [ImportPattern(UsingDirective, "g", 1)],
    Some([".cs"]), None)

  const RUBY: LanguageConfig := LanguageConfig("Ruby", ["rb", "rake", "gemspec"], "#cc342d",
    [ImportPattern(RequireQuoted, "g", 1),
    ImportPattern(RequireRelative, "g", 1),
    ImportPattern(LoadQuoted, "g", 1)],
    Some([".rb"]), None)

  const PHP: LanguageConfig := LanguageConfig("PHP", ["php", "phtml"], "#4f5d95",
    [ImportPattern(RequireQuoted, "g", 1),
    ImportPattern(RequireOnce, "g", 1),
    ImportPattern(IncludeString, "g", 1),
    ImportPattern(IncludeOnce, "g", 1),
    ImportPattern(UseStatement, "g", 1)],
    Some([".php"]), None)

  const KOTLIN: LanguageConfig := LanguageConfig("Kotlin", ["kt", "kts"], "#a97bff",
    [ImportPattern(ImportWord, "g", 1)],
    Some([".kt", ".kts"]), None)

  const SWIFT: LanguageConfig := LanguageConfig("Swift", ["swift"], "#ffac45",
    [ImportPattern(SwiftImport, "g", 1)],
    Some([".swift"]), None)

  const SCALA: LanguageConfig := LanguageConfig("Scala", ["scala", "sc"], "#c22d40",
    [ImportPattern(ImportWord, "g", 1)],
    Some([".scala"]), None)

  const DART: LanguageConfig := LanguageConfig("Dart", ["dart"], "#00b4ab",
    [ImportPattern(ImportQuoted, "g", 1),
    ImportPattern(ExportQuoted, "g", 1)],
    Some([".dart"]), None)

  const ELIXIR: LanguageConfig := LanguageConfig("Elixir", ["ex", "exs"], "#6e4a7e",
    [ImportPattern(ImportWord, "g", 1),
    ImportPattern(AliasWord, "g", 1),
    ImportPattern(RequireWord, "g", 1)],
    Some([".ex", ".exs"]), None)

  const HASKELL: LanguageConfig := LanguageConfig("Haskell", ["hs", "lhs"], "#5e5086",
    [ImportPattern(HaskellImport, "g", 1)],
    Some([".hs", ".lhs"]), None)

  /** The table, in declaration order (which is the order of `Object.values`). */
  const LANGUAGES: seq<LanguageConfig> := [
    JAVASCRIPT, TYPESCRIPT, PYTHON, JAVA, GO, RUST, C, CPP, CSHARP,
    RUBY, PHP, KOTLIN, SWIFT, SCALA, DART, ELIXIR, HASKELL
  ]

  /*
   * The extension-to-language map. A JavaScript `Map` remembers the order in
   * which keys were first set, and setting an existing key replaces its value
   * without moving it; `keys` and `entries` model exactly that.
   */
  datatype ExtensionMap = ExtensionMap(keys: seq<string>, entries: map<string, LanguageConfig>)

  const EMPTY_MAP := ExtensionMap([], map[])

  /** `map.set(key, lang)`. */
  function Set(m: ExtensionMap, key: string, lang: LanguageConfig): ExtensionMap
  {
    ExtensionMap(if key in m.entries then m.keys else m.keys + [key], m.entries[key := lang])
  }

  /** No string occurs twice in `s`. */
  predicate NoDup(s: seq<string>)
  {
    forall a, b :: 0 <= a < b < |s| ==> s[a] != s[b]
  }

  /** The key order lists every key of the map, each exactly once. */
  ghost predicate WellFormed(m: ExtensionMap)
  {
    NoDup(m.keys) && forall k :: k in m.keys <==> k in m.entries
  }

  /** The inner `forEach`: the map after setting the first `n` extensions of `lang`. */
  function SetExtensions(m: ExtensionMap, lang: LanguageConfig, n: nat): ExtensionMap
    requires n <= |lang.extensions|
  {
    if n == 0 then m else Set(SetExtensions(m, lang, n - 1), lang.extensions[n - 1], lang)
  }

  /** The outer `forEach`: the map after visiting the first `n` languages. */
  function Fill(langs: seq<LanguageConfig>, n: nat): ExtensionMap
    requires n <= |langs|
  {
    if n == 0 then EMPTY_MAP
    else SetExtensions(Fill(langs, n - 1), langs[n - 1], |langs[n - 1].extensions|)
  }

  /** The map built at module load. */
  const EXTENSION_TO_LANGUAGE: ExtensionMap := Fill(LANGUAGES, |LANGUAGES|)

  /**
   * The build loop at module load: every extension of every language is set,
   * in table order, later settings replacing earlier ones.
   */
  method BuildExtensionToLanguage(langs: seq<LanguageConfig>) returns (m: ExtensionMap)
    ensures m == Fill(langs, |langs|)
    ensures WellFormed(m)
    ensures forall e :: e in m.entries <==> exists i :: 0 <= i < |langs| && e in langs[i].extensions
  {
    m := EMPTY_MAP;
    for i := 0 to |langs|
      invariant m == Fill(langs, i)
    {
      var lang := langs[i];
      for j := 0 to |lang.extensions|
        invariant m == SetExtensions(Fill(langs, i), lang, j)
      {
        m := Set(m, lang.extensions[j], lang);
      }
    }
    FillWellFormed(langs, |langs|);
    FillDomain(langs, |langs|);
  }

  /** Every extension of the first `n` languages, in table order, repetitions included. */
  function ExtensionsUpTo(langs: seq<LanguageConfig>, n: nat): seq<string>
    requires n <= |langs|
  {
    if n == 0 then [] else ExtensionsUpTo(langs, n - 1) + langs[n - 1].extensions
  }

  /** No extension is listed twice, whether by one language or by two. */
  ghost predicate ExtensionsDistinct(langs: seq<LanguageConfig>)
  {
    && (forall i, x, y :: 0 <= i < |langs| && 0 <= x < y < |langs[i].extensions| ==>
          langs[i].extensions[x] != langs[i].extensions[y])
    && (forall i, j, x, y :: 0 <= i < j < |langs| && 0 <= x < |langs[i].extensions| && 0 <= y < |langs[j].extensions| ==>
          langs[i].extensions[x] != langs[j].extensions[y])
  }

  /** Setting keys keeps the key order duplicate-free and in step with the entries. */
  lemma {:induction false} SetExtensionsWellFormed(m: ExtensionMap, lang: LanguageConfig, n: nat)
    requires n <= |lang.extensions| && WellFormed(m)
    ensures WellFormed(SetExtensions(m, lang, n))
  {
    if n > 0 {
      SetExtensionsWellFormed(m, lang, n - 1);
    }
  }

  lemma {:induction false} FillWellFormed(langs: seq<LanguageConfig>, n: nat)
    requires n <= |langs|
    ensures WellFormed(Fill(langs, n))
  {
    if n > 0 {
      FillWellFormed(langs, n - 1);
      SetExtensionsWellFormed(Fill(langs, n - 1), langs[n - 1], |langs[n - 1].extensions|);
    }
  }

  /** The inner loop adds exactly the first `n` extensions, mapped to `lang`. */
  lemma {:induction false} SetExtensionsEntries(m: ExtensionMap, lang: LanguageConfig, n: nat)
    requires n <= |lang.extensions|
    ensures forall e :: e in SetExtensions(m, lang, n).entries <==> e in m.entries || e in lang.extensions[..n]
    ensures forall e :: e in lang.extensions[..n] ==> SetExtensions(m, lang, n).entries[e] == lang
    ensures forall e :: e in m.entries && e !in lang.extensions[..n] ==> SetExtensions(m, lang, n).entries[e] == m.entries[e]
  {
    if n > 0 {
      SetExtensionsEntries(m, lang, n - 1);
      assert lang.extensions[..n] == lang.extensions[..n - 1] + [lang.extensions[n - 1]];
    }
  }

  /** A key is in the map exactly when some visited language lists it. */
  lemma {:induction false} FillDomain(langs: seq<LanguageConfig>, n: nat)
    requires n <= |langs|
    ensures forall e :: e in Fill(langs, n).entries <==> exists i :: 0 <= i < n && e in langs[i].extensions
  {
    if n > 0 {
      var lang := langs[n - 1];
      FillDomain(langs, n - 1);
      SetExtensionsEntries(Fill(langs, n - 1), lang, |lang.extensions|);
      assert lang.extensions[..|lang.extensions|] == lang.extensions;
    }
  }

  /**
   * Each key maps to the last visited language that lists it: a later
   * `set` of the same key overwrites the earlier one.
   */
  lemma {:induction false} FillValue(langs: seq<LanguageConfig>, n: nat, i: nat, e: string)
    requires i < n <= |langs|
    requires e in langs[i].extensions
    requires forall j :: i < j < n ==> e !in langs[j].extensions
    ensures e in Fill(langs, n).entries && Fill(langs, n).entries[e] == langs[i]
  {
    var lang := langs[n - 1];
    SetExtensionsEntries(Fill(langs, n - 1), lang, |lang.extensions|);
    assert lang.extensions[..|lang.extensions|] == lang.extensions;
    if i < n - 1 {
      FillValue(langs, n - 1, i, e);
    }
  }

  /** Whatever a key maps to is a visited language that lists the key. */
  lemma {:induction false} FillValueListed(langs: seq<LanguageConfig>, n: nat, e: string)
    requires n <= |langs| && e in Fill(langs, n).entries
    ensures exists i :: 0 <= i < n && Fill(langs, n).entries[e] == langs[i] && e in langs[i].extensions
  {
    var lang := langs[n - 1];
    SetExtensionsEntries(Fill(langs, n - 1), lang, |lang.extensions|);
    assert lang.extensions[..|lang.extensions|] == lang.extensions;
    if e !in lang.extensions {
      FillValueListed(langs, n - 1, e);
    }
  }

  /** Setting keys that are all new appends them to the key order. */
  lemma {:induction false} SetExtensionsAppend(m: ExtensionMap, lang: LanguageConfig, k: nat)
    requires k <= |lang.extensions|
    requires forall x :: 0 <= x < k ==> lang.extensions[x] !in m.entries
    requires forall x, y :: 0 <= x < y < k ==> lang.extensions[x] != lang.extensions[y]
    ensures SetExtensions(m, lang, k).keys == m.keys + lang.extensions[..k]
  {
    if k > 0 {
      var e := lang.extensions[k - 1];
      SetExtensionsAppend(m, lang, k - 1);
      assert e !in lang.extensions[..k - 1];
      NotYetSet(m, lang, k - 1, e);
      assert lang.extensions[..k] == lang.extensions[..k - 1] + [e];
    }
  }

  /** A key that is neither in the map nor among the first `n` extensions is not set by the inner loop. */
  lemma NotYetSet(m: ExtensionMap, lang: LanguageConfig, n: nat, e: string)
    requires n <= |lang.extensions| && e !in m.entries && e !in lang.extensions[..n]
    ensures e !in SetExtensions(m, lang, n).entries
  {
    SetExtensionsEntries(m, lang, n);
  }

  /** When no extension repeats, no `set` overwrites and the keys are the extensions in table order. */
  lemma {:induction false} FillKeys(langs: seq<LanguageConfig>, n: nat)
    requires n <= |langs| && ExtensionsDistinct(langs)
    ensures Fill(langs, n).keys == ExtensionsUpTo(langs, n)
  {
    if n > 0 {
      var lang := langs[n - 1];
      FillKeys(langs, n - 1);
      FillDomain(langs, n - 1);
      assert forall x :: 0 <= x < |lang.extensions| ==> lang.extensions[x] !in Fill(langs, n - 1).entries;
      SetExtensionsAppend(Fill(langs, n - 1), lang, |lang.extensions|);
      assert lang.extensions[..|lang.extensions|] == lang.extensions;
    }
  }

  /**
   * The inverse of the table: the row and the position within it of `ext`, or
   * none. Used only to show that no extension is listed twice. The first
   * character, the last character and the length pick the candidate words, so
   * that evaluating it compares characters rather than whole strings.
   */
  ghost function Owner(ext: string): Option<(nat, nat)>
  {
    if ext == "" then None
    else match (ext[0], ext[|ext| - 1], |ext|)
      case ('j', 's', 2) => if ext == "js" then Some((0, 0)) else None
      case ('j', 'x', 3) => if ext == "jsx" then Some((0, 1)) else None
      case ('m', 's', 3) => if ext == "mjs" then Some((0, 2)) else if ext == "mts" then Some((1, 2)) else None
      case ('c', 's', 3) => if ext == "cjs" then Some((0, 3)) else if ext == "cts" then Some((1, 3)) else None
      case ('t', 's', 2) => if ext == "ts" then Some((1, 0)) else None
      case ('t', 'x', 3) => if ext == "tsx" then Some((1, 1)) else None
      case ('p', 'y', 2) => if ext == "py" then Some((2, 0)) else None
      case ('p', 'w', 3) => if ext == "pyw" then Some((2, 1)) else None
      case ('p', 'i', 3) => if ext == "pyi" then Some((2, 2)) else None
      case ('j', 'a', 4) => if ext == "java" then Some((3, 0)) else None
      case ('g', 'o', 2) => if ext == "go" then Some((4, 0)) else None
      case ('r', 's', 2) => if ext == "rs" then Some((5, 0)) else None
      case ('c', 'c', 1) => if ext == "c" then Some((6, 0)) else None
      case ('h', 'h', 1) => if ext == "h" then Some((6, 1)) else None
      case ('c', 'p', 3) => if ext == "cpp" then Some((7, 0)) else None
      case ('c', 'c', 2) => if ext == "cc" then Some((7, 1)) else None
      case ('c', 'x', 3) => if ext == "cxx" then Some((7, 2)) else None
      case ('h', 'p', 3) => if ext == "hpp" then Some((7, 3)) else None
      case ('h', 'h', 2) => if ext == "hh" then Some((7, 4)) else None
      case ('h', 'x', 3) => if ext == "hxx" then Some((7, 5)) else None
      case ('c', 's', 2) => if ext == "cs" then Some((8, 0)) else None
      case ('r', 'b', 2) => if ext == "rb" then Some((9, 0)) else None
      case ('r', 'e', 4) => if ext == "rake" then Some((9, 1)) else None
      case ('g', 'c', 7) => if ext == "gemspec" then Some((9, 2)) else None
      case ('p', 'p', 3) => if ext == "php" then Some((10, 0)) else None
      case ('p', 'l', 5) => if ext == "phtml" then Some((10, 1)) else None
      case ('k', 't', 2) => if ext == "kt" then Some((11, 0)) else None
      case ('k', 's', 3) => if ext == "kts" then Some((11, 1)) else None
      case ('s', 't', 5) => if ext == "swift" then Some((12, 0)) else None
      case ('s', 'a', 5) => if ext == "scala" then Some((13, 0)) else None
      case ('s', 'c', 2) => if ext == "sc" then Some((13, 1)) else None
      case ('d', 't', 4) => if ext == "dart" then Some((14, 0)) else None
      case ('e', 'x', 2) => if ext == "ex" then Some((15, 0)) else None
      case ('e', 's', 3) => if ext == "exs" then Some((15, 1)) else None
      case ('h', 's', 2) => if ext == "hs" then Some((16, 0)) else None
      case ('l', 's', 3) => if ext == "lhs" then Some((16, 1)) else None
      case _ => None
  }

  /**
   * Row `i` of `langs`: `Owner` maps each of its extensions back to its row
   * and position, and each is non-empty and written in lower case.
   */
  ghost predicate RowChecked(langs: seq<LanguageConfig>, i: nat)
    requires i < |langs|
  {
    |langs[i].extensions| > 0 &&
    forall x :: 0 <= x < |langs[i].extensions| ==>
      Owner(langs[i].extensions[x]) == Some((i, x)) && IsLower(langs[i].extensions[x]) && langs[i].extensions[x] != ""
  }

  /** Every row passes the checks. */
  ghost predicate RowsChecked(langs: seq<LanguageConfig>)
  {
    forall i :: 0 <= i < |langs| ==> RowChecked(langs, i)
  }

  /** Row JavaScript. */
  lemma RowJavaScript()
    ensures RowChecked(LANGUAGES, 0)
  {
  }

  /** Row TypeScript. */
  lemma RowTypeScript()
    ensures RowChecked(LANGUAGES, 1)
  {
  }

  /** Row Python. */
  lemma RowPython()
    ensures RowChecked(LANGUAGES, 2)
  {
  }

  /** Row Java. */
  lemma RowJava()
    ensures RowChecked(LANGUAGES, 3)
  {
  }

  /** Row Go. */
  lemma RowGo()
    ensures RowChecked(LANGUAGES, 4)
  {
  }

  /** Row Rust. */
  lemma RowRust()
    ensures RowChecked(LANGUAGES, 5)
  {
  }

  /** Row C. */
  lemma RowC()
    ensures RowChecked(LANGUAGES, 6)
  {
  }

  /** Row C++. */
  lemma RowCpp()
    ensures RowChecked(LANGUAGES, 7)
  {
  }

  /** Row C#. */
  lemma RowCSharp()
    ensures RowChecked(LANGUAGES, 8)
  {
  }

  /** Row Ruby. */
  lemma RowRuby()
    ensures RowChecked(LANGUAGES, 9)
  {
  }

  /** Row PHP. */
  lemma RowPhp()
    ensures RowChecked(LANGUAGES, 10)
  {
  }

  /** Row Kotlin. */
  lemma RowKotlin()
    ensures RowChecked(LANGUAGES, 11)
  {
  }

  /** Row Swift. */
  lemma RowSwift()
    ensures RowChecked(LANGUAGES, 12)
  {
  }

  /** Row Scala. */
  lemma RowScala()
    ensures RowChecked(LANGUAGES, 13)
  {
  }

  /** Row Dart. */
  lemma RowDart()
    ensures RowChecked(LANGUAGES, 14)
  {
  }

  /** Row Elixir. */
  lemma RowElixir()
    ensures RowChecked(LANGUAGES, 15)
  {
  }

  /** Row Haskell. */
  lemma RowHaskell()
    ensures RowChecked(LANGUAGES, 16)
  {
  }

  /** Every row of the table passes the checks. */
  lemma TableRowsChecked()
    ensures RowsChecked(LANGUAGES)
  {
    RowJavaScript();
    RowTypeScript();
    RowPython();
    RowJava();
    RowGo();
    RowRust();
    RowC();
    RowCpp();
    RowCSharp();
    RowRuby();
    RowPhp();
    RowKotlin();
    RowSwift();
    RowScala();
    RowDart();
    RowElixir();
    RowHaskell();
  }

  /** When every row passes the checks, no extension is listed twice: `Owner` tells any two listings apart. */
  lemma CheckedRowsDistinct(langs: seq<LanguageConfig>)
    requires RowsChecked(langs)
    ensures ExtensionsDistinct(langs)
  {
    forall i, j, x, y | 0 <= i < |langs| && 0 <= j < |langs| && 0 <= x < |langs[i].extensions| && 0 <= y < |langs[j].extensions| && (i, x) != (j, y)
      ensures langs[i].extensions[x] != langs[j].extensions[y]
    {
      assert RowChecked(langs, i) && RowChecked(langs, j);
    }
  }

  /** When every row passes the checks, an extension without an owner is listed nowhere. */
  lemma UnownedUnlisted(langs: seq<LanguageConfig>, e: string)
    requires RowsChecked(langs) && Owner(e) == None
    ensures forall i :: 0 <= i < |langs| ==> e !in langs[i].extensions
  {
    forall i | 0 <= i < |langs|
      ensures e !in langs[i].extensions
    {
      assert RowChecked(langs, i);
    }
  }

  /** When every row passes the checks, every extension is non-empty and in lower case. */
  lemma CheckedRowsLower(langs: seq<LanguageConfig>, i: nat, x: nat)
    requires RowsChecked(langs) && i < |langs| && x < |langs[i].extensions|
    ensures IsLower(langs[i].extensions[x]) && langs[i].extensions[x] != ""
  {
    assert RowChecked(langs, i);
  }

  /** No extension in the table is listed twice, so no entry of the map is ever overwritten. */
  lemma TableExtensionsDistinct()
    ensures ExtensionsDistinct(LANGUAGES)
  {
    TableRowsChecked();
    CheckedRowsDistinct(LANGUAGES);
  }

  /** Every extension of the table is non-empty and written in lower case. */
  lemma TableExtensionLower(i: nat, x: nat)
    requires i < |LANGUAGES| && x < |LANGUAGES[i].extensions|
    ensures IsLower(LANGUAGES[i].extensions[x]) && LANGUAGES[i].extensions[x] != ""
  {
    TableRowsChecked();
    CheckedRowsLower(LANGUAGES, i, x);
  }

  /** Every import pattern of the table takes the imported path from capture group 1. */
  lemma TableCaptureGroups()
    ensures forall i, k :: 0 <= i < |LANGUAGES| && 0 <= k < |LANGUAGES[i].importPatterns| ==>
      LANGUAGES[i].importPatterns[k].captureGroup == 1
  {
  }

  /** No language colour is empty or equal to the fallback colour. */
  lemma TableColors()
    ensures forall i :: 0 <= i < |LANGUAGES| ==> LANGUAGES[i].color != "" && LANGUAGES[i].color != FALLBACK_COLOR
  {
  }

  /** `getLanguageByExtension`: the language listing the lower-cased extension, or none. */
  function GetLanguageByExtension(extension: string): (r: Option<LanguageConfig>)
    ensures r.Some? <==> exists i :: 0 <= i < |LANGUAGES| && ToLower(extension) in LANGUAGES[i].extensions
    ensures r.Some? ==> r.value in LANGUAGES && ToLower(extension) in r.value.extensions
  {
    var key := ToLower(extension);
    FillDomain(LANGUAGES, |LANGUAGES|);
    if key in EXTENSION_TO_LANGUAGE.entries then
      FillValueListed(LANGUAGES, |LANGUAGES|, key);
      Some(EXTENSION_TO_LANGUAGE.entries[key])
    else
      None
  }

  /** Lookup ignores case: an extension and its lower-cased form find the same language. */
  lemma LookupIgnoresCase(extension: string)
    ensures GetLanguageByExtension(extension) == GetLanguageByExtension(ToLower(extension))
  {
    ToLowerFacts(extension);
  }

  /** Every extension a language lists finds that very language. */
  lemma LookupFindsListingLanguage(i: nat, x: nat)
    requires i < |LANGUAGES| && x < |LANGUAGES[i].extensions|
    ensures GetLanguageByExtension(LANGUAGES[i].extensions[x]) == Some(LANGUAGES[i])
  {
    var e := LANGUAGES[i].extensions[x];
    TableExtensionsDistinct();
    TableExtensionLower(i, x);
    ToLowerFacts(e);
    assert forall j :: i < j < |LANGUAGES| ==> e !in LANGUAGES[j].extensions;
    FillValue(LANGUAGES, |LANGUAGES|, i, e);
  }

  /** Every language in the table is what lookup returns for its first extension: none is shadowed. */
  lemma EveryLanguageReachable(i: nat)
    requires i < |GetAllLanguages()|
    ensures |GetAllLanguages()[i].extensions| > 0
    ensures GetLanguageByExtension(GetAllLanguages()[i].extensions[0]) == Some(GetAllLanguages()[i])
  {
    TableRowsChecked();
    assert RowChecked(LANGUAGES, i);
    LookupFindsListingLanguage(i, 0);
  }

  /** `getAllLanguages`: the configurations in table order. */
  function GetAllLanguages(): (r: seq<LanguageConfig>)
    ensures |r| == 17
    ensures forall e :: IsSupported(e) ==> GetLanguageByExtension(e).value in r
  {
    LANGUAGES
  }

  /** `isSupported`: the lower-cased extension is a key of the map. */
  function IsSupported(extension: string): (r: bool)
    ensures r <==> GetLanguageByExtension(extension).Some?
  {
    ToLower(extension) in EXTENSION_TO_LANGUAGE.entries
  }

  /** `getSupportedExtensions`: the keys of the map in insertion order. */
  function GetSupportedExtensions(): (r: seq<string>)
    ensures NoDup(r)
    ensures forall e :: e in r <==> exists i :: 0 <= i < |LANGUAGES| && e in LANGUAGES[i].extensions
  {
    FillWellFormed(LANGUAGES, |LANGUAGES|);
    FillDomain(LANGUAGES, |LANGUAGES|);
    EXTENSION_TO_LANGUAGE.keys
  }

  /** The supported extensions are the table's extensions, in table order, none left out or repeated. */
  lemma SupportedExtensionsInTableOrder()
    ensures GetSupportedExtensions() == ExtensionsUpTo(LANGUAGES, |LANGUAGES|)
  {
    TableExtensionsDistinct();
    FillKeys(LANGUAGES, |LANGUAGES|);
  }

  const FALLBACK_COLOR := "#999999"

  /** `getColorForExtension`: the language colour, or grey when the extension is unsupported. */
  function GetColorForExtension(extension: string): (r: string)
    ensures IsSupported(extension) ==> r == GetLanguageByExtension(extension).value.color
    ensures r == FALLBACK_COLOR <==> !IsSupported(extension)
  {
    var lang := GetLanguageByExtension(extension);
    TableColors();
    if lang.Some? && lang.value.color != "" then lang.value.color else FALLBACK_COLOR
  }

  /**
   * `getLanguageByPath`: the lower-cased text after the last `.` (all of the
   * path when it has no `.`); none when that text is empty.
   */
  function GetLanguageByPath(filePath: string): (r: Option<LanguageConfig>)
    ensures r == GetLanguageByExtension(LastSegment(filePath, '.'))
  {
    var ext := ToLower(LastSegment(filePath, '.'));
    ToLowerFacts(LastSegment(filePath, '.'));
    if ext == "" then
      TableRowsChecked();
      UnownedUnlisted(LANGUAGES, ToLower(""));
      UnlistedExtensionUnsupported("");
      None
    else
      GetLanguageByExtension(ext)
  }

  /** A path is classified by its last extension, whatever comes before the last dot. */
  lemma LanguageByPathUsesLastExtension(stem: string, ext: string)
    requires '.' !in ext
    ensures GetLanguageByPath(stem + "." + ext) == GetLanguageByExtension(ext)
  {
    LastSegmentAfter(stem, '.', ext);
  }

  /** An extension no language lists is not supported. */
  lemma UnlistedExtensionUnsupported(extension: string)
    requires forall i :: 0 <= i < |LANGUAGES| ==> ToLower(extension) !in LANGUAGES[i].extensions
    ensures GetLanguageByExtension(extension) == None
    ensures GetColorForExtension(extension) == FALLBACK_COLOR
  {
  }

  /** `.TSX` is looked up as `tsx`, which TypeScript lists. */
  lemma UpperCaseExtensionExample()
    ensures GetLanguageByExtension("TSX") == Some(TYPESCRIPT)
  {
    assert ToLower("TSX") == "tsx";
    LookupFindsListingLanguage(1, 1);
    LookupIgnoresCase("TSX");
  }

  /** `txt` and `md` are not supported; `md` gets the fallback colour. */
  lemma UnknownExtensionExample()
    ensures GetLanguageByExtension("txt") == None
    ensures GetColorForExtension("md") == FALLBACK_COLOR
  {
    assert ToLower("txt") == "txt";
    TableRowsChecked();
    UnownedUnlisted(LANGUAGES, "txt");
    UnlistedExtensionUnsupported("txt");
    assert ToLower("md") == "md";
    UnownedUnlisted(LANGUAGES, "md");
    UnlistedExtensionUnsupported("md");
  }

  /** `Py` gets Python's colour. */
  lemma ColorExample()
    ensures GetColorForExtension("Py") == "#3776ab"
  {
    assert ToLower("Py") == "py";
    LookupFindsListingLanguage(2, 0);
    LookupIgnoresCase("Py");
  }

  /** A path is classified by its last extension, case-insensitively. */
  lemma PathExample()
    ensures GetLanguageByPath("src/App.TSX") == Some(TYPESCRIPT)
  {
    UpperCaseExtensionExample();
    LanguageByPathUsesLastExtension("src/App", "TSX");
    assert "src/App" + "." + "TSX" == "src/App.TSX";
  }

  /** A path ending in a dot has an empty extension and no language. */
  lemma TrailingDotExample()
    ensures GetLanguageByPath("notes.") == None
  {
    LastSegmentAfter("notes", '.', "");
    assert "notes" + "." + "" == "notes.";
  }

  /** A path without a dot is looked up as a whole, as its own extension. */
  lemma DotlessPathIsExtension(filePath: string)
    requires '.' !in filePath
    ensures GetLanguageByPath(filePath) == GetLanguageByExtension(filePath)
  {
    assert LastSegment(filePath, '.') == filePath;
  }

  /** No language lists `makefile`. */
  lemma MakefileUnsupported()
    ensures GetLanguageByExtension("Makefile") == None
  {
    assert ToLower("Makefile") == "makefile";
    TableRowsChecked();
    UnownedUnlisted(LANGUAGES, "makefile");
    UnlistedExtensionUnsupported("Makefile");
  }

  /** `Makefile` has no dot and no language. */
  lemma DotlessPathExample()
    ensures GetLanguageByPath("Makefile") == None
  {
    DotlessPathIsExtension("Makefile");
    MakefileUnsupported();
  }

  /** C lists `c`. */
  lemma CExtensionExample()
    ensures GetLanguageByExtension("c") == Some(C)
  {
    assert LANGUAGES[6].extensions[0] == "c";
    LookupFindsListingLanguage(6, 0);
  }

  /** A file named `c`, without a dot, is C. */
  lemma DotlessCExample()
    ensures GetLanguageByPath("c") == Some(C)
  {
    DotlessPathIsExtension("c");
    CExtensionExample();
  }
}
