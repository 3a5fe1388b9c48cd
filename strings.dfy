/**
 * The few JavaScript string operations the analysis engine relies on:
 * `split(sep)`, `join(sep)`, `split(sep).pop()`, `startsWith` and `toLowerCase`,
 * restricted to a single-character separator as in every call site.
 */
module Strings {

  /** Index of the last occurrence of `c` in `s`, or -1 when there is none. */
  function LastIndexOf(s: string, c: char): (r: int)
    ensures -1 <= r < |s|
    ensures r == -1 <==> c !in s
    ensures r >= 0 ==> s[r] == c
    ensures forall k :: r < k < |s| ==> s[k] != c
  {
    if |s| == 0 then -1
    else if s[|s| - 1] == c then |s| - 1
    else LastIndexOf(s[..|s| - 1], c)
  }

  /**
   * `s.split(c)`: the maximal pieces of `s` between occurrences of `c`.
   * There is always at least one piece (`"".split("/")` is `[""]`).
   */
  function Split(s: string, c: char): (parts: seq<string>)
    decreases |s|
    ensures |parts| >= 1
    ensures |parts| == 1 <==> c !in s
    ensures forall k :: 0 <= k < |parts| ==> c !in parts[k]
  {
    var j := LastIndexOf(s, c);
    if j < 0 then [s] else Split(s[..j], c) + [s[j + 1..]]
  }

  /** `parts.join(c)`; the empty list joins to the empty string. */
  function Join(parts: seq<string>, c: char): string
  {
    if |parts| == 0 then ""
    else if |parts| == 1 then parts[0]
    else Join(parts[..|parts| - 1], c) + [c] + parts[|parts| - 1]
  }

  /** `s.split(c).pop()`: the text after the last `c`, or all of `s`. */
  function LastSegment(s: string, c: char): (r: string)
    ensures c !in r
    ensures |r| <= |s| && s[|s| - |r|..] == r
    ensures |r| < |s| ==> s[|s| - |r| - 1] == c
  {
    var parts := Split(s, c);
    SplitLastPiece(s, c);
    parts[|parts| - 1]
  }

  /** The last piece of a split is the text after the last separator. */
  lemma SplitLastPiece(s: string, c: char)
    ensures Split(s, c)[|Split(s, c)| - 1] == s[LastIndexOf(s, c) + 1..]
  {
  }

  /** Joining the pieces of a split gives back the original string. */
  lemma {:induction false} JoinSplit(s: string, c: char)
    decreases |s|
    ensures Join(Split(s, c), c) == s
  {
    var j := LastIndexOf(s, c);
    if j >= 0 {
      var front := Split(s[..j], c);
      var parts := front + [s[j + 1..]];
      assert parts[..|parts| - 1] == front;
      JoinSplit(s[..j], c);
      assert s == s[..j] + [c] + s[j + 1..];
    }
  }

  /**
   * Dropping the last piece of a split and joining the rest gives the text
   * before the last separator (`parts.slice(0, -1).join(c)`).
   */
  lemma JoinSplitDropLast(s: string, c: char)
    requires c in s
    ensures var parts := Split(s, c); Join(parts[..|parts| - 1], c) == s[..LastIndexOf(s, c)]
  {
    var j := LastIndexOf(s, c);
    var parts := Split(s, c);
    assert parts[..|parts| - 1] == Split(s[..j], c);
    JoinSplit(s[..j], c);
  }

  /** The text before the last `c` of `s`, or the empty string when `s` holds no `c`. */
  function DropLastSegment(s: string, c: char): (r: string)
    ensures |r| <= |s|
    ensures c in s ==> |r| < |s|
  {
    if c in s then s[..LastIndexOf(s, c)] else ""
  }

  /** `DropLastSegment` is `s.split(c).slice(0, -1).join(c)`. */
  lemma DropLastSegmentIsJoin(s: string, c: char)
    ensures DropLastSegment(s, c) == Join(Split(s, c)[..|Split(s, c)| - 1], c)
  {
    if c in s {
      JoinSplitDropLast(s, c);
    }
  }

  /** When `s` holds a `c`, `s` is `DropLastSegment(s, c)`, a `c` and the last segment. */
  lemma DropLastSegmentRebuilds(s: string, c: char)
    requires c in s
    ensures s == DropLastSegment(s, c) + [c] + LastSegment(s, c)
  {
    var j := LastIndexOf(s, c);
    SplitLastPiece(s, c);
    assert LastSegment(s, c) == s[j + 1..];
    assert DropLastSegment(s, c) == s[..j];
    assert s == s[..j] + [c] + s[j + 1..];
  }

  /** Splitting `DropLastSegment(s, c)` gives all pieces of `s` but the last. */
  lemma DropLastSegmentSplit(s: string, c: char)
    requires c in s
    ensures Split(DropLastSegment(s, c), c) == Split(s, c)[..|Split(s, c)| - 1]
  {
    var j := LastIndexOf(s, c);
    assert DropLastSegment(s, c) == s[..j];
    var front := Split(s[..j], c);
    var all := Split(s, c);
    assert all == front + [s[j + 1..]];
    assert all[..|all| - 1] == front;
  }

  /** Text without `c` appended after `s` does not move the last `c`. */
  lemma {:induction false} LastIndexOfSkips(s: string, c: char, back: string)
    requires c !in back
    decreases |back|
    ensures LastIndexOf(s + back, c) == LastIndexOf(s, c)
  {
    if |back| > 0 {
      var t := s + back;
      var shorter := back[..|back| - 1];
      assert t[|t| - 1] == back[|back| - 1];
      assert t[..|t| - 1] == s + shorter;
      LastIndexOfSkips(s, c, shorter);
    } else {
      assert s + back == s;
    }
  }

  /**
   * When `back` holds no `c`, the last segment of `front + [c] + back` is
   * `back` and the text before it is `front`.
   */
  lemma LastSegmentAfter(front: string, c: char, back: string)
    requires c !in back
    ensures LastSegment(front + [c] + back, c) == back
    ensures DropLastSegment(front + [c] + back, c) == front
  {
    var s := front + [c] + back;
    var head := front + [c];
    LastIndexOfSkips(head, c, back);
    assert LastIndexOf(head, c) == |front|;
    SplitLastPiece(s, c);
    assert s[|front| + 1..] == back;
    assert s[..|front|] == front;
  }

  /** `s.startsWith(p)`. */
  predicate StartsWith(s: string, p: string)
  {
    |p| <= |s| && s[..|p|] == p
  }

  /** ASCII lower-casing of one character. */
  function LowerChar(ch: char): char
  {
    if 'A' <= ch <= 'Z' then (ch as int + 32) as char else ch
  }

  /** `s.toLowerCase()`, for ASCII letters. */
  function ToLower(s: string): string
  {
    seq(|s|, i requires 0 <= i < |s| => LowerChar(s[i]))
  }

  /** No upper-case ASCII letter occurs in `s`. */
  predicate IsLower(s: string)
  {
    forall i :: 0 <= i < |s| ==> !('A' <= s[i] <= 'Z')
  }

  /** Lower-casing is the identity on lower-case text and always yields lower-case text. */
  lemma ToLowerFacts(s: string)
    ensures IsLower(ToLower(s))
    ensures IsLower(s) ==> ToLower(s) == s
    ensures ToLower(ToLower(s)) == ToLower(s)
  {
  }
}
