/**
 * String operations of the .NET base library that the server relies on, stated
 * ordinally over `seq<char>`: prefix, suffix and substring tests, `IndexOf`,
 * ASCII lower-casing, splitting on blanks and tabs, trimming, and the few
 * `System.IO.Path` helpers the model needs (with `/` as the only separator).
 */
module Text {

  /** The two characters `String.Split(new char[] { ' ', '\t' }, ...)` splits on. */
  predicate IsSep(c: char) {
    c == ' ' || c == '\t'
  }

  /**
   * White space as `Char.IsWhiteSpace` and the regex class `\s` see it: the
   * controls tab to carriage return, next line (U+0085), and the Unicode
   * space, line and paragraph separators.
   */
  predicate IsWhite(c: char) {
    || ('\U{9}' <= c <= '\U{D}') || c == ' ' || c == '\U{85}' || c == '\U{A0}'
    || c == '\U{1680}' || ('\U{2000}' <= c <= '\U{200A}') || c == '\U{2028}' || c == '\U{2029}'
    || c == '\U{202F}' || c == '\U{205F}' || c == '\U{3000}'
  }

  /** Ordinal `s.StartsWith(p)`. */
  predicate StartsWith(s: string, p: string) {
    |p| <= |s| && s[..|p|] == p
  }

  /** Ordinal `s.EndsWith(p)`. */
  predicate EndsWith(s: string, p: string) {
    |p| <= |s| && s[|s| - |p|..] == p
  }

  /** `p` occurs in `s` starting at position `k`. */
  predicate OccursAt(s: string, p: string, k: int) {
    0 <= k && k + |p| <= |s| && s[k..k + |p|] == p
  }

  /** `p` occurs somewhere in `s`. */
  predicate Contains(s: string, p: string) {
    exists k :: 0 <= k <= |s| && OccursAt(s, p, k)
  }

  /**
   * Ordinal `s.IndexOf(p, from)`: the first position at or after `from` where
   * `p` occurs, or -1. An empty `p` is found at `from` itself.
   */
  function IndexOf(s: string, p: string, from: nat): (r: int)
    requires from <= |s|
    ensures r == -1 || (from <= r && OccursAt(s, p, r))
    ensures r == -1 ==> forall k :: from <= k ==> !OccursAt(s, p, k)
    ensures r != -1 ==> forall k :: from <= k < r ==> !OccursAt(s, p, k)
    decreases |s| - from
  {
    if from + |p| > |s| then -1
    else if s[from..from + |p|] == p then from
    else
      assert |p| > 0;
      IndexOf(s, p, from + 1)
  }

  /** `IndexOf` from the start finds something exactly when `p` occurs in `s`. */
  lemma {:induction false} IndexOfFindsContains(s: string, p: string)
    ensures IndexOf(s, p, 0) != -1 <==> Contains(s, p)
  {
    if IndexOf(s, p, 0) != -1 {
      assert OccursAt(s, p, IndexOf(s, p, 0));
    }
  }

  /** `Char.ToLowerInvariant` restricted to ASCII letters. */
  function LowerChar(c: char): char {
    if 'A' <= c <= 'Z' then (c as int + 32) as char else c
  }

  /** `ToLowerInvariant` on a string, character by character. */
  function Lower(s: string): (r: string)
    ensures |r| == |s|
    ensures forall i :: 0 <= i < |s| ==> r[i] == LowerChar(s[i])
  {
    seq(|s|, i requires 0 <= i < |s| => LowerChar(s[i]))
  }

  /** `s.Replace("\\", "/")`. */
  function Slashed(s: string): (r: string)
    ensures |r| == |s|
    ensures forall i :: 0 <= i < |s| ==> r[i] == (if s[i] == '\\' then '/' else s[i])
  {
    seq(|s|, i requires 0 <= i < |s| => if s[i] == '\\' then '/' else s[i])
  }

  /** A token produced by the split: non-empty and free of blanks and tabs. */
  predicate IsWord(t: string) {
    |t| > 0 && forall i :: 0 <= i < |t| ==> !IsSep(t[i])
  }

  /** `s` with its leading blanks and tabs removed. */
  function SkipSeps(s: string): (r: string)
    ensures |r| <= |s| && r == s[|s| - |r|..]
    ensures r == [] || !IsSep(r[0])
    ensures forall i :: 0 <= i < |s| - |r| ==> IsSep(s[i])
  {
    if s != [] && IsSep(s[0]) then SkipSeps(s[1..]) else s
  }

  /** The length of the longest prefix of `s` without blanks or tabs. */
  function WordLen(s: string): (n: nat)
    ensures n <= |s|
    ensures forall i :: 0 <= i < n ==> !IsSep(s[i])
    ensures n == |s| || IsSep(s[n])
  {
    if s != [] && !IsSep(s[0]) then 1 + WordLen(s[1..]) else 0
  }

  /**
   * `s.Split(new char[] { ' ', '\t' }, StringSplitOptions.RemoveEmptyEntries)`:
   * the maximal runs of characters other than blank and tab, left to right.
   */
  function Tokens(s: string): (r: seq<string>)
    ensures forall k :: 0 <= k < |r| ==> IsWord(r[k])
    decreases |s|
  {
    var t := SkipSeps(s);
    if t == [] then []
    else
      var n := WordLen(t);
      var rest := Tokens(t[n..]);
      WordsCons(t[..n], rest);
      [t[..n]] + rest
  }

  /** A word in front of a list of words. */
  lemma WordsCons(w: string, ws: seq<string>)
    requires IsWord(w) && forall k :: 0 <= k < |ws| ==> IsWord(ws[k])
    ensures forall k :: 0 <= k < |ws| + 1 ==> IsWord(([w] + ws)[k])
  {
    forall k | 0 < k < |ws| + 1 ensures IsWord(([w] + ws)[k]) {
      assert ([w] + ws)[k] == ws[k - 1];
    }
  }

  /** A line holding a character other than blank and tab has at least one token. */
  lemma {:induction false} TokensNonEmpty(s: string, i: nat)
    requires i < |s| && !IsSep(s[i])
    ensures |Tokens(s)| > 0
  {
    assert SkipSeps(s) != [];
  }

  /** A word followed by a separator splits off as the first token. */
  lemma {:induction false} TokensOfWordThen(w: string, c: char, rest: string)
    requires IsWord(w) && IsSep(c)
    ensures Tokens(w + [c] + rest) == [w] + Tokens(rest)
  {
    var s := w + [c] + rest;
    var t := s[|w|..];
    assert Tokens(s) == [w] + Tokens(t) by {
      assert SkipSeps(s) == s by {
        assert s[0] == w[0];
      }
      WordLenOfWordThen(w, c, rest);
      assert s[..|w|] == w;
    }
    assert t != [] && IsSep(t[0]) && t[1..] == rest by {
      assert t == [c] + rest;
    }
    TokensSkipSep(t);
  }

  /** A leading separator does not change the tokens. */
  lemma TokensSkipSep(t: string)
    requires t != [] && IsSep(t[0])
    ensures Tokens(t) == Tokens(t[1..])
  {
    assert SkipSeps(t) == SkipSeps(t[1..]);
  }

  /** A single word is its own only token. */
  lemma {:induction false} TokensOfWord(w: string)
    requires IsWord(w)
    ensures Tokens(w) == [w]
  {
    assert SkipSeps(w) == w;
    WordLenOfWord(w);
    assert w[..|w|] == w;
    assert w[|w|..] == [];
  }

  lemma {:induction false} WordLenOfWordThen(w: string, c: char, rest: string)
    requires forall i :: 0 <= i < |w| ==> !IsSep(w[i])
    requires IsSep(c)
    ensures WordLen(w + [c] + rest) == |w|
    decreases |w|
  {
    if w != [] {
      assert (w + [c] + rest)[1..] == w[1..] + [c] + rest;
      WordLenOfWordThen(w[1..], c, rest);
    }
  }

  lemma {:induction false} WordLenOfWord(w: string)
    requires forall i :: 0 <= i < |w| ==> !IsSep(w[i])
    ensures WordLen(w) == |w|
    decreases |w|
  {
    if w != [] {
      WordLenOfWord(w[1..]);
    }
  }

  /** `s` with its leading white space removed. */
  function SkipWhite(s: string): (r: string)
    ensures |r| <= |s| && r == s[|s| - |r|..]
    ensures r == [] || !IsWhite(r[0])
    ensures forall i :: 0 <= i < |s| - |r| ==> IsWhite(s[i])
  {
    if s != [] && IsWhite(s[0]) then SkipWhite(s[1..]) else s
  }

  /** `s` with its trailing white space removed. */
  function DropTrailingWhite(s: string): (r: string)
    ensures |r| <= |s| && r == s[..|r|]
    ensures r == [] || !IsWhite(r[|r| - 1])
    ensures forall i :: |r| <= i < |s| ==> IsWhite(s[i])
  {
    if s != [] && IsWhite(s[|s| - 1]) then DropTrailingWhite(s[..|s| - 1]) else s
  }

  /** `s.Trim()`: white space removed at both ends. */
  function Trim(s: string): (r: string)
    ensures r == [] <==> IsBlank(s)
    ensures r != [] ==> !IsWhite(r[0]) && !IsWhite(r[|r| - 1])
  {
    var t := SkipWhite(s);
    assert t != [] ==> t[0] == s[|s| - |t|];
    DropTrailingWhite(t)
  }

  /** `String.IsNullOrWhiteSpace(s)` for a non-null `s`. */
  predicate IsBlank(s: string) {
    forall i :: 0 <= i < |s| ==> IsWhite(s[i])
  }

  /** The position of the first `'\n'` at or after `k` in `s`, or `|s|`. */
  function LineEnd(s: string, k: nat): (n: nat)
    requires k <= |s|
    ensures k <= n <= |s|
    ensures forall i :: k <= i < n ==> s[i] != '\n'
    ensures n == |s| || s[n] == '\n'
    decreases |s| - k
  {
    if k < |s| && s[k] != '\n' then LineEnd(s, k + 1) else k
  }

  /** The start of the line holding position `k`: just after the last `'\n'` before `k`, or 0. */
  function LineStart(s: string, k: nat): (n: nat)
    requires k <= |s|
    ensures n <= k
    ensures n == 0 || s[n - 1] == '\n'
    ensures forall i :: n <= i < k ==> s[i] != '\n'
  {
    if k == 0 || s[k - 1] == '\n' then k else LineStart(s, k - 1)
  }

  /**
   * `Regex.Replace(line, @"^\s*#.*", "")`: when the first character that is
   * not white space is `#`, everything up to the end of that line goes.
   */
  function StripComment(line: string): (r: string)
    ensures '\n' !in line ==> r == (if SkipWhite(line) != [] && SkipWhite(line)[0] == '#' then "" else line)
  {
    var t := SkipWhite(line);
    if t != [] && t[0] == '#' then
      t[LineEnd(t, 0)..]
    else line
  }

  /** A line whose first character is neither white space nor `#` is kept whole. */
  lemma {:induction false} StripCommentKeeps(line: string)
    requires line != [] && !IsWhite(line[0]) && line[0] != '#'
    ensures StripComment(line) == line
  {
    assert SkipWhite(line) == line;
  }

  /**
   * The read loops skip a line exactly when, after the comment is stripped, it
   * is blank: that is, when its first character that is not white space is `#`
   * or it has none.
   */
  lemma {:induction false} SkippedLines(line: string)
    requires '\n' !in line
    ensures IsBlank(StripComment(line)) <==> SkipWhite(line) == [] || SkipWhite(line)[0] == '#'
  {
    var t := SkipWhite(line);
    if t != [] && t[0] != '#' {
      assert line[|line| - |t|] == t[0];
    }
  }

  /** The digit character for `d`. */
  function Digit(d: nat): char
    requires d < 10
  {
    "0123456789"[d]
  }

  /** The decimal text of `n`, as `int.ToString()` writes it. */
  function NatToString(n: nat): (r: string)
    ensures |r| > 0
    ensures forall i :: 0 <= i < |r| ==> '0' <= r[i] <= '9'
  {
    if n < 10 then [Digit(n)] else NatToString(n / 10) + [Digit(n % 10)]
  }

  /** The position of the last `/` in `s`, or -1. */
  function LastSlash(s: string): (k: int)
    ensures -1 <= k < |s|
    ensures k >= 0 ==> s[k] == '/'
    ensures forall i :: k < i < |s| ==> s[i] != '/'
  {
    if s == [] then -1
    else if s[|s| - 1] == '/' then |s| - 1
    else LastSlash(s[..|s| - 1])
  }

  /** `Path.GetDirectoryName(p)` with `/` as the separator. */
  function DirName(p: string): (r: string)
    ensures '/' !in p ==> r == ""
  {
    var k := LastSlash(p);
    if k < 0 then ""
    else if k == 0 then "/"
    else p[..k]
  }

  /** `Path.Combine(a, b)` with `/` as the separator: an empty `b` gives `a`, a rooted `b` replaces `a`. */
  function Combine(a: string, b: string): (r: string)
    ensures EndsWith(r, b)
    ensures (b == [] || b[0] != '/') ==> StartsWith(r, a)
    ensures b == [] ==> r == a
  {
    if b == [] then a
    else if b[0] == '/' then b
    else if a == [] then b
    else if a[|a| - 1] == '/' then a + b
    else a + "/" + b
  }
}
