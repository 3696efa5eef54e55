/**
 * The two scorers of matcher.cs. `PathMatcher.DoMatch` walks the needle and
 * the lower-cased path from the right, taking each needle character at its
 * last possible place, and scores the embedding it finds. `GrepMatcher.DoMatch`
 * searches a file's contents ordinally and reports one record per line.
 */
module Scoring {
  import opened Results
  import opened Text
  import opened Order

  /**
   * What one `DoMatch` call leaves behind: its return value, its `score` and
   * the items it appended to `outs`; or `Fault` when it throws.
   */
  datatype Outcome = Outcome(ok: bool, score: int, outs: seq<string>) | Fault

  function Append(o: Option<seq<int>>, tail: seq<int>): Option<seq<int>> {
    match o
    case None => None
    case Some(e) => Some(e + tail)
  }

  /**
   * The embedding the right-to-left scan finds: the last character of `p` at
   * its last occurrence in `s`, the one before it at its last occurrence to the
   * left of that, and so on; `None` when the scan runs out of `s`.
   */
  function Greedy(p: string, s: string): Option<seq<int>>
    decreases |s|
  {
    if p == [] then Some([])
    else if s == [] then None
    else if s[|s| - 1] == p[|p| - 1] then
      var r := Greedy(p[..|p| - 1], s[..|s| - 1]);
      if r.Some? then Some(r.value + [|s| - 1]) else None
    else Greedy(p, s[..|s| - 1])
  }

  /** What the scan finds is an embedding of `p` in `s`. */
  lemma {:induction false} GreedyEmbeds(p: string, s: string)
    requires Greedy(p, s).Some?
    ensures Embeds(Greedy(p, s).value, p, s)
    decreases |s|
  {
    if p != [] && s != [] {
      var s' := s[..|s| - 1];
      if s[|s| - 1] == p[|p| - 1] {
        var p' := p[..|p| - 1];
        GreedyEmbeds(p', s');
        var r := Greedy(p', s').value;
        assert forall k :: 0 <= k < |r| ==> r[k] < |s| - 1 && s[r[k]] == p[k];
      } else {
        GreedyEmbeds(p, s');
      }
    }
  }

  /** A scan that succeeds finds one position per character of `p`. */
  lemma {:induction false} GreedyLength(p: string, s: string)
    ensures Greedy(p, s).Some? ==> |Greedy(p, s).value| == |p|
    decreases |s|
  {
    if p != [] && s != [] {
      if s[|s| - 1] == p[|p| - 1] {
        GreedyLength(p[..|p| - 1], s[..|s| - 1]);
      } else {
        GreedyLength(p, s[..|s| - 1]);
      }
    }
  }

  /** Whenever some embedding exists the scan finds one, and it lies pointwise at or right of every other. */
  lemma {:induction false} GreedyIsRightmost(e: seq<int>, p: string, s: string)
    requires Embeds(e, p, s)
    ensures Greedy(p, s).Some? && |Greedy(p, s).value| == |e|
    ensures forall k :: 0 <= k < |e| ==> e[k] <= Greedy(p, s).value[k]
    decreases |s|
  {
    GreedyLength(p, s);
    if p != [] {
      var n := |p| - 1;
      assert e[0] < |s|;
      var s' := s[..|s| - 1];
      if s[|s| - 1] == p[n] {
        var e' := e[..n];
        assert Embeds(e', p[..n], s') by {
          forall k | 0 <= k < n ensures e'[k] < |s'| && s'[e'[k]] == p[..n][k] {
            assert e[k] < e[n];
          }
        }
        GreedyIsRightmost(e', p[..n], s');
      } else {
        assert e[n] != |s| - 1;
        assert Embeds(e, p, s') by {
          forall k | 0 <= k < |e| ensures e[k] < |s'| && s'[e[k]] == p[k] {
            if k < n {
              assert e[k] < e[n];
            }
          }
        }
        GreedyIsRightmost(e, p, s');
      }
    }
  }

  /** The scan succeeds exactly when `p` is a subsequence of `s`. */
  lemma {:induction false} GreedyFindsSubsequence(p: string, s: string)
    ensures Greedy(p, s).Some? <==> IsSubsequence(p, s)
  {
    if IsSubsequence(p, s) {
      var e :| Embeds(e, p, s);
      GreedyIsRightmost(e, p, s);
    }
    if Greedy(p, s).Some? {
      GreedyEmbeds(p, s);
    }
  }

  lemma {:induction false} AppendNothing(o: Option<seq<int>>)
    ensures Append(o, []) == o
  {
    if o.Some? {
      assert o.value + [] == o.value;
    }
  }

  lemma {:induction false} AppendAppend(o: Option<seq<int>>, a: seq<int>, b: seq<int>)
    ensures Append(Append(o, a), b) == Append(o, a + b)
  {
    if o.Some? {
      assert o.value + a + b == o.value + (a + b);
    }
  }

  /** One step of the scan, on the prefixes `p[..i+1]` and `s[..j+1]`. */
  lemma {:induction false} GreedyStep(p: string, s: string, i: nat, j: nat)
    requires i < |p| && j < |s|
    ensures s[j] == p[i] ==> Greedy(p[..i + 1], s[..j + 1]) == Append(Greedy(p[..i], s[..j]), [j])
    ensures s[j] != p[i] ==> Greedy(p[..i + 1], s[..j + 1]) == Greedy(p[..i + 1], s[..j])
  {
    assert p[..i + 1][..i] == p[..i];
    assert s[..j + 1][..j] == s[..j];
  }

  /** How many neighbouring entries of `e` are neighbouring positions. */
  function Adjacent(e: seq<int>): (n: nat)
    ensures |e| > 0 ==> n < |e|
  {
    if |e| < 2 then 0 else (if e[1] == e[0] + 1 then 1 else 0) + Adjacent(e[1..])
  }

  /** The character of `path` just before position `k` is a `/` or a `\`. */
  predicate SepBefore(path: string, k: int) {
    0 < k <= |path| && (path[k - 1] == '/' || path[k - 1] == '\\')
  }

  /**
   * The score of `needle` against `path`: one point per needle character, one
   * more per character matched right next to the one after it, and one more
   * when the leftmost match follows a path separator; `None` when the needle
   * is not a subsequence of the lower-cased path.
   */
  function PathScore(path: string, needle: string): Option<int> {
    match Greedy(needle, Lower(path))
    case None => None
    case Some(e) =>
      var first := if e == [] then |path| else e[0];
      Some(|e| + Adjacent(e) + (if SepBefore(path, first) then 1 else 0))
  }

  /** A path scores exactly when the needle is a subsequence of the lower-cased path. */
  lemma {:induction false} PathScoreIffSubsequence(path: string, needle: string)
    ensures PathScore(path, needle).Some? <==> IsSubsequence(needle, Lower(path))
  {
    GreedyFindsSubsequence(needle, Lower(path));
  }

  /** A non-empty needle of length n scores between n and 2n. */
  lemma {:induction false} PathScoreBounds(path: string, needle: string)
    requires needle != [] && PathScore(path, needle).Some?
    ensures |needle| <= PathScore(path, needle).value <= 2 * |needle|
  {
    GreedyLength(needle, Lower(path));
  }

  /** One step of the scan keeps the embedding found so far consistent with the whole one. */
  lemma {:induction false} ScanStep(needle: string, lp: string, i: int, j: int, pos: seq<int>)
    requires 0 <= i < |needle| && 0 <= j < |lp|
    requires Greedy(needle, lp) == Append(Greedy(needle[..i + 1], lp[..j + 1]), pos)
    ensures lp[j] == needle[i] ==> Greedy(needle, lp) == Append(Greedy(needle[..i], lp[..j]), [j] + pos)
    ensures lp[j] != needle[i] ==> Greedy(needle, lp) == Append(Greedy(needle[..i + 1], lp[..j]), pos)
  {
    GreedyStep(needle, lp, i, j);
    AppendAppend(Greedy(needle[..i], lp[..j]), [j], pos);
  }

  /** A scan that used up the needle found the whole embedding; where it stopped gives the separator bonus. */
  lemma {:induction false} ScanFound(path: string, needle: string, j: int, pos: seq<int>)
    requires -1 <= j < |path|
    requires Greedy(needle, Lower(path)) == Append(Greedy(needle[..0], Lower(path)[..j + 1]), pos)
    requires if pos == [] then j == |path| - 1 else pos[0] == j + 1
    ensures IsSubsequence(needle, Lower(path))
    ensures PathScore(path, needle) ==
      Some(|pos| + Adjacent(pos) + (if j >= 0 && (path[j] == '/' || path[j] == '\\') then 1 else 0))
  {
    var lp := Lower(path);
    assert Greedy(needle, lp) == Some(pos) by {
      assert needle[..0] == [];
      assert Greedy(needle[..0], lp[..j + 1]) == Some([]);
      assert [] + pos == pos;
    }
    ScoreOfScan(path, needle, j, pos);
    assert IsSubsequence(needle, lp) by {
      GreedyFindsSubsequence(needle, lp);
    }
  }

  /** The score of the embedding a scan found, with the separator bonus read off where the scan stopped. */
  lemma {:induction false} ScoreOfScan(path: string, needle: string, j: int, pos: seq<int>)
    requires -1 <= j < |path|
    requires Greedy(needle, Lower(path)) == Some(pos)
    requires if pos == [] then j == |path| - 1 else pos[0] == j + 1
    ensures PathScore(path, needle) ==
      Some(|pos| + Adjacent(pos) + (if j >= 0 && (path[j] == '/' || path[j] == '\\') then 1 else 0))
  {
    var first := if pos == [] then |path| else pos[0];
    assert SepBefore(path, first) <==> j >= 0 && (path[j] == '/' || path[j] == '\\');
  }

  /** A scan that used up the path before the needle found no embedding. */
  lemma {:induction false} ScanMissing(path: string, needle: string, i: int, pos: seq<int>)
    requires 0 <= i < |needle|
    requires Greedy(needle, Lower(path)) == Append(Greedy(needle[..i + 1], Lower(path)[..0]), pos)
    ensures !IsSubsequence(needle, Lower(path))
  {
    var lp := Lower(path);
    assert lp[..0] == [];
    GreedyFindsSubsequence(needle, lp);
  }

  /** The loop of `PathMatcher.DoMatch`: it walks the path right to left, matching needle characters greedily and counting the score. */
  method ScanBack(path: string, needle: string) returns (i: int, j: int, score: int, ghost pos: seq<int>)
    ensures -1 <= i < |needle| && -1 <= j < |path| && (i == -1 || j == -1)
    ensures Greedy(needle, Lower(path)) == Append(Greedy(needle[..i + 1], Lower(path)[..j + 1]), pos)
    ensures score == |pos| + Adjacent(pos)
    ensures i == -1 ==> if pos == [] then j == |path| - 1 else pos[0] == j + 1
  {
    i := |needle| - 1;
    j := |path| - 1;
    score := 0;
    var matched := false;
    ghost var lp := Lower(path);
    pos := [];
    assert needle[..|needle|] == needle && lp[..|path|] == lp;
    AppendNothing(Greedy(needle, lp));
    while i >= 0 && j >= 0
      invariant -1 <= i < |needle| && -1 <= j < |path|
      invariant |pos| == |needle| - 1 - i
      invariant forall k :: 0 <= k < |pos| ==> j < pos[k]
      invariant Greedy(needle, lp) == Append(Greedy(needle[..i + 1], lp[..j + 1]), pos)
      invariant score == |pos| + Adjacent(pos)
      invariant matched == (|pos| > 0 && pos[0] == j + 1)
      invariant i == -1 ==> if pos == [] then j == |path| - 1 else pos[0] == j + 1
      decreases j
    {
      ScanStep(needle, lp, i, j, pos);
      if LowerChar(path[j]) == needle[i] {
        i := i - 1;
        score := score + 1;
        if matched {
          score := score + 1;
        }
        matched := true;
        assert ([j] + pos)[1..] == pos;
        pos := [j] + pos;
      } else {
        matched := false;
      }
      j := j - 1;
    }
  }

  /** `PathMatcher.DoMatch`: the right-to-left scan with its running score, plus the separator bonus. */
  method PathDoMatch(path: string, needle: string) returns (r: Outcome)
    ensures r.Outcome?
    ensures r.ok <==> IsSubsequence(needle, Lower(path))
    ensures r.ok ==> PathScore(path, needle) == Some(r.score) && r.outs == [Slashed(path)]
    ensures !r.ok ==> r.outs == []
  {
    var i, j, score, pos := ScanBack(path, needle);
    if i == -1 {
      ScanFound(path, needle, j, pos);
      if j >= 0 && (path[j] == '/' || path[j] == '\\') {
        score := score + 1;
      }
      r := Outcome(true, score, [Slashed(path)]);
    } else {
      ScanMissing(path, needle, i, pos);
      r := Outcome(false, score, []);
    }
  }

  /** The scan takes the last character of `s` when it is the last one of `p`. */
  lemma {:induction false} GreedyTake(p: string, s: string)
    requires p != [] && s != [] && s[|s| - 1] == p[|p| - 1]
    ensures Greedy(p, s) == Append(Greedy(p[..|p| - 1], s[..|s| - 1]), [|s| - 1])
  {
  }

  /** The scan skips the last character of `s` when it is not the last one of `p`. */
  lemma {:induction false} GreedySkip(p: string, s: string)
    requires p != [] && s != [] && s[|s| - 1] != p[|p| - 1]
    ensures Greedy(p, s) == Greedy(p, s[..|s| - 1])
  {
  }

  /** Lower-casing leaves a string without capitals as it is. */
  lemma {:induction false} LowerKeeps(s: string)
    requires forall i :: 0 <= i < |s| ==> !('A' <= s[i] <= 'Z')
    ensures Lower(s) == s
  {
  }

  /** Two characters matched side by side score one point each and one for being neighbours. */
  lemma {:induction false} ContiguityBonus(path: string, needle: string)
    requires path == "ab" && needle == "ab"
    ensures PathScore(path, needle) == Some(3)
  {
    ContiguousEmbedding(path, needle);
    assert Adjacent([0, 1]) == 1 by {
      assert [0, 1][1..] == [1];
    }
    ScoreOfScan(path, needle, -1, [0, 1]);
  }

  /** The scan of `ab` against `ab` takes both characters. */
  lemma {:induction false} ContiguousEmbedding(path: string, needle: string)
    requires path == "ab" && needle == "ab"
    ensures Greedy(needle, Lower(path)) == Some([0, 1])
  {
    assert Greedy("a", "a") == Some([0]) by {
      assert "a"[..0] == "";
      GreedyTake("a", "a");
      assert [] + [0] == [0];
    }
    LowerKeeps(path);
    assert "ab"[..1] == "a";
    GreedyTake("ab", "ab");
    assert [0] + [1] == [0, 1];
  }

  /** The same two characters apart score only their count: a contiguous match outscores them. */
  lemma {:induction false} ScatteredScore(path: string, needle: string)
    requires path == "axb" && needle == "ab"
    ensures PathScore(path, needle) == Some(2)
  {
    ScatteredEmbedding(path, needle);
    assert Adjacent([0, 2]) == 0 by {
      assert [0, 2][1..] == [2];
    }
    ScoreOfScan(path, needle, -1, [0, 2]);
  }

  /** The scan of `ab` against `axb` skips the `x`. */
  lemma {:induction false} ScatteredEmbedding(path: string, needle: string)
    requires path == "axb" && needle == "ab"
    ensures Greedy(needle, Lower(path)) == Some([0, 2])
  {
    assert Greedy("a", "ax") == Some([0]) by {
      assert "a"[..0] == "" && "ax"[..1] == "a";
      GreedySkip("a", "ax");
      GreedyTake("a", "a");
      assert [] + [0] == [0];
    }
    LowerKeeps(path);
    assert "ab"[..1] == "a" && "axb"[..2] == "ax";
    GreedyTake("ab", "axb");
    assert [0] + [2] == [0, 2];
  }

  /** A match right after a separator gets one point more */
  lemma {:induction false} BoundaryBonus(path: string, needle: string)
    requires path == "a/b" && needle == "b"
    ensures PathScore(path, needle) == Some(2)
  {
    assert Greedy(needle, Lower(path)) == Some([2]) by {
      LowerKeeps(path);
      assert "b"[..0] == "" && "a/b"[..2] == "a/";
      GreedyTake("b", "a/b");
      assert [] + [2] == [2];
    }
    ScoreOfScan(path, needle, 1, [2]);
  }

  /** The same match inside a name does not. */
  lemma {:induction false} NoBoundaryBonus(path: string, needle: string)
    requires path == "ab" && needle == "b"
    ensures PathScore(path, needle) == Some(1)
  {
    assert Greedy(needle, Lower(path)) == Some([1]) by {
      LowerKeeps(path);
      assert "b"[..0] == "" && "ab"[..1] == "a";
      GreedyTake("b", "ab");
      assert [] + [1] == [1];
    }
    ScoreOfScan(path, needle, 0, [1]);
  }

  /**
   * The text a record shows for a hit at `o`: its line without the line
   * break, and, on a last line that has no break, without its last character
   * either.
   */
  function LineText(c: string, o: nat): (t: string)
    requires o < |c| && c[o] != '\n'
    ensures LineEnd(c, o) < |c| ==> t == c[LineStart(c, o)..LineEnd(c, o)]
    ensures LineEnd(c, o) == |c| ==> t == c[LineStart(c, o)..|c| - 1]
  {
    var e := LineEnd(c, o);
    if e < |c| then c[LineStart(c, o)..e] else c[LineStart(c, o)..|c| - 1]
  }

  /** The record for a hit at `o`: `path(o+1):line`, with `\` written as `/` in the path. */
  function Record(path: string, c: string, o: nat): string
    requires o < |c| && c[o] != '\n'
  {
    Slashed(path) + "(" + NatToString(o + 1) + "):" + LineText(c, o)
  }

  /** Positions at which a hit can be reported. */
  predicate Reportable(c: string, os: seq<nat>) {
    forall k :: 0 <= k < |os| ==> os[k] < |c| && c[os[k]] != '\n'
  }

  function Records(path: string, c: string, os: seq<nat>): (r: seq<string>)
    requires Reportable(c, os)
    ensures |r| == |os| && forall k :: 0 <= k < |os| ==> r[k] == Record(path, c, os[k])
  {
    seq(|os|, k requires 0 <= k < |os| => Record(path, c, os[k]))
  }

  /** The hit positions a scan reports, or `Thrown` when it indexes out of range. */
  datatype Scan = Hits(offsets: seq<nat>) | Thrown

  function Prepend(pre: seq<nat>, s: Scan): Scan {
    match s
    case Thrown => Thrown
    case Hits(os) => Hits(pre + os)
  }

  /**
   * The search loop of `GrepMatcher.DoMatch` from position `from` on: find the
   * next occurrence, report it, resume at the start of the next line, and stop
   * once fewer than two characters remain. Reporting throws when the hit lies
   * at the very end or on a line break (possible only for an empty needle or
   * one starting with a line break).
   */
  function GrepScan(c: string, needle: string, from: nat): (r: Scan)
    requires from <= |c|
    ensures r.Hits? ==> Reportable(c, r.offsets)
    decreases |c| - from
  {
    var o := IndexOf(c, needle, from);
    if o == -1 then Hits([])
    else if o == |c| || c[o] == '\n' then Thrown
    else
      var next := NextLine(c, o);
      if next + 1 >= |c| then Hits([o])
      else
        var rest := GrepScan(c, needle, next);
        ReportablePrepend(c, o, rest);
        Prepend([o], rest)
  }

  /** Where the scan resumes after a hit at `o`: past the line break ending its line, or at the end. */
  function NextLine(c: string, o: nat): (next: nat)
    requires o <= |c|
    ensures o < next <= |c| || next == o == |c|
  {
    if LineEnd(c, o) < |c| then LineEnd(c, o) + 1 else |c|
  }

  lemma ReportablePrepend(c: string, o: nat, rest: Scan)
    requires o < |c| && c[o] != '\n' && (rest.Hits? ==> Reportable(c, rest.offsets))
    ensures Prepend([o], rest).Hits? ==> Reportable(c, Prepend([o], rest).offsets)
  {
    if rest.Hits? {
      ReportableCons(c, o, rest.offsets);
    }
  }

  lemma {:induction false} ReportableCons(c: string, o: nat, os: seq<nat>)
    requires o < |c| && c[o] != '\n' && Reportable(c, os)
    ensures Reportable(c, [o] + os)
  {
    forall k | 0 < k < |os| + 1 ensures ([o] + os)[k] < |c| && c[([o] + os)[k]] != '\n' {
      assert ([o] + os)[k] == os[k - 1];
    }
  }

  /** Every reported offset is an occurrence of the needle at or after `from`. */
  lemma {:induction false} GrepScanHits(c: string, needle: string, from: nat)
    requires from <= |c| && GrepScan(c, needle, from).Hits?
    ensures var os := GrepScan(c, needle, from).offsets;
      forall k :: 0 <= k < |os| ==> from <= os[k] && OccursAt(c, needle, os[k])
    decreases |c| - from
  {
    var o := IndexOf(c, needle, from);
    if o != -1 {
      var next := NextLine(c, o);
      GrepScanStep(c, needle, from, o, next);
      if next + 1 < |c| {
        GrepScanHits(c, needle, next);
      }
    }
  }

  /** The scan reports something exactly when the needle occurs at or after `from`. */
  lemma {:induction false} GrepScanFindsAny(c: string, needle: string, from: nat)
    requires from <= |c| && GrepScan(c, needle, from).Hits?
    ensures GrepScan(c, needle, from).offsets != [] <==> exists k :: from <= k && OccursAt(c, needle, k)
  {
    var o := IndexOf(c, needle, from);
    if o != -1 {
      var next := NextLine(c, o);
      GrepScanStep(c, needle, from, o, next);
      assert OccursAt(c, needle, o);
    }
  }

  /**
   * `GrepMatcher.DoMatch` for `path`, against the contents loaded so far: no
   * match while the file is not loaded; otherwise score 100 and one record per
   * hit of the scan when there is a hit, score 0 and nothing when there is none.
   */
  function GrepOutcome(contents: map<string, string>, path: string, needle: string): (o: Outcome)
    ensures o.Outcome? ==> (o.ok <==> o.outs != []) && o.score == (if o.ok then 100 else 0)
  {
    if path !in contents then Outcome(false, 0, [])
    else
      var c := contents[path];
      match GrepScan(c, needle, 0)
      case Thrown => Fault
      case Hits(os) => Outcome(os != [], if os == [] then 0 else 100, Records(path, c, os))
  }

  lemma {:induction false} PrependPrepend(a: seq<nat>, b: seq<nat>, s: Scan)
    ensures Prepend(a, Prepend(b, s)) == Prepend(a + b, s)
  {
    if s.Hits? {
      assert a + (b + s.offsets) == (a + b) + s.offsets;
    }
  }

  /** The forward scan of the loop stops exactly at `LineEnd`. */
  lemma {:induction false} IsLineEnd(c: string, k: nat, e: nat)
    requires k <= e <= |c|
    requires forall i :: k <= i < e ==> c[i] != '\n'
    requires e == |c| || c[e] == '\n'
    ensures e == LineEnd(c, k)
  {
  }

  /** The backward scan of the loop, with its correction, stops exactly at `LineStart`. */
  lemma {:induction false} IsLineStart(c: string, o: nat, st: nat)
    requires st <= o <= |c|
    requires st == 0 || c[st - 1] == '\n'
    requires forall i :: st <= i < o ==> c[i] != '\n'
    ensures st == LineStart(c, o)
  {
  }

  lemma {:induction false} RecordsAppend(path: string, c: string, os: seq<nat>, o: nat)
    requires Reportable(c, os) && o < |c| && c[o] != '\n'
    ensures Reportable(c, os + [o])
    ensures Records(path, c, os + [o]) == Records(path, c, os) + [Record(path, c, o)]
  {
  }

  /** One report of the scan: the hit at `o`, then the rest from `next`. */
  lemma {:induction false} GrepScanStep(c: string, needle: string, from: nat, o: nat, next: nat)
    requires from <= |c| && o == IndexOf(c, needle, from) && o < |c| && c[o] != '\n'
    requires next == NextLine(c, o)
    ensures next <= |c|
    ensures next + 1 >= |c| ==> GrepScan(c, needle, from) == Hits([o])
    ensures next + 1 < |c| ==> GrepScan(c, needle, from) == Prepend([o], GrepScan(c, needle, next))
  {
  }

  /** A scan that finds nothing more from `from` on. */
  lemma {:induction false} GrepScanEnd(contents: map<string, string>, path: string, needle: string, found: seq<nat>)
    requires path in contents && GrepScan(contents[path], needle, 0) == Hits(found)
    ensures GrepOutcome(contents, path, needle) ==
      Outcome(found != [], if found == [] then 0 else 100, Records(path, contents[path], found))
  {
  }

  /**
   * The two inner scans of `GrepMatcher.DoMatch` around a hit at `o`: forward
   * past the end of its line, backward to its start. `fault` says that taking
   * the line out throws, which happens exactly when the hit lies at the very
   * end or on a line break.
   */
  method LineAround(c: string, o: nat) returns (fault: bool, start: nat, eidx: nat)
    requires o <= |c|
    ensures eidx == NextLine(c, o)
    ensures fault <==> o == |c| || c[o] == '\n'
    ensures !fault ==> start <= eidx - 1 && c[start..eidx - 1] == LineText(c, o)
  {
    eidx := o;
    while eidx < |c| && c[eidx] != '\n'
      invariant o <= eidx <= |c|
      invariant forall i :: o <= i < eidx ==> c[i] != '\n'
      decreases |c| - eidx
    {
      eidx := eidx + 1;
    }
    IsLineEnd(c, o, eidx);
    if eidx != |c| {
      eidx := eidx + 1;
    }
    if o == |c| {
      return true, 0, eidx;
    }
    var idx := o;
    while idx > 0 && c[idx] != '\n'
      invariant 0 <= idx <= o
      invariant forall i :: idx < i <= o ==> c[i] != '\n'
      decreases idx
    {
      idx := idx - 1;
    }
    if c[idx] == '\n' {
      idx := idx + 1;
    }
    if eidx - idx - 1 < 0 {
      return true, 0, eidx;
    }
    IsLineStart(c, o, idx);
    return false, idx, eidx;
  }

  /**
   * The state of the search loop of `GrepMatcher.DoMatch` at position `idx`:
   * `found` holds the hits reported so far, `outs` their lines, and the scan
   * from `idx` on reports the rest.
   */
  ghost predicate Grepping(contents: map<string, string>, path: string, needle: string, idx: int,
                           found: seq<nat>, outs: seq<string>, ret: bool, score: int)
  {
    && path in contents && 0 <= idx <= |contents[path]|
    && Reportable(contents[path], found)
    && GrepScan(contents[path], needle, 0) == Prepend(found, GrepScan(contents[path], needle, idx))
    && outs == Records(path, contents[path], found)
    && ret == (found != []) && score == (if ret then 100 else 0)
  }

  /** A hit reported at `o`: either the loop goes on from the next line, or it stops with every hit reported. */
  lemma GreppingStep(contents: map<string, string>, path: string, needle: string, idx: int,
                     found: seq<nat>, outs: seq<string>, ret: bool, score: int, o: nat, next: nat)
    requires Grepping(contents, path, needle, idx, found, outs, ret, score)
    requires o == IndexOf(contents[path], needle, idx) && o < |contents[path]| && contents[path][o] != '\n'
    requires next == NextLine(contents[path], o)
    ensures Reportable(contents[path], found + [o])
    ensures next + 1 < |contents[path]| ==>
      Grepping(contents, path, needle, next, found + [o], outs + [Record(path, contents[path], o)], true, 100)
    ensures next + 1 >= |contents[path]| ==>
      GrepOutcome(contents, path, needle) == Outcome(true, 100, outs + [Record(path, contents[path], o)])
  {
    var c := contents[path];
    RecordsAppend(path, c, found, o);
    GrepScanStep(c, needle, idx, o, next);
    if next + 1 < |c| {
      PrependPrepend(found, [o], GrepScan(c, needle, next));
    } else {
      GrepScanEnd(contents, path, needle, found + [o]);
    }
  }

  /** The loop stops where no occurrence is left, with every hit reported. */
  lemma GreppingEnd(contents: map<string, string>, path: string, needle: string, idx: int,
                    found: seq<nat>, outs: seq<string>, ret: bool, score: int)
    requires Grepping(contents, path, needle, idx, found, outs, ret, score)
    requires IndexOf(contents[path], needle, idx) == -1
    ensures GrepOutcome(contents, path, needle) == Outcome(ret, score, outs)
  {
    assert found + [] == found;
    GrepScanEnd(contents, path, needle, found);
  }

  /** A hit at the very end or on a line break: taking its line out throws. */
  lemma GreppingFault(contents: map<string, string>, path: string, needle: string, idx: int,
                      found: seq<nat>, outs: seq<string>, ret: bool, score: int, o: int)
    requires Grepping(contents, path, needle, idx, found, outs, ret, score)
    requires o == IndexOf(contents[path], needle, idx) && o != -1
    requires o == |contents[path]| || contents[path][o] == '\n'
    ensures GrepOutcome(contents, path, needle) == Fault
  {
  }

  /** `GrepMatcher.DoMatch`: the search loop over the file's stored contents. */
  method GrepDoMatch(contents: map<string, string>, path: string, needle: string) returns (r: Outcome)
    ensures r == GrepOutcome(contents, path, needle)
  {
    if path !in contents {
      return Outcome(false, 0, []);
    }
    var c := contents[path];
    var score := 0;
    var ret := false;
    var outs: seq<string> := [];
    var idx := 0;
    ghost var found: seq<nat> := [];
    assert Prepend([], GrepScan(c, needle, 0)) == GrepScan(c, needle, 0) by {
      PrependPrepend([], [], GrepScan(c, needle, 0));
    }
    while true
      invariant Grepping(contents, path, needle, idx, found, outs, ret, score)
      decreases |c| - idx
    {
      ghost var from := idx;
      idx := IndexOf(c, needle, idx);
      if idx == -1 {
        GreppingEnd(contents, path, needle, from, found, outs, ret, score);
        return Outcome(ret, score, outs);
      }
      var oidx := idx;
      var fault, start, eidx := LineAround(c, oidx);
      if fault {
        GreppingFault(contents, path, needle, from, found, outs, ret, score, oidx);
        return Fault;
      }
      GreppingStep(contents, path, needle, from, found, outs, ret, score, oidx, eidx);
      outs := outs + [Slashed(path) + "(" + NatToString(oidx + 1) + "):" + c[start..eidx - 1]];
      found := found + [oidx];
      score := 100;
      idx := eidx;
      ret := true;
      if idx + 1 >= |c| {
        return Outcome(ret, score, outs);
      }
    }
  }

  /** A scan for a non-empty needle without line breaks never throws. */
  lemma {:induction false} GrepNeverThrows(c: string, needle: string, from: nat)
    requires from <= |c| && needle != [] && '\n' !in needle
    ensures GrepScan(c, needle, from).Hits?
    decreases |c| - from
  {
    var o := IndexOf(c, needle, from);
    if o != -1 {
      assert o < |c| && c[o] != '\n' by {
        assert c[o] == needle[0];
      }
      var next := NextLine(c, o);
      GrepScanStep(c, needle, from, o, next);
      if next + 1 < |c| {
        GrepNeverThrows(c, needle, next);
      }
    }
  }

  /** A position at the start of a line: the first, or just after a line break. */
  predicate AtLineStart(c: string, k: nat) {
    k == 0 || (k <= |c| && c[k - 1] == '\n')
  }

  /** The first hit from a line start lies on a line that starts at or after it. */
  lemma {:induction false} FirstHitLine(c: string, needle: string, from: nat)
    requires from <= |c| && AtLineStart(c, from)
    requires IndexOf(c, needle, from) != -1
    ensures from <= LineStart(c, IndexOf(c, needle, from))
  {
  }

  /** Every offset of `os` is the first occurrence of the needle in its line. */
  predicate FirstInLines(c: string, needle: string, os: seq<nat>)
    requires Reportable(c, os)
  {
    forall k, q :: 0 <= k < |os| && LineStart(c, os[k]) <= q < os[k] ==> !OccursAt(c, needle, q)
  }

  /** Each reported offset is the first occurrence of the needle in its line. */
  lemma {:induction false} GrepHitsFirstInLine(c: string, needle: string, from: nat)
    requires from <= |c| && AtLineStart(c, from)
    requires GrepScan(c, needle, from).Hits?
    ensures FirstInLines(c, needle, GrepScan(c, needle, from).offsets)
    decreases |c| - from
  {
    var o := IndexOf(c, needle, from);
    if o != -1 {
      var next := NextLine(c, o);
      var os := GrepScan(c, needle, from).offsets;
      assert o < |c| && c[o] != '\n';
      assert FirstInLines(c, needle, [o]) by {
        FirstHitLine(c, needle, from);
      }
      if next + 1 < |c| {
        var rest := GrepScan(c, needle, next);
        assert rest.Hits? && os == [o] + rest.offsets by {
          GrepScanStep(c, needle, from, o, next);
        }
        GrepHitsFirstInLine(c, needle, next);
        FirstInLineCons(c, needle, o, rest.offsets);
      } else {
        assert os == [o] by {
          GrepScanStep(c, needle, from, o, next);
        }
      }
    }
  }

  /** A hit first in its line, before hits first in theirs. */
  lemma {:induction false} FirstInLineCons(c: string, needle: string, o: nat, rest: seq<nat>)
    requires Reportable(c, [o]) && Reportable(c, rest) && Reportable(c, [o] + rest)
    requires FirstInLines(c, needle, [o]) && FirstInLines(c, needle, rest)
    ensures FirstInLines(c, needle, [o] + rest)
  {
    var os := [o] + rest;
    forall k, q | 0 <= k < |os| && LineStart(c, os[k]) <= q < os[k] ensures !OccursAt(c, needle, q) {
      if k > 0 {
        assert os[k] == rest[k - 1];
      } else {
        assert os[k] == [o][0];
      }
    }
  }

  /** Every offset of `os` lies on an earlier line than every later one. */
  predicate OnDistinctLines(c: string, os: seq<nat>)
    requires Reportable(c, os)
  {
    forall k, l :: 0 <= k < l < |os| ==> os[k] < LineStart(c, os[l])
  }

  /** Position `o` lies before the lines of all offsets of `os`. */
  predicate BeforeLines(c: string, o: nat, os: seq<nat>)
    requires Reportable(c, os)
  {
    forall l :: 0 <= l < |os| ==> o < LineStart(c, os[l])
  }

  /** Each reported offset lies on an earlier line than every later one. */
  lemma {:induction false} GrepHitsOnDistinctLines(c: string, needle: string, from: nat)
    requires from <= |c|
    requires GrepScan(c, needle, from).Hits?
    ensures OnDistinctLines(c, GrepScan(c, needle, from).offsets)
    decreases |c| - from
  {
    var o := IndexOf(c, needle, from);
    if o != -1 {
      var e := LineEnd(c, o);
      var next := NextLine(c, o);
      GrepScanStep(c, needle, from, o, next);
      if next + 1 < |c| {
        GrepHitsOnDistinctLines(c, needle, next);
        var rest := GrepScan(c, needle, next).offsets;
        assert BeforeLines(c, o, rest) by {
          GrepScanHits(c, needle, next);
          forall l | 0 <= l < |rest| ensures o < LineStart(c, rest[l]) {
            BreakBefore(c, e, rest[l]);
          }
        }
        DistinctLinesCons(c, o, rest);
      }
    }
  }

  /** A position past a line break lies on a line starting after it. */
  lemma {:induction false} BreakBefore(c: string, e: nat, q: nat)
    requires e < q <= |c| && c[e] == '\n'
    ensures e < LineStart(c, q)
  {
  }

  /** An offset lying before the lines of all later ones keeps the offsets on distinct lines. */
  lemma {:induction false} DistinctLinesCons(c: string, o: nat, rest: seq<nat>)
    requires o < |c| && c[o] != '\n' && Reportable(c, rest)
    requires BeforeLines(c, o, rest) && OnDistinctLines(c, rest)
    ensures Reportable(c, [o] + rest) && OnDistinctLines(c, [o] + rest)
  {
    var os := [o] + rest;
    assert Reportable(c, os) by {
      forall k | 0 <= k < |os| ensures os[k] < |c| && c[os[k]] != '\n' {
        if k > 0 {
          assert os[k] == rest[k - 1];
        }
      }
    }
    forall k, l | 0 <= k < l < |os| ensures os[k] < LineStart(c, os[l]) {
      assert os[l] == rest[l - 1];
      if k > 0 {
        assert os[k] == rest[k - 1];
      }
    }
  }

  lemma ConsIndex(o: nat, rest: seq<nat>, k: nat)
    requires k < |rest|
    ensures ([o] + rest)[k + 1] == rest[k]
  {
  }

  /** Two positions with no line break between them are on the same line. */
  lemma {:induction false} SameLine(c: string, o: nat, q: nat)
    requires o <= q <= |c|
    requires forall i :: o <= i < q ==> c[i] != '\n'
    ensures LineStart(c, q) == LineStart(c, o)
    decreases q - o
  {
    if o < q {
      SameLine(c, o, q - 1);
    }
  }

  /**
   * For a needle of at least two characters and no line break, every line of
   * the contents holding the needle gets a record.
   */
  lemma {:induction false} GrepComplete(c: string, needle: string, from: nat, q: nat)
    requires from <= q && OccursAt(c, needle, q)
    requires |needle| >= 2 && '\n' !in needle
    ensures GrepScan(c, needle, from).Hits?
    ensures var os := GrepScan(c, needle, from).offsets;
      exists k :: 0 <= k < |os| && LineStart(c, os[k]) == LineStart(c, q)
    decreases |c| - from
  {
    GrepNeverThrows(c, needle, from);
    var os := GrepScan(c, needle, from).offsets;
    var o := IndexOf(c, needle, from);
    assert o != -1 && o <= q && o < |c| && c[o] != '\n' by {
      assert c[o] == needle[0];
    }
    var e := LineEnd(c, o);
    var next := NextLine(c, o);
    if e < q {
      var rest := GrepScan(c, needle, next).offsets;
      assert os == [o] + rest by {
        GrepScanStep(c, needle, from, o, next);
      }
      GrepComplete(c, needle, next, q);
      var k :| 0 <= k < |rest| && LineStart(c, rest[k]) == LineStart(c, q);
      ConsIndex(o, rest, k);
    } else {
      assert os[0] == o by {
        GrepScanStep(c, needle, from, o, next);
      }
      SameLine(c, o, q);
    }
  }

  /**
   * For a loaded file and a non-empty needle without line breaks, the match
   * succeeds, with score 100, exactly when the needle occurs in the contents,
   * and gives one record per reported hit.
   */
  lemma {:induction false} GrepMatchesIffContains(contents: map<string, string>, path: string, needle: string)
    requires path in contents && needle != [] && '\n' !in needle
    ensures GrepOutcome(contents, path, needle).Outcome?
    ensures GrepOutcome(contents, path, needle).ok <==> Contains(contents[path], needle)
    ensures GrepOutcome(contents, path, needle).ok ==> GrepOutcome(contents, path, needle).score == 100
    ensures |GrepOutcome(contents, path, needle).outs| == |GrepScan(contents[path], needle, 0).offsets|
  {
    GrepNeverThrows(contents[path], needle, 0);
    GrepScanFindsAny(contents[path], needle, 0);
  }

  /** In the example file, the needle first occurs at offset 8. */
  lemma {:induction false} ExampleFirstHit(c: string, needle: string)
    requires c == "foo\n" + "bar needle baz" + "\nqux" && needle == "needle"
    ensures IndexOf(c, needle, 0) == 8
  {
    assert c[8..14] == needle;
    assert OccursAt(c, needle, 8);
    forall k | 0 <= k < 8 ensures !OccursAt(c, needle, k) {
      assert c[k] != 'n';
      assert c[k..k + 6][0] == c[k];
    }
  }

  /** In the example file, offset 8 lies on the line from 4 to the break at 18. */
  lemma {:induction false} ExampleLine(c: string)
    requires c == "foo\n" + "bar needle baz" + "\nqux"
    ensures LineEnd(c, 8) == 18 && LineStart(c, 8) == 4
    ensures LineText(c, 8) == "bar needle baz"
  {
    ExampleLineBounds(c);
    assert c[4..18] == "bar needle baz";
  }

  lemma {:induction false} ExampleLineBounds(c: string)
    requires c == "foo\n" + "bar needle baz" + "\nqux"
    ensures LineEnd(c, 8) == 18 && LineStart(c, 8) == 4
  {
    assert c[4..18] == "bar needle baz";
    NoBreakIn(c, 4, 18);
    IsLineEnd(c, 8, 18);
    IsLineStart(c, 8, 4);
  }

  lemma {:induction false} NoBreakIn(c: string, a: nat, b: nat)
    requires a <= b <= |c| && '\n' !in c[a..b]
    ensures forall i :: a <= i < b ==> c[i] != '\n'
  {
    forall i | a <= i < b ensures c[i] != '\n' {
      assert c[i] == c[a..b][i - a];
    }
  }

  /** The scan of a three-line file whose middle line holds the needle. */
  lemma {:induction false} GrepExampleScan(c: string, needle: string)
    requires c == "foo\n" + "bar needle baz" + "\nqux" && needle == "needle"
    ensures GrepScan(c, needle, 0) == Hits([8])
    ensures LineText(c, 8) == "bar needle baz"
  {
    ExampleFirstHit(c, needle);
    ExampleLine(c);
    GrepScanStep(c, needle, 0, 8, 19);
    assert IndexOf(c, needle, 19) == -1;
  }

  /** Its one record gives the 1-based offset of the hit and the whole middle line. */
  lemma {:induction false} GrepExample(c: string)
    requires c == "foo\n" + "bar needle baz" + "\nqux"
    ensures GrepOutcome(map["p" := c], "p", "needle") == Outcome(true, 100, ["p(9):bar needle baz"])
  {
    GrepExampleScan(c, "needle");
    ExampleRecord(c);
    assert Records("p", c, [8]) == ["p(9):bar needle baz"];
  }

  lemma {:induction false} ExampleRecord(c: string)
    requires 8 < |c| && c[8] != '\n' && LineText(c, 8) == "bar needle baz"
    ensures Record("p", c, 8) == "p(9):bar needle baz"
  {
    assert Slashed("p") == "p";
    assert NatToString(9) == "9";
    assert "p" + "(" + "9" + "):" + "bar needle baz" == "p(9):bar needle baz";
  }

  /**
   * An empty needle occurs at every position, so the scan visits each line start it reaches:
   * a file without empty lines gets a record, and only an empty file or an empty line throws.
   */
  lemma {:induction false} EmptyNeedleScan()
    ensures GrepScan("ab", "", 0) == Hits([0])
    ensures GrepScan("", "", 0) == Thrown
    ensures GrepScan("a\n\nb", "", 0) == Thrown
  {
    assert IndexOf("ab", "", 0) == 0;
    assert LineEnd("ab", 0) == 2;
    assert IndexOf("", "", 0) == 0;
    var c := "a\n\nb";
    assert IndexOf(c, "", 0) == 0 && LineEnd(c, 0) == 1;
    GrepScanStep(c, "", 0, 0, 2);
    assert IndexOf(c, "", 2) == 2 && c[2] == '\n';
  }
}
