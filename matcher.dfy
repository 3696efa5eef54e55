/**
 * `Matcher` (matcher.cs): the pair of path and grep matchers for one
 * directory configuration, shared between clients through a reference count
 * that starts at one and disposes the matcher when it reaches zero.
 */
module Matchers {
  import opened Results
  import opened Text
  import opened Order
  import opened Config
  import opened Ranking
  import opened Index

  /** `Matcher._MakeFullPath`: a result path joined onto the scan directory, unless that is `.`. */
  function MakeFullPath(scanDir: string, path: string): (r: string)
    ensures scanDir == "." ==> r == path
  {
    if scanDir == "." then path else Combine(scanDir, path)
  }

  /** A relative result path is recovered from the full path the client is sent. */
  lemma {:induction false} FullPathTrims(scanDir: string, path: string)
    requires scanDir != "." && scanDir != [] && scanDir[|scanDir| - 1] != '/'
    requires path != [] && path[0] != '/'
    ensures Under(scanDir, MakeFullPath(scanDir, path)) && TrimPath(scanDir, MakeFullPath(scanDir, path)) == path
  {
    TrimPathOfCombine(scanDir, path);
  }

  /** The items of a match, each with its path made full. */
  function FullItems(scanDir: string, items: seq<Scored>): (r: seq<Scored>)
    ensures |r| == |items|
    ensures forall k :: 0 <= k < |r| ==> r[k] == Scored(items[k].score, MakeFullPath(scanDir, items[k].item))
  {
    seq(|items|, k requires 0 <= k < |items| => Scored(items[k].score, MakeFullPath(scanDir, items[k].item)))
  }

  /** What `PathMatch` / `GrepMatch` hand back: the ranked items with full paths, or `None` when a `DoMatch` throws. */
  function Answer(scanDir: string, ranked: Option<TopN>): Option<seq<Scored>> {
    match ranked
    case None => None
    case Some(t) => Some(FullItems(scanDir, t.items))
  }

  class Matcher {
    const config: DirConfig
    const index: PathIndex
    var refcnt: int
    var disposed: bool

    /** Once disposed, the index is dead. */
    ghost predicate Valid()
      reads this, index
    {
      disposed ==> index.dead
    }

    /** `new Matcher(config)`: a fresh, empty index and one reference. */
    constructor (config: DirConfig)
      ensures this.config == config && refcnt == 1 && !disposed
      ensures fresh(index) && index.rules == config.rules && index.scanDir == config.scanDir
      ensures index.paths == [] && index.contents == map[] && !index.dead
    {
      this.config := config;
      index := new PathIndex(config.rules, config.scanDir);
      refcnt := 1;
      disposed := false;
    }

    /**
     * `Matcher.Go` as `_UpdateConfig`'s pool thread runs it: the initial scan
     * of the path matcher, whose list the grep matcher then loads. On a
     * matcher disposed before the thread got to it, the call throws at once
     * and the exception is swallowed, so nothing is scanned or loaded.
     */
    method Go(entries: seq<Entry>) returns (loads: seq<string>)
      requires forall k :: 0 <= k < |entries| ==> Under(StripSlashes(Trim(index.scanDir)), entries[k].fullPath)
      modifies index
      ensures disposed ==> unchanged(index) && loads == []
      ensures !disposed ==> index.dir == StripSlashes(Trim(index.scanDir))
      ensures !disposed ==> index.paths == Sort(old(index.paths) + ScanFilter(index.rules, index.dir, entries))
      ensures !disposed ==> loads == index.paths && index.dead == old(index.dead)
    {
      if disposed {
        loads := [];
      } else {
        loads := index.Go(entries);
      }
    }

    method Ref()
      modifies this
      ensures refcnt == old(refcnt) + 1 && disposed == old(disposed)
    {
      refcnt := refcnt + 1;
    }

    /** `Matcher.Free`: drop one reference; the one that reaches zero disposes and says so. */
    method Free() returns (last: bool)
      requires Valid()
      modifies this, index
      ensures Valid() && refcnt == old(refcnt) - 1
      ensures last <==> refcnt == 0
      ensures last ==> disposed && index.dead
      ensures last && !old(disposed) ==> index.paths == [] && index.contents == map[]
      ensures !last ==> disposed == old(disposed) && unchanged(index)
    {
      refcnt := refcnt - 1;
      if refcnt == 0 {
        Dispose();
        return true;
      }
      return false;
    }

    /** `Matcher.Dispose`: the first call disposes both matchers, later ones do nothing. */
    method Dispose()
      requires Valid()
      modifies this, index
      ensures Valid() && disposed && refcnt == old(refcnt)
      ensures old(disposed) ==> unchanged(index)
      ensures !old(disposed) ==> index.dead && index.paths == [] && index.contents == map[]
    {
      if !disposed {
        index.Dispose();
        disposed := true;
      }
    }

    /** `Matcher.PathMatch`: the path matcher's best `count`, with full paths. */
    method PathMatch(needle: string, count: nat) returns (r: Option<seq<Scored>>)
      requires !index.dead
      ensures r == Answer(config.scanDir, Ranked(PathKind, index.contents, index.paths, needle, count))
    {
      var t := index.Match(needle, count, PathKind);
      r := if t.None? then None else Some(FullItems(config.scanDir, t.value.items));
    }

    /** `Matcher.GrepMatch`: the grep matcher's best `count` records, with full paths. */
    method GrepMatch(needle: string, count: nat) returns (r: Option<seq<Scored>>)
      requires !index.dead
      ensures r == Answer(config.scanDir, Ranked(GrepKind, index.contents, index.paths, needle, count))
    {
      var t := index.Match(needle, count, GrepKind);
      r := if t.None? then None else Some(FullItems(config.scanDir, t.value.items));
    }
  }

  /**
   * The reference count seen from outside: after `k` calls to `Ref` on a new
   * matcher, the first `k` calls to `Free` return false and the last one
   * returns true and disposes it.
   */
  method RefsThenFrees(m: Matcher, k: nat) returns (frees: seq<bool>)
    requires m.refcnt == 1 && !m.disposed
    modifies m, m.index
    ensures |frees| == k + 1 && frees[k] && forall i :: 0 <= i < k ==> !frees[i]
    ensures m.disposed && m.refcnt == 0 && m.index.dead
  {
    var i := 0;
    while i < k
      invariant 0 <= i <= k && m.refcnt == 1 + i && !m.disposed
    {
      m.Ref();
      i := i + 1;
    }
    frees := [];
    while |frees| < k
      invariant |frees| <= k && m.refcnt == 1 + k - |frees| && !m.disposed
      invariant forall j :: 0 <= j < |frees| ==> !frees[j]
    {
      var last := m.Free();
      frees := frees + [last];
    }
    var last := m.Free();
    frees := frees + [last];
  }
}
