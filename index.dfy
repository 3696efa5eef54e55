/**
 * The path index behind a matcher (matcher.cs, `AbstractMatcher` with its
 * `PathMatcher` and `GrepMatcher` hooks): the rule filter, the relative paths
 * it keeps sorted, the file contents stored for grepping, the updates that
 * directory and file change notifications make, and the sequential match over
 * a snapshot of the paths.
 */
module Index {
  import opened Results
  import opened Text
  import opened Order
  import opened Config
  import opened Ranking
  import opened Scoring

  /**
   * `AbstractMatcher.IsFileOk(name, onlyexclude)`: the rules are tried in
   * order and the first one that applies decides; include rules do not apply
   * in exclude-only mode.
   */
  function IsFileOk(rules: seq<MatchRule>, name: string, onlyExclude: bool): (ok: bool)
    ensures ok && !onlyExclude ==> exists k :: 0 <= k < |rules| && rules[k].isInclude && Matches(rules[k], name)
    ensures !ok && onlyExclude ==> exists k :: 0 <= k < |rules| && !rules[k].isInclude && Matches(rules[k], name)
  {
    if rules == [] then onlyExclude
    else if !onlyExclude && rules[0].isInclude then
      if Matches(rules[0], name) then true else IsFileOk(rules[1..], name, onlyExclude)
    else if !rules[0].isInclude then
      if Matches(rules[0], name) then false else IsFileOk(rules[1..], name, onlyExclude)
    else IsFileOk(rules[1..], name, onlyExclude)
  }

  /** Rule `k` is the first rule that matches `name`. */
  predicate FirstMatch(rules: seq<MatchRule>, name: string, k: int) {
    0 <= k < |rules| && Matches(rules[k], name) && forall i :: 0 <= i < k ==> !Matches(rules[i], name)
  }

  /** A name is accepted exactly when the first rule matching it is an include rule. */
  lemma {:induction false} IsFileOkFirstMatchWins(rules: seq<MatchRule>, name: string)
    ensures IsFileOk(rules, name, false) <==> exists k :: FirstMatch(rules, name, k) && rules[k].isInclude
  {
    if rules != [] {
      IsFileOkFirstMatchWins(rules[1..], name);
      if Matches(rules[0], name) {
        assert FirstMatch(rules, name, 0);
        forall k | FirstMatch(rules, name, k) ensures k == 0 {
        }
      } else {
        if exists k :: FirstMatch(rules[1..], name, k) && rules[1..][k].isInclude {
          var k :| FirstMatch(rules[1..], name, k) && rules[1..][k].isInclude;
          assert FirstMatch(rules, name, k + 1);
        }
        if exists k :: FirstMatch(rules, name, k) && rules[k].isInclude {
          var k :| FirstMatch(rules, name, k) && rules[k].isInclude;
          assert FirstMatch(rules[1..], name, k - 1);
        }
      }
    }
  }

  /** A name no rule matches is rejected. */
  lemma {:induction false} NoMatchRejected(rules: seq<MatchRule>, name: string)
    requires forall k :: 0 <= k < |rules| ==> !Matches(rules[k], name)
    ensures !IsFileOk(rules, name, false)
  {
    IsFileOkFirstMatchWins(rules, name);
  }

  /** In exclude-only mode a name is accepted exactly when no exclude rule matches it. */
  lemma {:induction false} IsFileOkOnlyExclude(rules: seq<MatchRule>, name: string)
    ensures IsFileOk(rules, name, true) <==>
      forall k :: 0 <= k < |rules| && !rules[k].isInclude ==> !Matches(rules[k], name)
  {
    if rules != [] {
      IsFileOkOnlyExclude(rules[1..], name);
      if rules[0].isInclude || !Matches(rules[0], name) {
        forall k | 1 <= k < |rules| && !rules[k].isInclude ensures rules[1..][k - 1] == rules[k] {
        }
      }
    }
  }

  /** With a catch-all include first, a later exclude never applies. */
  lemma {:induction false} IncludeAllThenExclude()
    ensures IsFileOk([NewRule(true, "*"), NewRule(false, "*.o")], "x.o", false)
  {
    StarMatchesEverything(true, "x.o");
  }

  /** An exclude placed first wins over a later include. */
  lemma {:induction false} ExcludeThenInclude()
    ensures IsFileOk([NewRule(false, "*.o"), NewRule(true, "*.c")], "x.c", false)
    ensures !IsFileOk([NewRule(false, "*.o"), NewRule(true, "*.c")], "x.o", false)
  {
    var o, c := NewRule(false, "*.o"), NewRule(true, "*.c");
    assert o.value == ".o" && o.ends && !o.starts;
    assert c.value == ".c" && c.ends && !c.starts;
    assert "x.c"[1..] == ".c" && "x.o"[1..] == ".o";
    assert !Matches(o, "x.c") && Matches(c, "x.c");
    assert Matches(o, "x.o");
  }

  /** `full` names `dir` itself or something longer, as `TrimPath` needs. */
  predicate Under(dir: string, full: string) {
    full == dir || |dir| < |full|
  }

  /** `AbstractMatcher.TrimPath`: `full` without the directory and the separator after it. */
  function TrimPath(dir: string, full: string): (r: string)
    requires Under(dir, full)
    ensures |r| <= |full| && r == full[|full| - |r|..]
    ensures dir != full ==> |dir| + 1 + |r| == |full|
  {
    if dir == full then "" else full[|dir| + 1..]
  }

  /** Trimming a path joined onto the directory gives back the relative path. */
  lemma {:induction false} TrimPathOfCombine(dir: string, rel: string)
    requires dir != [] && dir[|dir| - 1] != '/'
    requires rel != [] && rel[0] != '/'
    ensures Under(dir, Combine(dir, rel)) && TrimPath(dir, Combine(dir, rel)) == rel
  {
    assert Combine(dir, rel) == dir + "/" + rel;
    assert (dir + "/" + rel)[|dir| + 1..] == rel;
  }

  /** The prune predicate handed to the directory scanner: skip a directory an exclude rule matches. */
  function SkipDir(rules: seq<MatchRule>, dir: string, fullDir: string): (skip: bool)
    requires Under(dir, fullDir)
    ensures skip <==> exists k :: 0 <= k < |rules| && !rules[k].isInclude && Matches(rules[k], TrimPath(dir, fullDir))
  {
    IsFileOkOnlyExclude(rules, TrimPath(dir, fullDir));
    !IsFileOk(rules, TrimPath(dir, fullDir), true)
  }

  /** `s` without its trailing separators. */
  function StripSlashes(s: string): (r: string)
    ensures |r| <= |s| && r == s[..|r|]
    ensures r == [] || r[|r| - 1] != '/'
    ensures forall i :: |r| <= i < |s| ==> s[i] == '/'
  {
    if s != [] && s[|s| - 1] == '/' then StripSlashes(s[..|s| - 1]) else s
  }

  /** The directory normalisation at the start of `AbstractMatcher.Go`. */
  method NormalizeDir(scanDir: string) returns (d: string)
    ensures d == StripSlashes(Trim(scanDir))
  {
    d := Trim(scanDir);
    ghost var t := d;
    while |d| > 0 && d[|d| - 1] == '/'
      invariant StripSlashes(d) == StripSlashes(t)
      decreases |d|
    {
      d := d[..|d| - 1];
    }
  }

  /** What the hooks (`OnPathAdded`, `OnPathRemoved`, `OnPathChanged`) are told. */
  datatype Event = Added(path: string) | Removed(path: string) | Changed(path: string)

  function Removals(xs: seq<string>): (r: seq<Event>)
    ensures |r| == |xs| && forall k :: 0 <= k < |xs| ==> r[k] == Removed(xs[k])
  {
    seq(|xs|, k requires 0 <= k < |xs| => Removed(xs[k]))
  }

  function Additions(xs: seq<string>): (r: seq<Event>)
    ensures |r| == |xs| && forall k :: 0 <= k < |xs| ==> r[k] == Added(xs[k])
  {
    seq(|xs|, k requires 0 <= k < |xs| => Added(xs[k]))
  }

  function Members(xs: seq<string>): (r: set<string>)
    ensures forall x :: x in r <==> x in xs
  {
    set x | x in xs
  }

  predicate NoDup<T(==)>(xs: seq<T>) {
    forall i, j :: 0 <= i < j < |xs| ==> xs[i] != xs[j]
  }

  /** `List.RemoveAt(i)`. */
  function RemoveAt(xs: seq<string>, i: nat): (r: seq<string>)
    requires i < |xs|
    ensures |r| == |xs| - 1
  {
    xs[..i] + xs[i + 1..]
  }

  /** Removing the element at `i` takes one copy of it out of the list. */
  lemma {:induction false} RemoveAtCount(xs: seq<string>, i: nat)
    requires i < |xs|
    ensures multiset(RemoveAt(xs, i)) == multiset(xs) - multiset{xs[i]}
  {
    assert xs == xs[..i] + [xs[i]] + xs[i + 1..];
  }

  /** Removing one element leaves the others in their order. */
  lemma {:induction false} RemoveAtSubsequence(xs: seq<string>, i: nat)
    requires i < |xs|
    ensures IsSubsequence(RemoveAt(xs, i), xs)
  {
    var r := RemoveAt(xs, i);
    var e := seq(|r|, k requires 0 <= k < |r| => if k < i then k else k + 1);
    assert Embeds(e, r, xs);
  }

  /** The position of the first `x` in `xs`, or -1. */
  function Find(xs: seq<string>, x: string): (k: int)
    ensures -1 <= k < |xs|
    ensures k == -1 <==> x !in xs
    ensures k >= 0 ==> xs[k] == x && x !in xs[..k]
  {
    if xs == [] then -1
    else if xs[0] == x then 0
    else
      var k := Find(xs[1..], x);
      assert xs[1..][..k + 1] == xs[1..k + 2] by { }
      if k == -1 then -1 else k + 1
  }

  /** `List.Remove(x)`: drop the first occurrence, if any. */
  function RemoveFirst(xs: seq<string>, x: string): (r: seq<string>)
    ensures multiset(r) == multiset(xs) - multiset{x}
  {
    var k := Find(xs, x);
    if k < 0 then
      assert multiset(xs)[x] == 0;
      xs
    else
      RemoveAtCount(xs, k);
      RemoveAt(xs, k)
  }

  /** The elements `RemoveFirst` leaves keep their order. */
  lemma {:induction false} RemoveFirstKeepsOrder(xs: seq<string>, x: string)
    ensures IsSubsequence(RemoveFirst(xs, x), xs)
  {
    var k := Find(xs, x);
    if k < 0 {
      assert Embeds(seq(|xs|, i requires 0 <= i < |xs| => i), xs, xs);
    } else {
      RemoveAtSubsequence(xs, k);
    }
  }

  /** The paths a vanished directory leaves, in order: those outside its prefix. */
  function Outside(ps: seq<string>, prefix: string): seq<string> {
    if ps == [] then []
    else Outside(ps[..|ps| - 1], prefix) + (if StartsWith(ps[|ps| - 1], prefix) then [] else [ps[|ps| - 1]])
  }

  /** The paths a vanished directory takes with it, in order. */
  function Inside(ps: seq<string>, prefix: string): seq<string> {
    if ps == [] then []
    else Inside(ps[..|ps| - 1], prefix) + (if StartsWith(ps[|ps| - 1], prefix) then [ps[|ps| - 1]] else [])
  }

  /** A vanished directory: every path under its prefix goes, and every other one stays. */
  lemma {:induction false} VanishedMembers(ps: seq<string>, prefix: string)
    ensures forall x :: x in Outside(ps, prefix) <==> x in ps && !StartsWith(x, prefix)
    ensures forall x :: x in Inside(ps, prefix) <==> x in ps && StartsWith(x, prefix)
  {
    if ps != [] {
      var init := ps[..|ps| - 1];
      assert ps == init + [ps[|ps| - 1]];
      VanishedMembers(init, prefix);
    }
  }

  /** Each path goes to exactly one side, as often as it occurs. */
  lemma {:induction false} VanishedConserves(ps: seq<string>, prefix: string)
    ensures multiset(Outside(ps, prefix)) + multiset(Inside(ps, prefix)) == multiset(ps)
  {
    if ps != [] {
      var init, p := ps[..|ps| - 1], ps[|ps| - 1];
      assert ps == init + [p];
      VanishedConserves(init, prefix);
    }
  }

  /** The paths that stay keep their order. */
  lemma {:induction false} OutsideKeepsOrder(ps: seq<string>, prefix: string)
    ensures IsSubsequence(Outside(ps, prefix), ps)
  {
    if ps == [] {
      assert Embeds([], Outside(ps, prefix), ps);
    } else {
      var init, p := ps[..|ps| - 1], ps[|ps| - 1];
      assert ps == init + [p];
      OutsideKeepsOrder(init, prefix);
      SubsequenceExtend(Outside(init, prefix), init, p);
      if StartsWith(p, prefix) {
        assert Outside(ps, prefix) == Outside(init, prefix);
      } else {
        assert Outside(ps, prefix) == Outside(init, prefix) + [p];
      }
    }
  }

  /** The removal loop of `ev_SubdirChanged` for a directory that no longer exists, over the list in place. */
  method RemoveVanished(ps: seq<string>, prefix: string) returns (kept: seq<string>, removed: seq<string>)
    ensures kept == Outside(ps, prefix) && removed == Inside(ps, prefix)
  {
    kept := ps;
    removed := [];
    var i := 0;
    ghost var k := 0;
    while i < |kept|
      invariant Removing(ps, prefix, kept, removed, i, k)
      decreases |kept| - i
    {
      var f := kept[i];
      RemovingStep(ps, prefix, kept, removed, i, k);
      if StartsWith(f, prefix) {
        kept := RemoveAt(kept, i);
        removed := removed + [f];
      } else {
        i := i + 1;
      }
      k := k + 1;
    }
    assert ps[..k] == ps;
  }

  /** The state of the removal loop: `i` entries kept out of the first `k` paths, the rest still to be looked at. */
  ghost predicate Removing(ps: seq<string>, prefix: string, kept: seq<string>, removed: seq<string>, i: int, k: int) {
    && 0 <= i <= |kept| && 0 <= k <= |ps|
    && kept[..i] == Outside(ps[..k], prefix) && kept[i..] == ps[k..]
    && removed == Inside(ps[..k], prefix)
  }

  /** One more path looked at: it is removed when it lies under the prefix, and kept otherwise. */
  lemma {:induction false} RemovingStep(ps: seq<string>, prefix: string, kept: seq<string>, removed: seq<string>, i: int, k: int)
    requires Removing(ps, prefix, kept, removed, i, k) && i < |kept|
    ensures StartsWith(kept[i], prefix) ==> Removing(ps, prefix, RemoveAt(kept, i), removed + [kept[i]], i, k + 1)
    ensures !StartsWith(kept[i], prefix) ==> Removing(ps, prefix, kept, removed, i + 1, k + 1)
  {
    var f := kept[i];
    assert f == ps[k];
    assert ps[..k + 1][..k] == ps[..k];
    SplitAt(kept, i);
  }

  /** A directory path with the separator `ev_SubdirChanged` appends when it is missing. */
  function WithSlash(d: string): (r: string)
    ensures r == [] || r[|r| - 1] == '/'
  {
    if |d| > 0 && d[|d| - 1] != '/' then d + "/" else d
  }

  /** The directory part of a relative path, compared with the changed directory's prefix. */
  function DirOf(path: string): string {
    WithSlash(DirName(path))
  }

  /** The state of the diff loop: the list so far, the events raised, the paths removed, the new files not yet seen. */
  datatype Diff = Diff(kept: seq<string>, events: seq<Event>, removed: seq<string>, pending: set<string>)

  /**
   * The diff of `ev_SubdirChanged` for a directory that exists, after the paths
   * `ps`: a path directly in the directory is kept with a change event while it
   * is among the directory's files, and otherwise removed with a removal event;
   * either way it leaves the pending set.
   */
  function DiffDir(ps: seq<string>, prefix: string, files: set<string>): Diff {
    if ps == [] then Diff([], [], [], files)
    else
      var d := DiffDir(ps[..|ps| - 1], prefix, files);
      var p := ps[|ps| - 1];
      if DirOf(p) != prefix then d.(kept := d.kept + [p])
      else if p in d.pending then Diff(d.kept + [p], d.events + [Changed(p)], d.removed, d.pending - {p})
      else Diff(d.kept, d.events + [Removed(p)], d.removed + [p], d.pending - {p})
  }

  /** The files left to add are the directory's files that were not already listed. */
  lemma {:induction false} DiffPending(ps: seq<string>, prefix: string, files: set<string>)
    ensures DiffDir(ps, prefix, files).pending == files - set x | x in ps && DirOf(x) == prefix
  {
    if ps != [] {
      var init := ps[..|ps| - 1];
      assert ps == init + [ps[|ps| - 1]];
      DiffPending(init, prefix, files);
    }
  }

  /** A listed path stays exactly when it is in another directory or still among the directory's files. */
  lemma {:induction false} DiffKept(ps: seq<string>, prefix: string, files: set<string>)
    ensures forall x :: x in DiffDir(ps, prefix, files).kept <==> x in ps && (DirOf(x) != prefix || x in files)
  {
    if ps != [] {
      var init, p := ps[..|ps| - 1], ps[|ps| - 1];
      assert ps == init + [p];
      DiffKept(init, prefix, files);
      DiffPending(init, prefix, files);
    }
  }

  /** Each listed path ends up kept or removed, as often as it occurs, and the kept ones keep their order. */
  lemma {:induction false} DiffConserves(ps: seq<string>, prefix: string, files: set<string>)
    ensures multiset(DiffDir(ps, prefix, files).kept) + multiset(DiffDir(ps, prefix, files).removed) == multiset(ps)
    ensures IsSubsequence(DiffDir(ps, prefix, files).kept, ps)
  {
    if ps == [] {
      assert Embeds([], DiffDir(ps, prefix, files).kept, ps);
    } else {
      var init, p := ps[..|ps| - 1], ps[|ps| - 1];
      assert ps == init + [p];
      DiffConserves(init, prefix, files);
      SubsequenceExtend(DiffDir(init, prefix, files).kept, init, p);
    }
  }

  /** The events: a change event for each kept path of the directory, a removal event for each removed path. */
  lemma {:induction false} DiffEvents(ps: seq<string>, prefix: string, files: set<string>)
    ensures var d := DiffDir(ps, prefix, files);
      forall e :: e in d.events <==> (e.Changed? && e.path in d.kept && DirOf(e.path) == prefix) || (e.Removed? && e.path in d.removed)
  {
    if ps != [] {
      var init, p := ps[..|ps| - 1], ps[|ps| - 1];
      assert ps == init + [p];
      DiffEvents(init, prefix, files);
    }
  }

  /** Without duplicates in the list, a path of the directory is removed exactly when it is no longer among its files. */
  lemma {:induction false} DiffRemoved(ps: seq<string>, prefix: string, files: set<string>)
    requires NoDup(ps)
    ensures forall x :: x in DiffDir(ps, prefix, files).removed <==> x in ps && DirOf(x) == prefix && x !in files
  {
    if ps != [] {
      var init, p := ps[..|ps| - 1], ps[|ps| - 1];
      assert ps == init + [p];
      DiffRemoved(init, prefix, files);
      DiffPending(init, prefix, files);
    }
  }

  /** One step of the diff, with the list so far as a prefix of `ps`. */
  lemma {:induction false} DiffStep(ps: seq<string>, k: nat, prefix: string, files: set<string>)
    requires k < |ps|
    ensures var d, p := DiffDir(ps[..k], prefix, files), ps[k];
      DiffDir(ps[..k + 1], prefix, files) ==
        if DirOf(p) != prefix then d.(kept := d.kept + [p])
        else if p in d.pending then Diff(d.kept + [p], d.events + [Changed(p)], d.removed, d.pending - {p})
        else Diff(d.kept, d.events + [Removed(p)], d.removed + [p], d.pending - {p})
  {
    assert ps[..k + 1][..k] == ps[..k];
  }

  /** Keeping the element at `i` or removing it, seen from the front of the list. */
  lemma {:induction false} SplitAt(xs: seq<string>, i: nat)
    requires i < |xs|
    ensures xs[..i + 1] == xs[..i] + [xs[i]] && xs[i + 1..] == xs[i..][1..]
    ensures RemoveAt(xs, i)[..i] == xs[..i] && RemoveAt(xs, i)[i..] == xs[i + 1..]
  {
  }

  /** The diff loop of `ev_SubdirChanged` for a directory that exists, over the list in place. */
  method DiffExisting(ps: seq<string>, prefix: string, files: set<string>) returns (d: Diff)
    ensures d == DiffDir(ps, prefix, files)
  {
    var kept := ps;
    var events: seq<Event> := [];
    var removed: seq<string> := [];
    var pending := files;
    var i := 0;
    ghost var k := 0;
    while i < |kept|
      invariant 0 <= i <= |kept| && 0 <= k <= |ps|
      invariant kept[i..] == ps[k..]
      invariant DiffDir(ps[..k], prefix, files) == Diff(kept[..i], events, removed, pending)
      decreases |kept| - i
    {
      var path := kept[i];
      assert path == ps[k];
      DiffStep(ps, k, prefix, files);
      SplitAt(kept, i);
      var dir := WithSlash(DirName(path));
      if dir == prefix {
        if path in pending {
          events := events + [Changed(path)];
          i := i + 1;
        } else {
          kept := RemoveAt(kept, i);
          events := events + [Removed(path)];
          removed := removed + [path];
        }
        pending := pending - {path};
      } else {
        i := i + 1;
      }
      k := k + 1;
    }
    assert ps[..k] == ps;
    d := Diff(kept, events, removed, pending);
  }

  /** Moving `f` from the pending set to the list of added files keeps them apart and their union. */
  lemma {:induction false} PendingStep(added: seq<string>, rest: set<string>, pending: set<string>, f: string)
    requires Members(added) + rest == pending && Members(added) !! rest && NoDup(added) && f in rest
    ensures Members(added + [f]) + (rest - {f}) == pending && Members(added + [f]) !! (rest - {f})
    ensures NoDup(added + [f])
  {
    assert Members(added + [f]) == Members(added) + {f};
  }

  /** Adding the pending files one by one, re-sorting after each as `PathMatcher.OnPathAdded` does; the set's order is left open. */
  method AddPending(ps: seq<string>, pending: set<string>) returns (r: seq<string>, added: seq<string>)
    ensures NoDup(added) && Members(added) == pending
    ensures multiset(r) == multiset(ps) + multiset(added)
    ensures added == [] ==> r == ps
    ensures added != [] ==> Sorted(r)
  {
    r, added := ps, [];
    var rest := pending;
    while rest != {}
      invariant Adding(ps, pending, r, added, rest)
      decreases |rest|
    {
      var f :| f in rest;
      AddingStep(ps, pending, r, added, rest, f);
      assert |rest - {f}| < |rest|;
      rest := rest - {f};
      r := Sort(r + [f]);
      added := added + [f];
    }
  }

  /** The state of the adding loop: `added` and `rest` split the pending set, and the list holds the added files. */
  ghost predicate Adding(ps: seq<string>, pending: set<string>, r: seq<string>, added: seq<string>, rest: set<string>) {
    && Members(added) + rest == pending && Members(added) !! rest && NoDup(added)
    && multiset(r) == multiset(ps) + multiset(added)
    && (added == [] ==> r == ps)
    && (added != [] ==> Sorted(r))
  }

  /** Adding one pending file keeps the state of the adding loop. */
  lemma {:induction false} AddingStep(ps: seq<string>, pending: set<string>, r: seq<string>, added: seq<string>, rest: set<string>, f: string)
    requires Adding(ps, pending, r, added, rest) && f in rest
    ensures Adding(ps, pending, Sort(r + [f]), added + [f], rest - {f})
  {
    PendingStep(added, rest, pending, f);
    assert multiset(r + [f]) == multiset(r) + multiset{f};
    assert multiset(added + [f]) == multiset(added) + multiset{f};
  }

  /** An entry the directory scanner yields. */
  datatype Entry = Entry(fullPath: string, isFile: bool)

  /** `x` is the relative path of the file `e`, and the rules accept it. */
  predicate Accepted(rules: seq<MatchRule>, dir: string, e: Entry, x: string) {
    e.isFile && Under(dir, e.fullPath) && x == TrimPath(dir, e.fullPath) && IsFileOk(rules, x, false)
  }

  /** The relative paths of the scanned files that the rules accept, in scan order. */
  function ScanFilter(rules: seq<MatchRule>, dir: string, entries: seq<Entry>): (r: seq<string>)
    requires forall k :: 0 <= k < |entries| ==> Under(dir, entries[k].fullPath)
    ensures forall x :: x in r <==> exists k :: 0 <= k < |entries| && Accepted(rules, dir, entries[k], x)
  {
    if entries == [] then []
    else
      var init, e := entries[..|entries| - 1], entries[|entries| - 1];
      var r := ScanFilter(rules, dir, init);
      assert forall k :: 0 <= k < |init| ==> init[k] == entries[k];
      if e.isFile && IsFileOk(rules, TrimPath(dir, e.fullPath), false) then r + [TrimPath(dir, e.fullPath)] else r
  }

  /** The items one `DoMatch` outcome contributes, each with the outcome's score. */
  function ItemsOf(o: Outcome): (r: seq<Scored>)
    requires o.Outcome?
    ensures |r| == (if o.ok then |o.outs| else 0)
    ensures forall k :: 0 <= k < |r| ==> r[k] == Scored(o.score, o.outs[k])
  {
    if o.ok then seq(|o.outs|, k requires 0 <= k < |o.outs| => Scored(o.score, o.outs[k])) else []
  }

  /** Which matcher's `DoMatch` a query runs. */
  datatype Kind = PathKind | GrepKind

  /** `PathMatcher.DoMatch` as a value. */
  function PathOutcome(path: string, needle: string): (o: Outcome)
    ensures o.Outcome? && (o.ok <==> IsSubsequence(needle, Lower(path)))
  {
    PathScoreIffSubsequence(path, needle);
    match PathScore(path, needle)
    case None => Outcome(false, 0, [])
    case Some(s) => Outcome(true, s, [Slashed(path)])
  }

  function DoMatch(kind: Kind, contents: map<string, string>, path: string, needle: string): (o: Outcome)
    ensures kind == PathKind ==> o.Outcome?
  {
    match kind
    case PathKind => PathOutcome(path, needle)
    case GrepKind => GrepOutcome(contents, path, needle)
  }

  /** The items the paths `ps` contribute, in order; `None` when some `DoMatch` throws. */
  function Candidates(kind: Kind, contents: map<string, string>, ps: seq<string>, needle: string): (r: Option<seq<Scored>>)
    ensures r.None? ==> exists i :: 0 <= i < |ps| && DoMatch(kind, contents, ps[i], needle).Fault?
  {
    if ps == [] then Some([])
    else
      match Candidates(kind, contents, ps[..|ps| - 1], needle)
      case None => None
      case Some(xs) =>
        var o := DoMatch(kind, contents, ps[|ps| - 1], needle);
        if o.Fault? then None else Some(xs + ItemsOf(o))
  }

  /**
   * The collection `Match` returns: every candidate added to an empty one of
   * the requested capacity. `None` stands for a `DoMatch` that threw: it did so
   * on a pool thread, so `Match` never returns and the process ends.
   */
  function Ranked(kind: Kind, contents: map<string, string>, ps: seq<string>, needle: string, count: nat): (r: Option<TopN>)
    ensures r.Some? ==> Valid(r.value) && r.value.capacity == count
  {
    match Candidates(kind, contents, ps, needle)
    case None => None
    case Some(xs) => Some(AddAll(Empty(count), xs))
  }

  /** A `DoMatch` that throws on one path means the match returns no list. */
  lemma {:induction false} FaultPersists(kind: Kind, contents: map<string, string>, ps: seq<string>, needle: string, n: nat)
    requires n <= |ps| && Candidates(kind, contents, ps[..n], needle).None?
    ensures Candidates(kind, contents, ps, needle).None?
  {
    if n < |ps| {
      var init := ps[..|ps| - 1];
      assert init[..n] == ps[..n];
      FaultPersists(kind, contents, init, needle, n);
    } else {
      assert ps[..n] == ps;
    }
  }

  /** The scan's outcome contributes the same items as the score it is proved against. */
  lemma {:induction false} PathItems(o: Outcome, path: string, needle: string)
    requires o.Outcome? && (o.ok <==> IsSubsequence(needle, Lower(path)))
    requires o.ok ==> PathScore(path, needle) == Some(o.score) && o.outs == [Slashed(path)]
    ensures ItemsOf(o) == ItemsOf(PathOutcome(path, needle))
  {
  }

  /** The inner loop of the match worker: every output of one path goes into the collection. */
  method AddOuts(t: TopN, o: Outcome) returns (r: TopN)
    requires Valid(t) && o.Outcome?
    ensures r == AddAll(t, ItemsOf(o))
  {
    r := t;
    if o.ok {
      var items := ItemsOf(o);
      var j := 0;
      assert items[..0] == [];
      while j < |o.outs|
        invariant 0 <= j <= |o.outs| && Valid(r)
        invariant r == AddAll(t, items[..j])
      {
        AddAllStep(t, items, j);
        r := Add(r, Scored(o.score, o.outs[j]));
        j := j + 1;
      }
      assert items[..j] == items;
    }
  }

  /**
   * What `ev_FileChanged` does to the list and the contents, for the relative
   * path `f` of a file the rules accept or not: nothing for a rejected file; an
   * existing listed file is reported changed; an existing new one is added and
   * the list re-sorted; a missing one is removed from the list and the
   * contents and reported removed even when it was not listed.
   */
  function FileChange(accepted: bool, present: bool, f: string, paths: seq<string>, contents: map<string, string>)
    : (r: (seq<Event>, seq<string>, map<string, string>))
    ensures |r.0| <= 1 && (r.0 == [] <==> !accepted)
    ensures r.2 == contents || r.2 == contents - {f}
  {
    if !accepted then ([], paths, contents)
    else if present && f in paths then ([Changed(f)], paths, contents)
    else if present then ([Added(f)], Sort(paths + [f]), contents)
    else ([Removed(f)], RemoveFirst(paths, f), contents - {f})
  }

  /** A file change keeps a sorted list sorted. */
  lemma {:induction false} FileChangeKeepsSorted(accepted: bool, present: bool, f: string, paths: seq<string>, contents: map<string, string>)
    requires Sorted(paths)
    ensures Sorted(FileChange(accepted, present, f, paths, contents).1)
  {
    if accepted && !present {
      RemoveFirstKeepsOrder(paths, f);
      SubsequenceKeepsSorted(RemoveFirst(paths, f), paths);
    }
  }

  /**
   * After a change to an accepted file, an existing file is listed once more
   * or still, a missing one is listed one time fewer, and every other path
   * is listed as often as before.
   */
  lemma {:induction false} FileChangeCounts(present: bool, f: string, paths: seq<string>, contents: map<string, string>)
    ensures var p := FileChange(true, present, f, paths, contents).1;
      && (present ==> multiset(p)[f] == if f in paths then multiset(paths)[f] else 1)
      && (!present ==> multiset(p)[f] == if f in paths then multiset(paths)[f] - 1 else 0)
      && forall x :: x != f ==> multiset(p)[x] == multiset(paths)[x]
  {
    if present && f !in paths {
      assert multiset(paths + [f]) == multiset(paths) + multiset{f};
    }
  }

  /**
   * `AbstractMatcher` with the hooks of both `PathMatcher` and `GrepMatcher`:
   * the one path list the two matchers share, the contents stored for
   * grepping, and the flag `GrepMatcher.Dispose` sets.
   */
  class PathIndex {
    const rules: seq<MatchRule>
    const scanDir: string
    var dir: string
    var paths: seq<string>
    var contents: map<string, string>
    var dead: bool

    /** The list is kept sorted (`PathMatcher` sorts after the initial load and after every add). */
    ghost predicate Valid()
      reads this
    {
      Sorted(paths)
    }

    constructor (rules: seq<MatchRule>, scanDir: string)
      ensures this.rules == rules && this.scanDir == scanDir
      ensures dir == "" && paths == [] && contents == map[] && !dead
      ensures Valid()
    {
      this.rules := rules;
      this.scanDir := scanDir;
      dir := "";
      paths := [];
      contents := map[];
      dead := false;
    }

    /**
     * `AbstractMatcher.Go` for both matchers: normalise the directory, keep the
     * scanned files the rules accept (by relative path), sort, and hand every
     * path to the content loader.
     */
    method Go(entries: seq<Entry>) returns (loads: seq<string>)
      requires forall k :: 0 <= k < |entries| ==> Under(StripSlashes(Trim(scanDir)), entries[k].fullPath)
      modifies this
      ensures dir == StripSlashes(Trim(scanDir))
      ensures paths == Sort(old(paths) + ScanFilter(rules, dir, entries))
      ensures loads == paths
      ensures contents == old(contents) && dead == old(dead)
      ensures Valid()
    {
      dir := NormalizeDir(scanDir);
      var found := paths;
      var k := 0;
      while k < |entries|
        invariant 0 <= k <= |entries|
        invariant found == old(paths) + ScanFilter(rules, dir, entries[..k])
      {
        var e := entries[k];
        assert entries[..k + 1][..k] == entries[..k];
        if e.isFile {
          var tp := TrimPath(dir, e.fullPath);
          if IsFileOk(rules, tp, false) {
            found := found + [tp];
          }
        }
        k := k + 1;
      }
      assert entries[..k] == entries;
      paths := Sort(found);
      loads := paths;
    }

    /** The relative paths of the listed files the rules accept, tested by full path as `ev_SubdirChanged` does. */
    function FilesIn(listing: seq<string>): set<string>
      reads this
    {
      set x | x in listing && Under(dir, x) && IsFileOk(rules, x, false) :: TrimPath(dir, x)
    }

    /**
     * `ev_SubdirChanged`: a vanished directory takes every path under it; an
     * existing one is diffed against its current files, the new ones being
     * appended (in the set's order) and the list re-sorted after each.
     */
    method SubdirChanged(fullDir: string, present: bool, listing: seq<string>) returns (events: seq<Event>, added: seq<string>)
      requires !dead && Under(dir, fullDir)
      modifies this
      ensures dir == old(dir) && !dead
      ensures var prefix := WithSlash(TrimPath(dir, fullDir));
        !present ==>
          && paths == Outside(old(paths), prefix)
          && events == Removals(Inside(old(paths), prefix))
          && contents == old(contents) - Members(Inside(old(paths), prefix))
      ensures var d := DiffDir(old(paths), WithSlash(TrimPath(dir, fullDir)), old(FilesIn(listing)));
        present ==>
          && events == d.events + Additions(added)
          && NoDup(added) && Members(added) == d.pending
          && multiset(paths) == multiset(d.kept) + multiset(added)
          && (forall x :: x in paths <==> x in d.kept || x in d.pending)
          && contents == old(contents) - Members(d.removed)
      ensures old(Valid()) ==> Valid()
    {
      var dirpath := TrimPath(dir, fullDir);
      if |dirpath| > 0 && dirpath[|dirpath| - 1] != '/' {
        dirpath := dirpath + "/";
      }
      if !present {
        var kept, removed := RemoveVanished(paths, dirpath);
        OutsideKeepsOrder(paths, dirpath);
        if Valid() {
          SubsequenceKeepsSorted(kept, paths);
        }
        paths := kept;
        contents := contents - Members(removed);
        events := Removals(removed);
        added := [];
      } else {
        var d := DiffExisting(paths, dirpath, FilesIn(listing));
        DiffConserves(paths, dirpath, FilesIn(listing));
        if Valid() {
          SubsequenceKeepsSorted(d.kept, paths);
        }
        var r;
        r, added := AddPending(d.kept, d.pending);
        forall x ensures x in r <==> x in d.kept || x in d.pending {
          assert x in r <==> x in multiset(r);
          assert x in added <==> x in multiset(added);
          assert x in d.kept <==> x in multiset(d.kept);
        }
        paths := r;
        contents := contents - Members(d.removed);
        events := d.events + Additions(added);
      }
    }

    /**
     * `ev_FileChanged` (never subscribed by the source): the rules are tested on
     * the full path, and the list, the contents and the events change as
     * `FileChange` says.
     */
    method FileChanged(fullPath: string, present: bool) returns (events: seq<Event>)
      requires !dead && Under(dir, fullPath)
      modifies this`paths, this`contents
      ensures (events, paths, contents) ==
        FileChange(IsFileOk(rules, fullPath, false), present, TrimPath(dir, fullPath), old(paths), old(contents))
      ensures old(Valid()) ==> Valid()
    {
      var f := TrimPath(dir, fullPath);
      var ok := IsFileOk(rules, fullPath, false);
      if Valid() {
        FileChangeKeepsSorted(ok, present, f, paths, contents);
      }
      if !ok {
        events := [];
      } else if present {
        if f in paths {
          events := [Changed(f)];
        } else {
          paths := Sort(paths + [f]);
          events := [Added(f)];
        }
      } else {
        paths := RemoveFirst(paths, f);
        contents := contents - {f};
        events := [Removed(f)];
      }
    }

    /** `GrepMatcher.OnPathRenamed` (no caller in the source). */
    method Rename(p1: string, p2: string)
      requires !dead
      modifies this
      ensures contents == RenamedContents(old(contents), p1, p2)
      ensures paths == old(paths) && dir == old(dir) && !dead
    {
      if p1 in contents {
        contents := contents[p2 := contents[p1]];
        contents := contents - {p1};
      }
    }

    /** The content loader's store step: nothing once disposed or when the file is gone, otherwise the text replaces what was stored. */
    method Store(path: string, present: bool, text: string)
      modifies this
      ensures contents == if dead || !present then old(contents) else old(contents)[path := text]
      ensures paths == old(paths) && dir == old(dir) && dead == old(dead)
    {
      if !dead && present {
        contents := contents[path := text];
      }
    }

    /** `GrepMatcher.Dispose` on the shared list: the list and the contents are gone and the loader skips this index. */
    method Dispose()
      modifies this
      ensures paths == [] && contents == map[] && dead && dir == old(dir)
      ensures Valid()
    {
      paths := [];
      contents := map[];
      dead := true;
    }

    /** `AbstractMatcher.Match` as a sequential fold of `DoMatch` over a snapshot of the list; `None` when a `DoMatch` throws. */
    method Match(needle: string, count: nat, kind: Kind) returns (r: Option<TopN>)
      requires !dead
      ensures r == Ranked(kind, contents, paths, needle, count)
    {
      r := MatchAll(kind, contents, paths, needle, count);
    }
  }

  /** The fold behind `PathIndex.Match`, over the snapshot `ps` and the contents `c`. */
  method MatchAll(kind: Kind, c: map<string, string>, ps: seq<string>, needle: string, count: nat) returns (r: Option<TopN>)
    ensures r == Ranked(kind, c, ps, needle, count)
  {
    var t := Empty(count);
    ghost var xs: seq<Scored> := [];
    var i := 0;
    while i < |ps|
      invariant 0 <= i <= |ps|
      invariant Matching(kind, c, ps, needle, count, i, xs, t)
    {
      var o := RunDoMatch(kind, c, ps[i], needle);
      if o.Fault? {
        MatchingFault(kind, c, ps, needle, count, i, xs, t);
        return None;
      }
      MatchingStep(kind, c, ps, needle, count, i, xs, t, ItemsOf(o));
      t := AddOuts(t, o);
      xs := xs + ItemsOf(o);
      i := i + 1;
    }
    MatchingDone(kind, c, ps, needle, count, xs, t);
    r := Some(t);
  }

  /** A path whose `DoMatch` throws ends the fold with no list. */
  lemma {:induction false} MatchingFault(kind: Kind, c: map<string, string>, ps: seq<string>, needle: string, count: nat, i: nat, xs: seq<Scored>, t: TopN)
    requires i < |ps| && Matching(kind, c, ps, needle, count, i, xs, t) && DoMatch(kind, c, ps[i], needle).Fault?
    ensures Ranked(kind, c, ps, needle, count) == None
  {
    CandidatesStep(kind, c, ps, needle, i, xs);
    FaultPersists(kind, c, ps, needle, i + 1);
  }

  /** After every path, the collection is the ranked result. */
  lemma {:induction false} MatchingDone(kind: Kind, c: map<string, string>, ps: seq<string>, needle: string, count: nat, xs: seq<Scored>, t: TopN)
    requires Matching(kind, c, ps, needle, count, |ps|, xs, t)
    ensures Ranked(kind, c, ps, needle, count) == Some(t)
  {
    assert ps[..|ps|] == ps;
  }

  /** The state of the match loop after `i` paths: their items, and the collection holding them. */
  ghost predicate Matching(kind: Kind, c: map<string, string>, ps: seq<string>, needle: string, count: nat, i: nat, xs: seq<Scored>, t: TopN)
    requires i <= |ps|
  {
    Candidates(kind, c, ps[..i], needle) == Some(xs) && Valid(t) && t == AddAll(Empty(count), xs)
  }

  /** One more path that does not throw keeps the state of the match loop. */
  lemma {:induction false} MatchingStep(kind: Kind, c: map<string, string>, ps: seq<string>, needle: string, count: nat, i: nat, xs: seq<Scored>, t: TopN, items: seq<Scored>)
    requires i < |ps| && Matching(kind, c, ps, needle, count, i, xs, t)
    requires DoMatch(kind, c, ps[i], needle).Outcome? && items == ItemsOf(DoMatch(kind, c, ps[i], needle))
    ensures Matching(kind, c, ps, needle, count, i + 1, xs + items, AddAll(t, items))
  {
    CandidatesStep(kind, c, ps, needle, i, xs);
    AddAllAppend(Empty(count), xs, items);
  }

  /** `DoMatch` of the chosen matcher, run on one path. */
  method RunDoMatch(kind: Kind, c: map<string, string>, path: string, needle: string) returns (o: Outcome)
    ensures o.Fault? <==> DoMatch(kind, c, path, needle).Fault?
    ensures o.Outcome? ==> ItemsOf(o) == ItemsOf(DoMatch(kind, c, path, needle))
  {
    if kind == PathKind {
      o := PathDoMatch(path, needle);
      PathItems(o, path, needle);
    } else {
      o := GrepDoMatch(c, path, needle);
    }
  }

  /** One more path in the fold. */
  lemma {:induction false} CandidatesStep(kind: Kind, c: map<string, string>, ps: seq<string>, needle: string, i: nat, xs: seq<Scored>)
    requires i < |ps| && Candidates(kind, c, ps[..i], needle) == Some(xs)
    ensures var o := DoMatch(kind, c, ps[i], needle);
      Candidates(kind, c, ps[..i + 1], needle) == if o.Fault? then None else Some(xs + ItemsOf(o))
  {
    assert ps[..i + 1][..i] == ps[..i];
  }

  /**
   * `GrepMatcher.OnPathRenamed`: the stored text moves from `p1` to `p2`; when
   * the two are the same path the text is deleted.
   */
  function RenamedContents(m: map<string, string>, p1: string, p2: string): (r: map<string, string>)
    ensures p1 !in m ==> r == m
    ensures p1 in m ==> p1 !in r
    ensures p1 in m && p1 != p2 ==> p2 in r && r[p2] == m[p1]
    ensures forall k :: k != p1 && k != p2 ==> (k in r <==> k in m) && (k in r ==> r[k] == m[k])
  {
    if p1 in m then m[p2 := m[p1]] - {p1} else m
  }

  /**
   * What a match returns: at most `count` candidates, best first, each of them
   * a candidate, and none of the candidates left out scoring above one kept.
   */
  lemma {:induction false} MatchKeepsBest(kind: Kind, c: map<string, string>, ps: seq<string>, needle: string, count: nat)
    requires Ranked(kind, c, ps, needle, count).Some?
    ensures var xs, t := Candidates(kind, c, ps, needle).value, Ranked(kind, c, ps, needle, count).value;
      && |t.items| == (if |xs| <= count then |xs| else count)
      && Descending(t.items)
      && multiset(t.items) <= multiset(xs)
      && forall d, k :: d in multiset(xs) - multiset(t.items) && k in t.items ==> d.score <= k.score
  {
    var xs := Candidates(kind, c, ps, needle).value;
    var t := AddAll(Empty(count), xs);
    AddAllKeepsBest(count, xs);
    assert multiset(xs) - multiset(t.items) == Dropped(count, xs);
  }

  /** `x` is the item a path match of `needle` on `p` yields. */
  predicate PathHit(p: string, needle: string, x: Scored) {
    PathScore(p, needle).Some? && x == Scored(PathScore(p, needle).value, Slashed(p))
  }

  lemma {:induction false} PathOutcomeItems(p: string, needle: string, x: Scored)
    ensures x in ItemsOf(PathOutcome(p, needle)) <==> PathHit(p, needle, x)
  {
    if PathScore(p, needle).Some? {
      assert ItemsOf(PathOutcome(p, needle)) == [Scored(PathScore(p, needle).value, Slashed(p))];
    }
  }

  /** A path match never throws, and its candidates are the slashed paths the needle is a subsequence of, with their scores. */
  lemma {:induction false} PathCandidates(c: map<string, string>, ps: seq<string>, needle: string)
    ensures Candidates(PathKind, c, ps, needle).Some?
    ensures forall x :: x in Candidates(PathKind, c, ps, needle).value <==> exists k :: 0 <= k < |ps| && PathHit(ps[k], needle, x)
  {
    if ps != [] {
      var init, p := ps[..|ps| - 1], ps[|ps| - 1];
      PathCandidates(c, init, needle);
      var xs := Candidates(PathKind, c, init, needle).value;
      var o := PathOutcome(p, needle);
      assert Candidates(PathKind, c, ps, needle) == Some(xs + ItemsOf(o));
      forall x ensures x in xs + ItemsOf(o) <==> exists k :: 0 <= k < |ps| && PathHit(ps[k], needle, x) {
        PathOutcomeItems(p, needle, x);
        HitsAppend(init, p, needle, x);
        assert ps == init + [p];
      }
    }
  }

  lemma {:induction false} HitsAppend(init: seq<string>, p: string, needle: string, x: Scored)
    ensures (exists k :: 0 <= k < |init + [p]| && PathHit((init + [p])[k], needle, x)) <==>
      (exists k :: 0 <= k < |init| && PathHit(init[k], needle, x)) || PathHit(p, needle, x)
  {
    var ps := init + [p];
    if exists k :: 0 <= k < |ps| && PathHit(ps[k], needle, x) {
      var k :| 0 <= k < |ps| && PathHit(ps[k], needle, x);
      if k < |init| {
        assert ps[k] == init[k];
      }
    }
    if exists k :: 0 <= k < |init| && PathHit(init[k], needle, x) {
      var k :| 0 <= k < |init| && PathHit(init[k], needle, x);
      assert ps[k] == init[k];
    }
    if PathHit(p, needle, x) {
      assert ps[|init|] == p;
    }
  }

  /** A grep match for a non-empty needle without line breaks never throws. */
  lemma {:induction false} GrepNeverFaults(c: map<string, string>, ps: seq<string>, needle: string)
    requires needle != [] && '\n' !in needle
    ensures Candidates(GrepKind, c, ps, needle).Some?
  {
    if ps != [] {
      var p := ps[|ps| - 1];
      GrepNeverFaults(c, ps[..|ps| - 1], needle);
      if p in c {
        GrepMatchesIffContains(c, p, needle);
      }
    }
  }

  /**
   * After the diff of an existing directory, the list holds exactly the paths
   * of other directories it held before and the directory's current files.
   */
  lemma {:induction false} DiffThenAdd(ps: seq<string>, prefix: string, files: set<string>)
    requires forall f :: f in files ==> DirOf(f) == prefix
    ensures var d := DiffDir(ps, prefix, files);
      forall x :: x in d.kept || x in d.pending <==> (x in ps && DirOf(x) != prefix) || x in files
  {
    DiffKept(ps, prefix, files);
    DiffPending(ps, prefix, files);
  }
}
