/**
 * A client session (server.cs): the process-wide matcher cache, the matchers
 * one client holds, the configuration update that moves references between
 * them, and the release of every reference when the session ends.
 */
module Session {
  import opened Results
  import opened Text
  import opened Config
  import opened Ranking
  import opened Index
  import opened Matchers

  /** A refcount, zero for a key the map lacks. */
  function Get(rc: map<DirKey, int>, k: DirKey): int {
    if k in rc then rc[k] else 0
  }

  /** The keys of the first `n` configurations of a list. */
  function Keys(cs: seq<DirConfig>, n: nat): (r: set<DirKey>)
    requires n <= |cs|
    ensures forall j :: 0 <= j < n ==> Key(cs[j]) in r
  {
    if n == 0 then {} else Keys(cs, n - 1) + {Key(cs[n - 1])}
  }

  /** The keys of a configuration list. */
  function KeySet(cs: seq<DirConfig>): (r: set<DirKey>)
    ensures forall c :: c in cs ==> Key(c) in r
  {
    Keys(cs, |cs|)
  }

  /** How many of the first `n` configurations have key `k`. */
  function Occ(cs: seq<DirConfig>, n: nat, k: DirKey): (r: nat)
    requires n <= |cs|
    ensures r > 0 <==> k in Keys(cs, n)
  {
    if n == 0 then 0 else Occ(cs, n - 1, k) + (if Key(cs[n - 1]) == k then 1 else 0)
  }

  /** A position among the first `n` with key `k`. */
  lemma {:induction false} KeyIndex(cs: seq<DirConfig>, n: nat, k: DirKey) returns (j: nat)
    requires n <= |cs| && k in Keys(cs, n)
    ensures j < n && Key(cs[j]) == k
  {
    if Key(cs[n - 1]) == k {
      j := n - 1;
    } else {
      j := KeyIndex(cs, n - 1, k);
    }
  }

  predicate NoDupKeys(cs: seq<DirConfig>) {
    forall i, j :: 0 <= i < j < |cs| ==> Key(cs[i]) != Key(cs[j])
  }

  /** In a list without two equal configurations each key occurs once. */
  lemma {:induction false} OccNoDup(cs: seq<DirConfig>, n: nat, k: DirKey)
    requires n <= |cs| && NoDupKeys(cs)
    ensures Occ(cs, n, k) == if k in Keys(cs, n) then 1 else 0
  {
    if n > 0 {
      OccNoDup(cs, n - 1, k);
      if Key(cs[n - 1]) == k && k in Keys(cs, n - 1) {
        var j := KeyIndex(cs, n - 1, k);
        assert false;
      }
    }
  }

  /**
   * The refcounts after the first `n` passes of the first loop of
   * `_UpdateConfig`: each configuration the client did not hold adds one
   * reference to its key (a new key starts from zero).
   */
  function Acquired(rc: map<DirKey, int>, held: set<DirKey>, cs: seq<DirConfig>, n: nat): map<DirKey, int>
    requires n <= |cs|
  {
    if n == 0 then rc
    else
      var a := Acquired(rc, held, cs, n - 1);
      var k := Key(cs[n - 1]);
      if k in held then a else a[k := Get(a, k) + 1]
  }

  /** Key by key: a key gains one reference per configuration with that key, unless the client held it. */
  lemma {:induction false} AcquiredAt(rc: map<DirKey, int>, held: set<DirKey>, cs: seq<DirConfig>, n: nat, k: DirKey)
    requires n <= |cs|
    ensures k in Acquired(rc, held, cs, n) <==> k in rc || (k in Keys(cs, n) && k !in held)
    ensures Get(Acquired(rc, held, cs, n), k) == Get(rc, k) + (if k in held then 0 else Occ(cs, n, k))
  {
    if n > 0 {
      AcquiredAt(rc, held, cs, n - 1, k);
    }
  }

  /** The refcounts after one reference to each key of `drop` is released; a key whose count reaches zero leaves. */
  function Released(rc: map<DirKey, int>, drop: set<DirKey>): map<DirKey, int> {
    map k | k in rc && !(k in drop && rc[k] == 1) :: if k in drop then rc[k] - 1 else rc[k]
  }

  /** The refcounts after one `Free` of key `k`: one reference less, and the key leaves at zero. */
  function Unref(rc: map<DirKey, int>, k: DirKey): map<DirKey, int> {
    if k !in rc then rc else if rc[k] == 1 then rc - {k} else rc[k := rc[k] - 1]
  }

  /** The refcounts `_UpdateConfig` leaves: references acquired for the new list, then released for the dropped configurations. */
  function Expected(rc: map<DirKey, int>, held: set<DirKey>, cs: seq<DirConfig>): map<DirKey, int> {
    Released(Acquired(rc, held, cs, |cs|), held - KeySet(cs))
  }

  /** The keys of the first `n` configurations in first-occurrence order: the order a dictionary filled from the list enumerates them. */
  function FirstKeys(cs: seq<DirConfig>, n: nat): (r: seq<DirKey>)
    requires n <= |cs|
    ensures NoDup(r) && forall k :: k in r <==> k in Keys(cs, n)
  {
    if n == 0 then []
    else
      var r := FirstKeys(cs, n - 1);
      var k := Key(cs[n - 1]);
      if k in r then r else r + [k]
  }

  /** `Client.__matchercache`: one live matcher per configuration key, shared by all clients. */
  class Cache {
    var entries: map<DirKey, Matcher>
    /** The reference count of each cached matcher. */
    ghost var counts: map<DirKey, int>
    /** The cached matchers and their indexes. */
    ghost var repr: set<object>

    ghost predicate Valid()
      reads this, repr
    {
      && (forall k :: k in entries ==> entries[k] in repr && entries[k].index in repr)
      && counts.Keys == entries.Keys
      && (forall k :: k in entries ==>
            && entries[k].refcnt == counts[k] && counts[k] > 0
            && !entries[k].disposed && !entries[k].index.dead)
      && (forall k, j :: k in entries && j in entries && k != j ==>
            entries[k] != entries[j] && entries[k].index != entries[j].index)
    }

    constructor ()
      ensures entries == map[] && counts == map[] && Valid()
    {
      entries := map[];
      counts := map[];
      repr := {};
    }

    /** The locked block of `_UpdateConfig`: take another reference to the cached matcher, or create one with a single reference. */
    method Acquire(config: DirConfig) returns (m: Matcher, created: bool)
      requires Valid()
      modifies this, repr
      ensures Valid() && old(repr) <= repr && (forall o :: o in repr && o !in old(repr) ==> fresh(o))
      ensures created <==> Key(config) !in old(entries)
      ensures !created ==> m == old(entries[Key(config)])
      ensures created ==> fresh(m) && m.config == config && fresh(m.index)
      ensures entries == old(entries)[Key(config) := m]
      ensures counts == old(counts)[Key(config) := Get(old(counts), Key(config)) + 1]
    {
      var k := Key(config);
      if k in entries {
        m := entries[k];
        RefCached(k);
        created := false;
      } else {
        m := Create(config);
        created := true;
      }
    }

    /** A cache hit: one more reference to the cached matcher. */
    method RefCached(k: DirKey)
      requires Valid() && k in entries
      modifies this, entries[k]
      ensures Valid() && entries == old(entries) && repr == old(repr)
      ensures counts == old(counts)[k := old(counts)[k] + 1]
    {
      var m := entries[k];
      m.Ref();
      counts := counts[k := counts[k] + 1];
    }

    /** A cache miss: a new matcher with one reference, cached under its key. */
    method Create(config: DirConfig) returns (m: Matcher)
      requires Valid() && Key(config) !in entries
      modifies this
      ensures Valid() && old(repr) <= repr && (forall o :: o in repr && o !in old(repr) ==> fresh(o))
      ensures fresh(m) && m.config == config && fresh(m.index)
      ensures entries == old(entries)[Key(config) := m]
      ensures counts == old(counts)[Key(config) := 1]
    {
      var k := Key(config);
      m := new Matcher(config);
      entries := entries[k := m];
      counts := counts[k := 1];
      repr := repr + {m, m.index};
    }

    /** `if (matcher.Free()) __matchercache.Remove(key)`. */
    method Release(k: DirKey)
      requires Valid() && k in entries
      modifies this, entries[k], entries[k].index
      ensures Valid() && repr == old(repr)
      ensures old(counts[k]) == 1 ==> entries == old(entries) - {k} && old(entries[k]).disposed
      ensures old(counts[k]) != 1 ==> entries == old(entries)
      ensures counts == Unref(old(counts), k)
    {
      var m := entries[k];
      var last := m.Free();
      if last {
        entries := entries - {k};
      }
      counts := Unref(counts, k);
    }
  }

  /** The keys among the first `n` of `order` that are not kept. */
  function Dropped(order: seq<DirKey>, n: nat, keep: set<DirKey>): (r: set<DirKey>)
    requires n <= |order|
    ensures forall k :: k in r ==> k in order && k !in keep
    ensures forall j :: 0 <= j < n && order[j] !in keep ==> order[j] in r
  {
    if n == 0 then {}
    else Dropped(order, n - 1, keep) + (if order[n - 1] in keep then {} else {order[n - 1]})
  }

  /** The refcounts after the first `n` keys of `order` not in `keep` are freed, one after another. */
  function UnrefAll(rc: map<DirKey, int>, order: seq<DirKey>, n: nat, keep: set<DirKey>): map<DirKey, int>
    requires n <= |order|
  {
    if n == 0 then rc
    else
      var r := UnrefAll(rc, order, n - 1, keep);
      if order[n - 1] in keep then r else Unref(r, order[n - 1])
  }

  /** In a list without duplicates, a later key is not among those dropped before it. */
  lemma {:induction false} DroppedBefore(order: seq<DirKey>, n: nat, keep: set<DirKey>, i: nat)
    requires NoDup(order) && n <= i < |order|
    ensures order[i] !in Dropped(order, n, keep)
  {
    if n > 0 {
      DroppedBefore(order, n - 1, keep, i);
    }
  }

  /** Freeing one more key not yet released. */
  lemma {:induction false} ReleasedStep(rc: map<DirKey, int>, done: set<DirKey>, k: DirKey)
    requires k !in done
    ensures Unref(Released(rc, done), k) == Released(rc, done + {k})
  {
  }

  /** Freeing distinct keys one after another is releasing the set of them: the order does not matter. */
  lemma {:induction false} UnrefAllReleased(rc: map<DirKey, int>, order: seq<DirKey>, n: nat, keep: set<DirKey>)
    requires NoDup(order) && n <= |order|
    ensures UnrefAll(rc, order, n, keep) == Released(rc, Dropped(order, n, keep))
  {
    if n == 0 {
      assert Released(rc, {}) == rc;
    } else {
      UnrefAllReleased(rc, order, n - 1, keep);
      if order[n - 1] !in keep {
        DroppedBefore(order, n - 1, keep, n - 1);
        ReleasedStep(rc, Dropped(order, n - 1, keep), order[n - 1]);
      }
    }
  }

  /** When `order` lists the keys of `held`, the keys dropped are the held ones not kept. */
  lemma {:induction false} DroppedKeys(order: seq<DirKey>, keep: set<DirKey>, held: set<DirKey>)
    requires forall k :: k in held <==> k in order
    ensures Dropped(order, |order|, keep) == held - keep
  {
    forall k | k in held - keep
      ensures k in Dropped(order, |order|, keep)
    {
      var j :| 0 <= j < |order| && order[j] == k;
    }
  }

  /**
   * What the first `i` passes of the release loop leave, seen in the cache's
   * `entries` and `counts`: the refcounts are those `UnrefAll` predicts from
   * the counts before (`rc`), the keys still to be freed are cached, and the
   * cache is the one before (`e0`) less some of the keys freed so far.
   */
  ghost predicate Releasing(entries: map<DirKey, Matcher>, counts: map<DirKey, int>,
                            order: seq<DirKey>, keep: set<DirKey>, i: nat,
                            e0: map<DirKey, Matcher>, rc: map<DirKey, int>)
  {
    && i <= |order|
    && counts == UnrefAll(rc, order, i, keep)
    && (forall j :: i <= j < |order| && order[j] !in keep ==> order[j] in entries)
    && (forall k :: k in entries ==> k in e0 && entries[k] == e0[k])
    && (forall k :: k in e0 && k !in Dropped(order, i, keep) ==> k in entries)
  }

  /** One pass of the release loop takes `Releasing` from the first `i` keys to the first `i + 1`. */
  lemma {:induction false} ReleasingStep(entries: map<DirKey, Matcher>, counts: map<DirKey, int>,
                      entries': map<DirKey, Matcher>, counts': map<DirKey, int>,
                      order: seq<DirKey>, keep: set<DirKey>, i: nat,
                      e0: map<DirKey, Matcher>, rc: map<DirKey, int>)
    requires NoDup(order) && i < |order| && Releasing(entries, counts, order, keep, i, e0, rc)
    requires order[i] in keep ==> entries' == entries && counts' == counts
    requires order[i] !in keep ==>
      counts' == Unref(counts, order[i]) && (entries' == entries || entries' == entries - {order[i]})
    ensures Releasing(entries', counts', order, keep, i + 1, e0, rc)
  {
  }

  /**
   * The second loop of `_UpdateConfig` and the `finally` of `ev_client`:
   * walk the client's keys in order and free the matcher of each one not kept.
   */
  method ReleaseAll(cache: Cache, order: seq<DirKey>, keep: set<DirKey>)
    requires cache.Valid() && NoDup(order)
    requires forall j :: 0 <= j < |order| && order[j] !in keep ==> order[j] in cache.entries
    modifies cache, cache.repr
    ensures cache.Valid() && cache.repr == old(cache.repr)
    ensures Releasing(cache.entries, cache.counts, order, keep, |order|, old(cache.entries), old(cache.counts))
  {
    ReleaseFrom(cache, order, keep, 0, cache.entries, cache.counts);
  }

  /** The passes of the release loop from key `i` on: one pass, then the rest. */
  method ReleaseFrom(cache: Cache, order: seq<DirKey>, keep: set<DirKey>, i: nat,
                     ghost e0: map<DirKey, Matcher>, ghost rc: map<DirKey, int>)
    requires cache.Valid() && NoDup(order)
    requires Releasing(cache.entries, cache.counts, order, keep, i, e0, rc)
    modifies cache, cache.repr
    ensures cache.Valid() && cache.repr == old(cache.repr)
    ensures Releasing(cache.entries, cache.counts, order, keep, |order|, e0, rc)
    decreases |order| - i
  {
    if i < |order| {
      var k := order[i];
      ghost var entries, counts := cache.entries, cache.counts;
      if k !in keep {
        cache.Release(k);
      }
      ReleasingStep(entries, counts, cache.entries, cache.counts, order, keep, i, e0, rc);
      ReleaseFrom(cache, order, keep, i + 1, e0, rc);
    }
  }

  /** `Client`: the matchers one connection holds, in the order its dictionary enumerates them. */
  class Client {
    var held: map<DirKey, Matcher>
    var order: seq<DirKey>

    ghost predicate Valid()
      reads this
    {
      NoDup(order) && forall k :: k in held <==> k in order
    }

    /** Every matcher the client holds is the cache's matcher for that key. */
    ghost predicate HeldIn(cache: Cache)
      reads this, cache
    {
      forall k :: k in held ==> k in cache.entries && cache.entries[k] == held[k]
    }

    constructor ()
      ensures held == map[] && order == [] && Valid()
    {
      held := map[];
      order := [];
    }

    /**
     * `Client._UpdateConfig`: keep the matchers of configurations already
     * held, take a reference to (or create) the cached matcher of each new one,
     * then free the matchers of configurations no longer listed.
     */
    method UpdateConfig(cache: Cache, configs: seq<DirConfig>) returns (needInit: seq<Matcher>)
      requires Valid() && cache.Valid() && HeldIn(cache) && this !in cache.repr
      modifies this, cache, cache.repr
      ensures Valid() && cache.Valid() && HeldIn(cache) && this !in cache.repr
      ensures old(cache.repr) <= cache.repr && (forall o :: o in cache.repr && o !in old(cache.repr) ==> fresh(o))
      ensures held.Keys == KeySet(configs) && order == FirstKeys(configs, |configs|)
      ensures forall k :: k in held && k in old(held) ==> held[k] == old(held[k])
      ensures forall k :: k in held && k !in old(held) && k in old(cache.entries) ==> held[k] == old(cache.entries[k])
      ensures forall k :: k in held && k !in old(cache.entries) ==> fresh(held[k]) && held[k] in needInit
      ensures cache.counts == Expected(old(cache.counts), old(held.Keys), configs)
    {
      var mine, keys := held, order;
      ghost var rc := cache.counts;
      var newHeld;
      newHeld, needInit := AcquireAll(cache, mine, configs);
      ReleaseAll(cache, keys, newHeld.Keys);
      UnrefAllReleased(Acquired(rc, mine.Keys, configs, |configs|), keys, |keys|, newHeld.Keys);
      DroppedKeys(keys, newHeld.Keys, mine.Keys);
      held := newHeld;
      order := FirstKeys(configs, |configs|);
    }

    /** The `finally` of `ev_client`: free every held matcher, evicting those whose count reaches zero. */
    method Disconnect(cache: Cache)
      requires Valid() && cache.Valid() && HeldIn(cache) && this !in cache.repr
      modifies this, cache, cache.repr
      ensures Valid() && cache.Valid() && held == map[] && order == [] && cache.repr == old(cache.repr)
      ensures cache.counts == Released(old(cache.counts), old(held.Keys))
    {
      var mine, keys := held, order;
      ghost var rc := cache.counts;
      ReleaseAll(cache, keys, {});
      UnrefAllReleased(rc, keys, |keys|, {});
      DroppedKeys(keys, {}, mine.Keys);
      assert mine.Keys - {} == mine.Keys;
      held := map[];
      order := [];
    }
  }

  /**
   * What the first `i` passes of the first loop of `_UpdateConfig` leave, seen
   * in the cache's `entries` and `counts`: the matchers found so far are the
   * cache's, the matchers cached before (`e0`) are still cached, every newly
   * cached one awaits its first scan, and the refcounts are those `Acquired`
   * predicts from the counts before (`rc`).
   */
  ghost predicate Progress(entries: map<DirKey, Matcher>, counts: map<DirKey, int>,
                           held: set<DirKey>, configs: seq<DirConfig>, i: nat,
                           e0: map<DirKey, Matcher>, rc: map<DirKey, int>,
                           newHeld: map<DirKey, Matcher>, needInit: seq<Matcher>)
  {
    && i <= |configs|
    && newHeld.Keys == Keys(configs, i)
    && (forall k :: k in newHeld ==> k in entries && entries[k] == newHeld[k])
    && (forall k :: k in e0 ==> k in entries && entries[k] == e0[k])
    && (forall k :: k in entries && k !in e0 ==> entries[k] in needInit)
    && counts == Acquired(rc, held, configs, i)
  }

  /** One pass of the first loop takes `Progress` from the first `i` configurations to the first `i + 1`. */
  lemma {:induction false} ProgressStep(entries: map<DirKey, Matcher>, counts: map<DirKey, int>,
                     held: set<DirKey>, configs: seq<DirConfig>, i: nat,
                     e0: map<DirKey, Matcher>, rc: map<DirKey, int>,
                     newHeld: map<DirKey, Matcher>, needInit: seq<Matcher>,
                     m: Matcher, created: bool)
    requires i < |configs| && Progress(entries, counts, held, configs, i, e0, rc, newHeld, needInit)
    requires var k := Key(configs[i]);
      && (k in held ==> !created)
      && (k in entries ==> m == entries[k] && !created)
      && (k !in entries ==> created)
    ensures var k := Key(configs[i]);
      Progress(entries[k := m], if k in held then counts else counts[k := Get(counts, k) + 1],
               held, configs, i + 1, e0, rc,
               newHeld[k := m], if created then needInit + [m] else needInit)
  {
  }

  /**
   * The first loop of `_UpdateConfig`: the matcher for each listed
   * configuration, the client's own where it already holds the key, else one
   * acquired from the cache. The new matchers are returned for their first scan.
   */
  method AcquireAll(cache: Cache, held: map<DirKey, Matcher>, configs: seq<DirConfig>)
      returns (newHeld: map<DirKey, Matcher>, needInit: seq<Matcher>)
    requires cache.Valid()
    requires forall k :: k in held ==> k in cache.entries && cache.entries[k] == held[k]
    modifies cache, cache.repr
    ensures cache.Valid() && old(cache.repr) <= cache.repr && (forall o :: o in cache.repr && o !in old(cache.repr) ==> fresh(o))
    ensures Progress(cache.entries, cache.counts, held.Keys, configs, |configs|, old(cache.entries), old(cache.counts), newHeld, needInit)
    ensures forall x :: x in needInit ==> fresh(x)
  {
    newHeld, needInit := AcquireFrom(cache, held, configs, 0, cache.entries, cache.counts, map[], []);
  }

  /** The passes of the first loop of `_UpdateConfig` from configuration `i` on: one pass, then the rest. */
  method AcquireFrom(cache: Cache, held: map<DirKey, Matcher>, configs: seq<DirConfig>, i: nat,
                     ghost e0: map<DirKey, Matcher>, ghost rc: map<DirKey, int>,
                     newHeld: map<DirKey, Matcher>, needInit: seq<Matcher>)
      returns (heldOut: map<DirKey, Matcher>, initOut: seq<Matcher>)
    requires i <= |configs| && cache.Valid()
    requires forall k :: k in held ==> k in e0 && e0[k] == held[k]
    requires Progress(cache.entries, cache.counts, held.Keys, configs, i, e0, rc, newHeld, needInit)
    modifies cache, cache.repr
    ensures cache.Valid() && old(cache.repr) <= cache.repr && (forall o :: o in cache.repr && o !in old(cache.repr) ==> fresh(o))
    ensures Progress(cache.entries, cache.counts, held.Keys, configs, |configs|, e0, rc, heldOut, initOut)
    ensures forall x :: x in initOut ==> x in needInit || fresh(x)
    decreases |configs| - i
  {
    if i == |configs| {
      return newHeld, needInit;
    }
    var h, n := AcquireNext(cache, held, configs, i, e0, rc, newHeld, needInit);
    heldOut, initOut := AcquireFrom(cache, held, configs, i + 1, e0, rc, h, n);
  }

  /** One pass of the first loop of `_UpdateConfig`, stated as the step from the first `i` configurations to the first `i + 1`. */
  method AcquireNext(cache: Cache, held: map<DirKey, Matcher>, configs: seq<DirConfig>, i: nat,
                     ghost e0: map<DirKey, Matcher>, ghost rc: map<DirKey, int>,
                     newHeld: map<DirKey, Matcher>, needInit: seq<Matcher>)
      returns (heldNext: map<DirKey, Matcher>, initNext: seq<Matcher>)
    requires i < |configs| && cache.Valid()
    requires forall k :: k in held ==> k in e0 && e0[k] == held[k]
    requires Progress(cache.entries, cache.counts, held.Keys, configs, i, e0, rc, newHeld, needInit)
    modifies cache, cache.repr
    ensures cache.Valid() && old(cache.repr) <= cache.repr && (forall o :: o in cache.repr && o !in old(cache.repr) ==> fresh(o))
    ensures Progress(cache.entries, cache.counts, held.Keys, configs, i + 1, e0, rc, heldNext, initNext)
    ensures forall x :: x in initNext ==> x in needInit || fresh(x)
  {
    var k := Key(configs[i]);
    ghost var entries, counts := cache.entries, cache.counts;
    var m, created := Take(cache, held, configs[i]);
    ProgressStep(entries, counts, held.Keys, configs, i, e0, rc, newHeld, needInit, m, created);
    initNext := if created then needInit + [m] else needInit;
    heldNext := newHeld[k := m];
  }

  /** One pass of the first loop of `_UpdateConfig`: the client's own matcher for a held key, else one acquired from the cache. */
  method Take(cache: Cache, held: map<DirKey, Matcher>, c: DirConfig) returns (m: Matcher, created: bool)
    requires cache.Valid()
    requires forall k :: k in held ==> k in cache.entries && cache.entries[k] == held[k]
    modifies cache, cache.repr
    ensures cache.Valid() && old(cache.repr) <= cache.repr && (forall o :: o in cache.repr && o !in old(cache.repr) ==> fresh(o))
    ensures cache.entries == old(cache.entries)[Key(c) := m]
    ensures Key(c) in held ==> m == held[Key(c)] && !created
    ensures Key(c) in old(cache.entries) ==> m == old(cache.entries[Key(c)]) && !created
    ensures Key(c) !in old(cache.entries) ==> fresh(m) && created
    ensures cache.counts == if Key(c) in held then old(cache.counts)
      else old(cache.counts)[Key(c) := Get(old(cache.counts), Key(c)) + 1]
  {
    if Key(c) in held {
      return held[Key(c)], false;
    }
    m, created := cache.Acquire(c);
  }
}
