/**
 * The reference-count invariant of the matcher cache (server.cs): every cached
 * matcher is counted once per client holding its configuration, and both the
 * configuration update and the end of a session keep it so.
 */
module Refcounts {
  import opened Config
  import opened Session

  /** How many of the clients, each given by the keys it holds, hold key `k`. */
  function Holders(hs: seq<set<DirKey>>, k: DirKey): nat {
    if hs == [] then 0 else Holders(hs[..|hs| - 1], k) + (if k in hs[|hs| - 1] then 1 else 0)
  }

  /** The refcounts agree with the clients: each cached key is counted once per client holding it, and no other key is cached. */
  ghost predicate Counted(rc: map<DirKey, int>, hs: seq<set<DirKey>>) {
    forall k :: (k in rc ==> rc[k] > 0) && Get(rc, k) == Holders(hs, k)
  }

  /** Replacing what client `c` holds changes each key's holder count by what that client gains or loses. */
  lemma {:induction false} HoldersUpdate(hs: seq<set<DirKey>>, c: nat, s: set<DirKey>, k: DirKey)
    requires c < |hs|
    ensures Holders(hs[c := s], k) == Holders(hs, k) - (if k in hs[c] then 1 else 0) + (if k in s then 1 else 0)
  {
    var n := |hs| - 1;
    if c < n {
      assert hs[c := s][..n] == hs[..n][c := s];
      HoldersUpdate(hs[..n], c, s, k);
    } else {
      assert hs[c := s][..n] == hs[..n];
    }
  }

  /** A client that holds nothing adds nobody to any count. */
  lemma {:induction false} HoldersOfIdle(hs: seq<set<DirKey>>, k: DirKey)
    ensures Holders(hs + [{}], k) == Holders(hs, k)
  {
    assert (hs + [{}])[..|hs|] == hs;
  }

  /** A client that holds nothing can join or leave without disturbing the invariant. */
  lemma {:induction false} IdleJoins(rc: map<DirKey, int>, hs: seq<set<DirKey>>)
    ensures Counted(rc, hs + [{}]) <==> Counted(rc, hs)
  {
    forall k {
      HoldersOfIdle(hs, k);
    }
  }

  /**
   * The refcount invariant kept by `_UpdateConfig`: when every cached key is
   * counted once per client holding it, and client `c` moves to a list of
   * distinct configurations, the refcounts `_UpdateConfig` leaves count the
   * clients again, with `c` now holding the keys of that list.
   */
  lemma {:induction false} UpdateKeepsCounted(rc: map<DirKey, int>, hs: seq<set<DirKey>>, c: nat, cs: seq<DirConfig>)
    requires c < |hs| && Counted(rc, hs) && NoDupKeys(cs)
    ensures Counted(Expected(rc, hs[c], cs), hs[c := KeySet(cs)])
  {
    var held, s := hs[c], KeySet(cs);
    var a := Acquired(rc, held, cs, |cs|);
    forall k
      ensures (k in Expected(rc, held, cs) ==> Expected(rc, held, cs)[k] > 0)
      ensures Get(Expected(rc, held, cs), k) == Holders(hs[c := s], k)
    {
      AcquiredAt(rc, held, cs, |cs|, k);
      OccNoDup(cs, |cs|, k);
      HoldersUpdate(hs, c, s, k);
      assert Get(rc, k) == Holders(hs, k);
    }
  }

  /** The refcount invariant kept by the cleanup when a session ends: the client's keys are released and it holds nothing. */
  lemma {:induction false} DisconnectKeepsCounted(rc: map<DirKey, int>, hs: seq<set<DirKey>>, c: nat)
    requires c < |hs| && Counted(rc, hs)
    ensures Counted(Released(rc, hs[c]), hs[c := {}])
  {
    UpdateKeepsCounted(rc, hs, c, []);
    assert hs[c] - KeySet([]) == hs[c];
  }

  /**
   * Why the invariant needs distinct configurations: a client holding nothing
   * that is given the same configuration twice takes two references to its
   * matcher but holds it once.
   */
  lemma {:induction false} DuplicateLeaks(c: DirConfig)
    ensures Counted(map[], [{}])
    ensures Get(Expected(map[], {}, [c, c]), Key(c)) == 2
    ensures !Counted(Expected(map[], {}, [c, c]), [KeySet([c, c])])
  {
    var k := Key(c);
    assert Holders([{}], k) == 0 by { HoldersOfIdle([], k); }
    AcquiredAt(map[], {}, [c, c], 2, k);
    assert Holders([KeySet([c, c])], k) == 1 by { assert [KeySet([c, c])][..0] == []; }
  }
}
