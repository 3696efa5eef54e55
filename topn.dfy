/**
 * The bounded best-N collection the matchers fill (`TopN<string>`, whose source
 * is not part of this model). It is given one concrete insertion strategy so
 * that it can be computed, but only its abstract promises are proved: at most
 * `capacity` items, each of them added, none dropped scoring above one kept,
 * iterated best score first. Nothing is claimed about the order of ties.
 */
module Ranking {

  /** `ScoredItem<string>`: an item with its score. */
  datatype Scored = Scored(score: int, item: string)

  datatype TopN = TopN(capacity: nat, items: seq<Scored>)

  /** Best score first. */
  predicate Descending(s: seq<Scored>) {
    forall i, j :: 0 <= i < j < |s| ==> s[j].score <= s[i].score
  }

  predicate Valid(t: TopN) {
    |t.items| <= t.capacity && Descending(t.items)
  }

  /** `new TopN<string>(capacity)`. */
  function Empty(capacity: nat): (t: TopN)
    ensures Valid(t) && t.items == []
  {
    TopN(capacity, [])
  }

  /** `x` placed into the descending `s` after every item scoring at least as much. */
  function Place(x: Scored, s: seq<Scored>): (r: seq<Scored>)
    ensures multiset(r) == multiset(s) + multiset{x}
    ensures |r| == |s| + 1
  {
    if s == [] || x.score > s[0].score then [x] + s
    else
      assert s == [s[0]] + s[1..];
      [s[0]] + Place(x, s[1..])
  }

  /** Placing keeps the order, and no position's score goes down. */
  lemma {:induction false} PlaceKeepsOrder(x: Scored, s: seq<Scored>)
    requires Descending(s)
    ensures Descending(Place(x, s))
    ensures forall i :: 0 <= i < |s| ==> s[i].score <= Place(x, s)[i].score
  {
    if s == [] || x.score > s[0].score {
      PlaceFront(x, s);
    } else {
      var t := Place(x, s[1..]);
      PlaceKeepsOrder(x, s[1..]);
      PlaceBounded(x, s[1..], s[0].score);
      assert Place(x, s) == [s[0]] + t;
      ConsDescending(s[0], t);
      ConsRaises(s, t);
    }
  }

  /** An item scoring above the head of a descending sequence goes in front, and nothing scores lower there. */
  lemma {:induction false} PlaceFront(x: Scored, s: seq<Scored>)
    requires Descending(s) && (s == [] || x.score > s[0].score)
    ensures Place(x, s) == [x] + s
    ensures Descending([x] + s)
    ensures forall i :: 0 <= i < |s| ==> s[i].score <= ([x] + s)[i].score
  {
    var r := [x] + s;
    forall i, j | 0 <= i < j < |r| ensures r[j].score <= r[i].score {
      assert r[j] == s[j - 1];
      if i > 0 {
        assert r[i] == s[i - 1];
      }
    }
    forall i | 0 <= i < |s| ensures s[i].score <= r[i].score {
      if i > 0 {
        assert r[i] == s[i - 1];
      }
    }
  }

  /** A head scoring at least every item of a descending tail keeps the whole descending. */
  lemma {:induction false} ConsDescending(h: Scored, t: seq<Scored>)
    requires Descending(t) && forall i :: 0 <= i < |t| ==> t[i].score <= h.score
    ensures Descending([h] + t)
  {
    var r := [h] + t;
    forall i, j | 0 <= i < j < |r| ensures r[j].score <= r[i].score {
      assert r[j] == t[j - 1];
      if i > 0 {
        assert r[i] == t[i - 1];
      }
    }
  }

  /** Keeping the head and raising the tail pointwise raises the whole pointwise. */
  lemma {:induction false} ConsRaises(s: seq<Scored>, t: seq<Scored>)
    requires s != [] && |t| >= |s| - 1
    requires forall i :: 0 <= i < |s| - 1 ==> s[1..][i].score <= t[i].score
    ensures forall i :: 0 <= i < |s| ==> s[i].score <= ([s[0]] + t)[i].score
  {
    forall i | 0 < i < |s| ensures s[i].score <= ([s[0]] + t)[i].score {
      assert s[i] == s[1..][i - 1];
    }
  }

  lemma {:induction false} PlaceBounded(x: Scored, s: seq<Scored>, b: int)
    requires x.score <= b && forall i :: 0 <= i < |s| ==> s[i].score <= b
    ensures forall i :: 0 <= i < |Place(x, s)| ==> Place(x, s)[i].score <= b
  {
    if s != [] && x.score <= s[0].score {
      PlaceBounded(x, s[1..], b);
    }
  }

  /** `TopN.Add(score, item)`. */
  function Add(t: TopN, x: Scored): (r: TopN)
    requires Valid(t)
    ensures Valid(r) && r.capacity == t.capacity
  {
    var all := Place(x, t.items);
    PlaceKeepsOrder(x, t.items);
    TopN(t.capacity, if |all| <= t.capacity then all else all[..t.capacity])
  }

  /** The collection after adding `xs` in order. */
  function AddAll(t: TopN, xs: seq<Scored>): (r: TopN)
    requires Valid(t)
    ensures Valid(r) && r.capacity == t.capacity
  {
    if xs == [] then t else Add(AddAll(t, xs[..|xs| - 1]), xs[|xs| - 1])
  }

  /** Adding one more item of `xs` to the collection. */
  lemma {:induction false} AddAllStep(t: TopN, xs: seq<Scored>, j: nat)
    requires Valid(t) && j < |xs|
    ensures AddAll(t, xs[..j + 1]) == Add(AddAll(t, xs[..j]), xs[j])
  {
    assert xs[..j + 1][..j] == xs[..j];
  }

  /** The items one `Add` lets go: the one pushed past the capacity, if any. */
  function Overflow(t: TopN, x: Scored): multiset<Scored> {
    var all := Place(x, t.items);
    if |all| <= t.capacity then multiset{} else multiset(all[t.capacity..])
  }

  /** The items the collection let go while `xs` were added to an empty one. */
  ghost function Dropped(capacity: nat, xs: seq<Scored>): multiset<Scored> {
    if xs == [] then multiset{}
    else Dropped(capacity, xs[..|xs| - 1]) + Overflow(AddAll(Empty(capacity), xs[..|xs| - 1]), xs[|xs| - 1])
  }

  /** No item of `ds` scores above `b`. */
  predicate ScoresAtMost(ds: multiset<Scored>, b: int) {
    forall d :: d in ds ==> d.score <= b
  }

  /** Cutting a descending sequence at `n`: the two parts together are the whole, and the tail scores no higher than the head's last. */
  lemma {:induction false} CutDescending(all: seq<Scored>, n: nat)
    requires Descending(all) && 0 < n <= |all|
    ensures multiset(all[..n]) + multiset(all[n..]) == multiset(all)
    ensures ScoresAtMost(multiset(all[n..]), all[n - 1].score)
  {
    assert all == all[..n] + all[n..];
    forall d | d in multiset(all[n..]) ensures d.score <= all[n - 1].score {
      var k :| 0 <= k < |all[n..]| && all[n..][k] == d;
      assert all[n + k] == d;
    }
  }

  /** One `Add` keeps all but its overflow, and the overflow scores no higher than the new last item. */
  lemma {:induction false} AddStep(t: TopN, x: Scored)
    requires Valid(t)
    ensures multiset(Add(t, x).items) + Overflow(t, x) == multiset(t.items) + multiset{x}
    ensures |Add(t, x).items| == if |t.items| < t.capacity then |t.items| + 1 else t.capacity
    ensures |t.items| < t.capacity ==> Overflow(t, x) == multiset{}
    ensures |Add(t, x).items| > 0 ==> ScoresAtMost(Overflow(t, x), Add(t, x).items[|Add(t, x).items| - 1].score)
  {
    var all := Place(x, t.items);
    if |all| <= t.capacity {
      assert Add(t, x).items == all && Overflow(t, x) == multiset{};
    } else if t.capacity == 0 {
      assert Add(t, x).items == [] && all[0..] == all;
    } else {
      PlaceKeepsOrder(x, t.items);
      CutDescending(all, t.capacity);
      assert Add(t, x).items == all[..t.capacity] && Overflow(t, x) == multiset(all[t.capacity..]);
    }
  }

  /** Adding `xs` to an empty collection keeps min(capacity, |xs|) items, and kept plus dropped is what was added. */
  lemma {:induction false} AddAllConserves(capacity: nat, xs: seq<Scored>)
    ensures |AddAll(Empty(capacity), xs).items| == if |xs| <= capacity then |xs| else capacity
    ensures multiset(AddAll(Empty(capacity), xs).items) + Dropped(capacity, xs) == multiset(xs)
  {
    if xs != [] {
      var init, x := xs[..|xs| - 1], xs[|xs| - 1];
      assert xs == init + [x];
      assert multiset(xs) == multiset(init) + multiset{x};
      var t := AddAll(Empty(capacity), init);
      AddAllConserves(capacity, init);
      AddStep(t, x);
      Regroup(multiset(t.items), Dropped(capacity, init), multiset(init),
              multiset(Add(t, x).items), Overflow(t, x), multiset{x});
    }
  }

  /** Moving one item from the kept side to the dropped side keeps the sum. */
  lemma {:induction false} Regroup<T>(kept: multiset<T>, dropped: multiset<T>, total: multiset<T>,
                   kept': multiset<T>, overflow: multiset<T>, added: multiset<T>)
    requires kept + dropped == total
    requires kept' + overflow == kept + added
    ensures kept' + (dropped + overflow) == total + added
  {
    calc {
      kept' + (dropped + overflow);
      (kept' + overflow) + dropped;
      (kept + added) + dropped;
      (kept + dropped) + added;
    }
  }

  /** Every dropped item scores no higher than the last (lowest) kept one. */
  lemma {:induction false} DroppedBelowLast(capacity: nat, xs: seq<Scored>)
    ensures var t := AddAll(Empty(capacity), xs);
      |t.items| > 0 ==> ScoresAtMost(Dropped(capacity, xs), t.items[|t.items| - 1].score)
  {
    if xs != [] {
      var init, x := xs[..|xs| - 1], xs[|xs| - 1];
      var t := AddAll(Empty(capacity), init);
      DroppedBelowLast(capacity, init);
      FullOnceDropped(capacity, init);
      BelowLastStep(t, x, Dropped(capacity, init));
    }
  }

  /** Once an item was dropped, the collection is full. */
  lemma {:induction false} FullOnceDropped(capacity: nat, xs: seq<Scored>)
    ensures Dropped(capacity, xs) != multiset{} ==> |AddAll(Empty(capacity), xs).items| == capacity
  {
    AddAllConserves(capacity, xs);
    var t := AddAll(Empty(capacity), xs);
    assert |multiset(t.items) + Dropped(capacity, xs)| == |xs|;
  }

  /** Items below the last kept one stay below it after an `Add`, and so does the overflow of the `Add`. */
  lemma {:induction false} BelowLastStep(t: TopN, x: Scored, d0: multiset<Scored>)
    requires Valid(t)
    requires d0 != multiset{} ==> |t.items| == t.capacity
    requires |t.items| > 0 ==> ScoresAtMost(d0, t.items[|t.items| - 1].score)
    ensures var r := Add(t, x);
      |r.items| > 0 ==> ScoresAtMost(d0 + Overflow(t, x), r.items[|r.items| - 1].score)
  {
    AddStep(t, x);
    if d0 != multiset{} && t.capacity > 0 {
      LastNotLower(t, x);
    }
  }

  /** When the collection is full, an `Add` does not lower the last kept score. */
  lemma {:induction false} LastNotLower(t: TopN, x: Scored)
    requires Valid(t) && |t.items| == t.capacity > 0
    ensures t.items[t.capacity - 1].score <= Add(t, x).items[t.capacity - 1].score
  {
    PlaceKeepsOrder(x, t.items);
  }

  /**
   * After `xs` are added to an empty collection: it keeps min(capacity, |xs|)
   * of them, best first; kept and dropped together are exactly what was added;
   * and no dropped item scores above a kept one.
   */
  lemma {:induction false} AddAllKeepsBest(capacity: nat, xs: seq<Scored>)
    ensures var t := AddAll(Empty(capacity), xs);
      && |t.items| == (if |xs| <= capacity then |xs| else capacity)
      && Descending(t.items)
      && multiset(t.items) + Dropped(capacity, xs) == multiset(xs)
      && forall d, r :: d in Dropped(capacity, xs) && r in t.items ==> d.score <= r.score
  {
    AddAllConserves(capacity, xs);
    DroppedBelowKept(capacity, xs);
  }

  /** No dropped item scores above a kept one. */
  lemma {:induction false} DroppedBelowKept(capacity: nat, xs: seq<Scored>)
    ensures var t := AddAll(Empty(capacity), xs);
      forall d, r :: d in Dropped(capacity, xs) && r in t.items ==> d.score <= r.score
  {
    DroppedBelowLast(capacity, xs);
    BelowKept(Dropped(capacity, xs), AddAll(Empty(capacity), xs).items);
  }

  /** Items scoring no higher than the last of a descending sequence score no higher than any of it. */
  lemma {:induction false} BelowKept(ds: multiset<Scored>, s: seq<Scored>)
    requires Descending(s)
    requires |s| > 0 ==> ScoresAtMost(ds, s[|s| - 1].score)
    ensures forall d, r :: d in ds && r in s ==> d.score <= r.score
  {
    forall d, r | d in ds && r in s ensures d.score <= r.score {
      var k :| 0 <= k < |s| && s[k] == r;
    }
  }

  /** Adding `xs` then `ys` is adding `xs + ys`. */
  lemma {:induction false} AddAllAppend(t: TopN, xs: seq<Scored>, ys: seq<Scored>)
    requires Valid(t)
    ensures AddAll(t, xs + ys) == AddAll(AddAll(t, xs), ys)
  {
    if ys != [] {
      var init := ys[..|ys| - 1];
      assert (xs + ys)[..|xs + ys| - 1] == xs + init;
      AddAllAppend(t, xs, init);
    } else {
      assert xs + ys == xs;
    }
  }
}
