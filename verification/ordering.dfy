/**
 * `sortBookmarks` (bookmark-list.tsx): newest first by creation time.
 * `Array.prototype.sort` is stable, so items created at the same time keep
 * their relative order; the model is a stable insertion sort.
 */
module Ordering {
  import opened Records

  /** Non-increasing by creation time. */
  predicate Sorted(s: seq<Item>) {
    forall i, j | 0 <= i < j < |s| :: s[i].createdAt >= s[j].createdAt
  }

  /** Places `x` before the first item that is not newer than it. */
  function InsertByTime(x: Item, s: seq<Item>): (r: seq<Item>)
    requires Sorted(s)
    ensures Sorted(r)
    ensures |r| == |s| + 1
    ensures multiset(r) == multiset(s) + multiset{x}
    ensures r[0] == x || (|s| > 0 && r[0] == s[0])
  {
    if |s| == 0 || s[0].createdAt <= x.createdAt then
      ConsSorted(x, s);
      [x] + s
    else
      var rest := InsertByTime(x, s[1..]);
      assert s == [s[0]] + s[1..];
      assert rest[0].createdAt <= s[0].createdAt;
      ConsSorted(s[0], rest);
      [s[0]] + rest
  }

  /** An item no older than the head of a sorted list can go in front of it. */
  lemma ConsSorted(a: Item, r: seq<Item>)
    requires Sorted(r) && (|r| == 0 || a.createdAt >= r[0].createdAt)
    ensures Sorted([a] + r)
  {
    var t := [a] + r;
    forall i, j | 0 <= i < j < |t| ensures t[i].createdAt >= t[j].createdAt {
      assert t[j] == r[j - 1];
      if i > 0 {
        assert t[i] == r[i - 1];
      } else {
        assert r[0].createdAt >= r[j - 1].createdAt;
      }
    }
  }

  function SortBookmarks(s: seq<Item>): (r: seq<Item>)
    ensures Sorted(r)
    ensures |r| == |s|
    ensures multiset(r) == multiset(s)
  {
    if |s| == 0 then []
    else
      assert s == [s[0]] + s[1..];
      InsertByTime(s[0], SortBookmarks(s[1..]))
  }

  /** The items of `s` created at time `t`, in their order in `s`. */
  function CreatedAt(s: seq<Item>, t: int): seq<Item> {
    if |s| == 0 then []
    else (if s[0].createdAt == t then [s[0]] else []) + CreatedAt(s[1..], t)
  }

  lemma {:induction false} CreatedAtConcat(a: seq<Item>, b: seq<Item>, t: int)
    ensures CreatedAt(a + b, t) == CreatedAt(a, t) + CreatedAt(b, t)
  {
    if |a| == 0 {
      assert a + b == b;
    } else {
      var head := if a[0].createdAt == t then [a[0]] else [];
      assert (a + b)[0] == a[0] && (a + b)[1..] == a[1..] + b;
      CreatedAtConcat(a[1..], b, t);
      assert CreatedAt(a + b, t) == head + (CreatedAt(a[1..], t) + CreatedAt(b, t));
      assert CreatedAt(a, t) == head + CreatedAt(a[1..], t);
    }
  }

  /** The items of a one-item list created at time `t`. */
  lemma CreatedAtOne(y: Item, t: int)
    ensures CreatedAt([y], t) == if y.createdAt == t then [y] else []
  {
    assert [y][1..] == [];
  }

  /** No item of `s` was created at time `t`. */
  lemma {:induction false} CreatedAtNone(s: seq<Item>, t: int)
    requires forall i | 0 <= i < |s| :: s[i].createdAt != t
    ensures CreatedAt(s, t) == []
  {
    if |s| > 0 {
      assert forall i | 0 <= i < |s| - 1 :: s[1..][i] == s[i + 1];
      CreatedAtNone(s[1..], t);
    }
  }

  /** Inserting `x` adds it in front of every item created at the same time. */
  lemma InsertByTimeStable(x: Item, s: seq<Item>, t: int)
    requires Sorted(s)
    ensures CreatedAt(InsertByTime(x, s), t) == CreatedAt([x], t) + CreatedAt(s, t)
  {
    var k := InsertPosition(x, s);
    InsertByTimeSplits(x, s);
    StableAt(s, k, x, t);
  }

  /** `StableAround` for the split of `s` at index `k`. */
  lemma StableAt(s: seq<Item>, k: nat, x: Item, t: int)
    requires k <= |s|
    requires forall i | 0 <= i < k :: s[i].createdAt > x.createdAt
    ensures CreatedAt(s[..k] + [x] + s[k..], t) == CreatedAt([x], t) + CreatedAt(s, t)
  {
    var front, back := s[..k], s[k..];
    assert forall i | 0 <= i < |front| :: front[i] == s[i];
    StableAround(front, x, back, t);
    assert front + back == s;
  }

  /** `x` placed after items all strictly newer than it comes first among the items of its time. */
  lemma StableAround(front: seq<Item>, x: Item, back: seq<Item>, t: int)
    requires forall i | 0 <= i < |front| :: front[i].createdAt > x.createdAt
    ensures CreatedAt(front + [x] + back, t) == CreatedAt([x], t) + CreatedAt(front + back, t)
  {
    var cf, cx, cb := CreatedAt(front, t), CreatedAt([x], t), CreatedAt(back, t);
    CreatedAtThree(front, [x], back, t);
    CreatedAtConcat(front, back, t);
    if x.createdAt == t {
      CreatedAtNone(front, t);
      assert cf + cx + cb == cx + (cf + cb);
    } else {
      CreatedAtOne(x, t);
      assert cf + cx + cb == cx + (cf + cb);
    }
  }

  lemma CreatedAtThree(a: seq<Item>, b: seq<Item>, c: seq<Item>, t: int)
    ensures CreatedAt(a + b + c, t) == CreatedAt(a, t) + CreatedAt(b, t) + CreatedAt(c, t)
  {
    CreatedAtConcat(a + b, c, t);
    CreatedAtConcat(a, b, t);
  }

  /** Stability: for every creation time, the items created then keep their order. */
  lemma {:induction false} SortStable(s: seq<Item>, t: int)
    ensures CreatedAt(SortBookmarks(s), t) == CreatedAt(s, t)
  {
    if |s| > 0 {
      SortStable(s[1..], t);
      InsertByTimeStable(s[0], SortBookmarks(s[1..]), t);
      CreatedAtConcat([s[0]], s[1..], t);
      assert s == [s[0]] + s[1..];
    }
  }

  /** Sorting a list that is already newest-first changes nothing. */
  lemma {:induction false} SortOfSorted(s: seq<Item>)
    requires Sorted(s)
    ensures SortBookmarks(s) == s
  {
    if |s| > 0 {
      assert Sorted(s[1..]);
      SortOfSorted(s[1..]);
    }
  }

  lemma SortIdempotent(s: seq<Item>)
    ensures SortBookmarks(SortBookmarks(s)) == SortBookmarks(s)
  {
    SortOfSorted(SortBookmarks(s));
  }

  /** One step of the insertion past an item strictly newer than `x`. */
  lemma InsertByTimeSkip(x: Item, s: seq<Item>)
    requires Sorted(s) && |s| > 0 && s[0].createdAt > x.createdAt
    ensures Sorted(s[1..])
    ensures InsertByTime(x, s) == [s[0]] + InsertByTime(x, s[1..])
  {
  }

  /** Putting the head back in front of a split tail moves the split point by one. */
  lemma SplitCons(s: seq<Item>, x: Item, k: nat)
    requires 0 < k <= |s|
    ensures [s[0]] + (s[1..][..k - 1] + [x] + s[1..][k - 1..]) == s[..k] + [x] + s[k..]
  {
    assert s[1..][..k - 1] == s[1..k];
    assert s[1..][k - 1..] == s[k..];
    assert s[..k] == [s[0]] + s[1..k];
  }

  lemma TailNewer(x: Item, s: seq<Item>, k: nat)
    requires 0 < k <= |s|
    requires forall i | 0 <= i < k :: s[i].createdAt > x.createdAt
    ensures forall i | 0 <= i < k - 1 :: s[1..][i].createdAt > x.createdAt
  {
    forall i | 0 <= i < k - 1 ensures s[1..][i].createdAt > x.createdAt {
      assert s[1..][i] == s[i + 1];
    }
  }

  /**
   * Inserting `x` into a list whose first `k` items are strictly newer than it,
   * and whose item `k` is not, puts it at index `k`.
   */
  lemma {:induction false} InsertByTimeAt(x: Item, s: seq<Item>, k: nat)
    requires Sorted(s) && k <= |s|
    requires forall i | 0 <= i < k :: s[i].createdAt > x.createdAt
    requires k == |s| || s[k].createdAt <= x.createdAt
    ensures InsertByTime(x, s) == s[..k] + [x] + s[k..]
  {
    if k == 0 {
      assert s[..k] + [x] + s[k..] == [x] + s;
    } else {
      InsertByTimeSkip(x, s);
      TailNewer(x, s, k);
      assert k - 1 == |s[1..]| || s[1..][k - 1] == s[k];
      InsertByTimeAt(x, s[1..], k - 1);
      SplitCons(s, x, k);
    }
  }

  /** Where the insertion puts `x`: in front of the first item not newer than it. */
  function InsertPosition(x: Item, s: seq<Item>): (k: nat)
    ensures k <= |s|
    ensures forall i | 0 <= i < k :: s[i].createdAt > x.createdAt
    ensures k == |s| || s[k].createdAt <= x.createdAt
  {
    if |s| == 0 || s[0].createdAt <= x.createdAt then 0
    else
      var k := InsertPosition(x, s[1..]);
      assert forall i | 1 <= i < k + 1 :: s[i] == s[1..][i - 1];
      k + 1
  }

  /** Inserting keeps every item where it was, around the new one. */
  lemma InsertByTimeSplits(x: Item, s: seq<Item>)
    requires Sorted(s)
    ensures var k := InsertPosition(x, s); InsertByTime(x, s) == s[..k] + [x] + s[k..]
  {
    InsertByTimeAt(x, s, InsertPosition(x, s));
  }
}
