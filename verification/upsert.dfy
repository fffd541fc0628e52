/**
 * The list helpers of bookmark-list.tsx besides sorting: looking an item up
 * by id (`findIndex`, `find`), removing every item with an id (`filter`), and
 * `upsertBookmark`.
 */
module Upsert {
  import opened Wrappers
  import opened Records
  import opened Ordering

  predicate HasId(s: seq<Item>, id: string) {
    exists i | 0 <= i < |s| :: s[i].id == id
  }

  /** No two positions hold items with the same id. */
  predicate UniqueIds(s: seq<Item>) {
    forall i, j | 0 <= i < |s| && 0 <= j < |s| && s[i].id == s[j].id :: i == j
  }

  /** `Array.prototype.findIndex` on the id: the first position holding it. */
  function FindIndex(s: seq<Item>, id: string): (r: Option<nat>)
    ensures r.Some? ==> r.value < |s| && s[r.value].id == id
    ensures r.Some? ==> forall k | 0 <= k < r.value :: s[k].id != id
    ensures r.None? <==> !HasId(s, id)
  {
    if |s| == 0 then None
    else if s[0].id == id then Some(0)
    else
      match FindIndex(s[1..], id)
      case None =>
        assert forall i | 1 <= i < |s| :: s[i] == s[1..][i - 1];
        None
      case Some(i) => Some(i + 1)
  }

  /** `Array.prototype.find` on the id: the first item holding it. */
  function Find(s: seq<Item>, id: string): (r: Option<Item>)
    ensures r.Some? ==> r.value in s && r.value.id == id
    // the first such item: no earlier position holds the id
    ensures r.Some? ==> exists i | 0 <= i < |s| :: s[i] == r.value && forall k | 0 <= k < i :: s[k].id != id
    ensures r.None? <==> !HasId(s, id)
  {
    match FindIndex(s, id)
    case None => None
    case Some(i) =>
      assert s[i] == s[i] && forall k | 0 <= k < i :: s[k].id != id;
      Some(s[i])
  }

  /** With unique ids, the item found is the only one with that id. */
  lemma FindIsTheItem(s: seq<Item>, id: string, y: Item)
    requires UniqueIds(s) && y in s && y.id == id
    ensures Find(s, id) == Some(y)
  {
    var k :| 0 <= k < |s| && s[k] == y;
    var i := FindIndex(s, id).value;
    assert s[i].id == s[k].id;
  }

  /** `filter((item) => item.id !== id)`. */
  function RemoveId(s: seq<Item>, id: string): (r: seq<Item>)
    ensures forall y | y in r :: y.id != id
    ensures |r| <= |s|
  {
    if |s| == 0 then []
    else
      var rest := RemoveId(s[1..], id);
      if s[0].id == id then rest
      else
        assert forall i | 1 <= i < |s| :: s[i] == s[1..][i - 1];
        [s[0]] + rest
  }

  /** Removing an id keeps every other item and brings in nothing new. */
  lemma {:induction false} RemoveIdKeepsOthers(s: seq<Item>, id: string)
    ensures forall y | y in RemoveId(s, id) :: y in s
    ensures forall y | y in s && y.id != id :: y in RemoveId(s, id)
  {
    if |s| > 0 {
      RemoveIdKeepsOthers(s[1..], id);
      assert forall y | y in s :: y == s[0] || y in s[1..];
    }
  }

  /** Removing an id that is not there changes nothing. */
  lemma {:induction false} RemoveIdAbsent(s: seq<Item>, id: string)
    requires !HasId(s, id)
    ensures RemoveId(s, id) == s
  {
    if |s| > 0 {
      assert !HasId(s[1..], id) by {
        forall i | 0 <= i < |s| - 1 ensures s[1..][i].id != id {
          assert s[1..][i] == s[i + 1];
        }
      }
      RemoveIdAbsent(s[1..], id);
      assert s == [s[0]] + s[1..];
    }
  }

  /** Removing an id works item by item: it distributes over concatenation. */
  lemma {:induction false} RemoveIdConcat(a: seq<Item>, b: seq<Item>, id: string)
    ensures RemoveId(a + b, id) == RemoveId(a, id) + RemoveId(b, id)
  {
    if |a| == 0 {
      assert a + b == b;
    } else {
      assert (a + b)[0] == a[0] && (a + b)[1..] == a[1..] + b;
      RemoveIdConcat(a[1..], b, id);
    }
  }

  /** Removing keeps the remaining items in their order: a sorted list stays sorted. */
  lemma {:induction false} RemoveIdSorted(s: seq<Item>, id: string)
    requires Sorted(s)
    ensures Sorted(RemoveId(s, id))
  {
    if |s| > 0 {
      assert Sorted(s[1..]);
      RemoveIdSorted(s[1..], id);
      var rest := RemoveId(s[1..], id);
      RemoveIdKeepsOthers(s[1..], id);
      forall y | y in rest ensures s[0].createdAt >= y.createdAt {
        assert y in s[1..];
      }
    }
  }

  /** Removing keeps ids unique. */
  lemma {:induction false} RemoveIdUnique(s: seq<Item>, id: string)
    requires UniqueIds(s)
    ensures UniqueIds(RemoveId(s, id))
  {
    if |s| > 0 {
      var tail := s[1..];
      assert UniqueIds(tail) by {
        forall i, j | 0 <= i < |tail| && 0 <= j < |tail| && tail[i].id == tail[j].id ensures i == j {
          assert s[i + 1].id == s[j + 1].id;
        }
      }
      RemoveIdUnique(tail, id);
      var rest := RemoveId(tail, id);
      RemoveIdKeepsOthers(tail, id);
      forall y | y in rest ensures y.id != s[0].id {
        var k :| 0 <= k < |tail| && tail[k] == y;
        assert s[k + 1] == y;
      }
    }
  }

  /** Removing an id keeps a list newest first and its ids unique. */
  lemma RemoveIdPreserves(s: seq<Item>, id: string)
    ensures Sorted(s) ==> Sorted(RemoveId(s, id))
    ensures UniqueIds(s) ==> UniqueIds(RemoveId(s, id))
  {
    if Sorted(s) { RemoveIdSorted(s, id); }
    if UniqueIds(s) { RemoveIdUnique(s, id); }
  }

  /** Upserting into the empty list gives the one item. */
  lemma UpsertIntoEmpty(x: Item)
    ensures UpsertBookmark([], x) == [x]
  {
    UpsertFreshInserts([], x);
  }

  /** A unique-id list has at most one copy of any item. */
  lemma {:induction false} UniqueCountsAtMostOne(s: seq<Item>, y: Item)
    requires UniqueIds(s)
    ensures multiset(s)[y] <= 1
  {
    if |s| > 0 {
      var tail := s[1..];
      assert s == [s[0]] + tail;
      assert UniqueIds(tail) by {
        forall i, j | 0 <= i < |tail| && 0 <= j < |tail| && tail[i].id == tail[j].id ensures i == j {
          assert s[i + 1].id == s[j + 1].id;
        }
      }
      UniqueCountsAtMostOne(tail, y);
      if s[0] == y {
        forall k | 0 <= k < |tail| ensures tail[k] != y {
          assert tail[k] == s[k + 1];
        }
      }
    }
  }

  /** Two distinct positions holding one item count it twice. */
  lemma RepeatCountsTwice(s: seq<Item>, i: nat, j: nat)
    requires i < j < |s| && s[i] == s[j]
    ensures multiset(s)[s[i]] >= 2
  {
    assert s == s[..j] + s[j..];
    assert s[i] in s[..j];
    assert s[j] in s[j..];
  }

  /** With unique ids, two items of the list with one id are the same item. */
  lemma SameIdSameItem(s: seq<Item>, x: Item, y: Item)
    requires UniqueIds(s) && x in s && y in s && x.id == y.id
    ensures x == y
  {
    var p :| 0 <= p < |s| && s[p] == x;
    var q :| 0 <= q < |s| && s[q] == y;
    assert s[p].id == s[q].id;
  }

  /** Rearranging a list keeps its ids unique. */
  lemma PermutationKeepsUnique(a: seq<Item>, b: seq<Item>)
    requires multiset(a) == multiset(b) && UniqueIds(a)
    ensures UniqueIds(b)
  {
    forall i, j | 0 <= i < |b| && 0 <= j < |b| && b[i].id == b[j].id ensures i == j {
      if i != j {
        var lo := if i < j then i else j;
        var hi := if i < j then j else i;
        assert b[i] in multiset(a) && b[j] in multiset(a);
        SameIdSameItem(a, b[i], b[j]);
        RepeatCountsTwice(b, lo, hi);
        UniqueCountsAtMostOne(a, b[lo]);
        assert false;
      }
    }
  }

  /** The list `upsertBookmark` hands to the sort. */
  function Replaced(items: seq<Item>, incoming: Item): (next: seq<Item>)
    ensures incoming in next
    ensures |next| == if HasId(items, incoming.id) then |items| else |items| + 1
    ensures forall y | y in items && y.id != incoming.id :: y in next
    ensures forall y | y in next :: y == incoming || y in items
    ensures UniqueIds(items) ==> UniqueIds(next)
    ensures UniqueIds(items) ==> forall y | y in next && y.id == incoming.id :: y == incoming
  {
    match FindIndex(items, incoming.id)
    case Some(f) =>
      var next := items[f := incoming];
      assert next[f] == incoming;
      assert forall k | 0 <= k < |next| :: next[k].id == items[k].id;
      assert forall k | 0 <= k < |next| && k != f :: next[k] == items[k];
      next
    case None =>
      var next := [incoming] + items;
      assert next[0] == incoming;
      assert forall k | 1 <= k < |next| :: next[k] == items[k - 1];
      next
  }

  /**
   * `upsertBookmark`: replace the first item with the incoming id, or put the
   * incoming item in front when the id is new, then sort newest first.
   */
  function UpsertBookmark(items: seq<Item>, incoming: Item): (r: seq<Item>)
    ensures Sorted(r)
    ensures incoming in r
    ensures |r| == if HasId(items, incoming.id) then |items| else |items| + 1
    ensures forall y | y in items && y.id != incoming.id :: y in r
    ensures forall y | y in r :: y == incoming || y in items
    ensures UniqueIds(items) ==> UniqueIds(r)
    ensures UniqueIds(items) ==> forall y | y in r && y.id == incoming.id :: y == incoming
  {
    var next := Replaced(items, incoming);
    var r := SortBookmarks(next);
    assert forall y :: (y in r <==> y in multiset(r)) && (y in next <==> y in multiset(next));
    if UniqueIds(items) then PermutationKeepsUnique(next, r); r else r
  }

  /** Sorting an item in front of a list inserts it into the sorted list. */
  lemma SortCons(x: Item, s: seq<Item>)
    ensures SortBookmarks([x] + s) == InsertByTime(x, SortBookmarks(s))
  {
    assert ([x] + s)[0] == x && ([x] + s)[1..] == s;
  }

  /** A prefix or suffix of a list without an id does not have it either. */
  lemma NoIdInParts(s: seq<Item>, k: nat, id: string)
    requires k <= |s| && !HasId(s, id)
    ensures !HasId(s[..k], id) && !HasId(s[k..], id)
  {
    forall i | 0 <= i < k ensures s[..k][i].id != id {
      assert s[..k][i] == s[i];
    }
    forall i | 0 <= i < |s| - k ensures s[k..][i].id != id {
      assert s[k..][i] == s[k + i];
    }
  }

  /** Upserting an item with a new id into a sorted list inserts it. */
  lemma UpsertFreshInserts(s: seq<Item>, x: Item)
    requires Sorted(s) && !HasId(s, x.id)
    ensures UpsertBookmark(s, x) == InsertByTime(x, s)
  {
    assert Replaced(s, x) == [x] + s;
    SortCons(x, s);
    SortOfSorted(s);
  }

  /** Removing the one item with an id from between two parts without it. */
  lemma RemoveBetween(pre: seq<Item>, x: Item, post: seq<Item>)
    requires !HasId(pre, x.id) && !HasId(post, x.id)
    ensures RemoveId(pre + [x] + post, x.id) == pre + post
  {
    RemoveIdConcat(pre + [x], post, x.id);
    RemoveIdConcat(pre, [x], x.id);
    RemoveIdOfOwn(x);
    RemoveIdAbsent(pre, x.id);
    RemoveIdAbsent(post, x.id);
  }

  lemma RemoveIdOfOwn(x: Item)
    ensures RemoveId([x], x.id) == []
  {
    assert [x][1..] == [];
  }

  lemma NoIdOutside(pre: seq<Item>, post: seq<Item>, id: string)
    requires !HasId(pre, id) && !HasId(post, id)
    ensures !HasId(pre + post, id)
  {
    forall i | 0 <= i < |pre + post| ensures (pre + post)[i].id != id {
      if i < |pre| { assert (pre + post)[i] == pre[i]; } else { assert (pre + post)[i] == post[i - |pre|]; }
    }
  }

  /** Removing an id put into a list that did not have it. */
  lemma RemoveInserted(s: seq<Item>, x: Item, k: nat)
    requires k <= |s| && !HasId(s, x.id)
    ensures RemoveId(s[..k] + [x] + s[k..], x.id) == s
  {
    NoIdInParts(s, k, x.id);
    RemoveBetween(s[..k], x, s[k..]);
    assert s[..k] + s[k..] == s;
  }

  /** Inserting an item with a new id and then removing that id gives the list back. */
  lemma InsertThenRemove(x: Item, s: seq<Item>)
    requires Sorted(s) && !HasId(s, x.id)
    ensures RemoveId(InsertByTime(x, s), x.id) == s
  {
    InsertByTimeSplits(x, s);
    RemoveInserted(s, x, InsertPosition(x, s));
  }

  /**
   * Upserting an item whose id is new and then removing that id gives back
   * the sorted list: a failed create leaves the list as it found it.
   */
  lemma UpsertFreshThenRemove(s: seq<Item>, x: Item)
    requires Sorted(s) && !HasId(s, x.id)
    ensures RemoveId(UpsertBookmark(s, x), x.id) == s
  {
    UpsertFreshInserts(s, x);
    InsertThenRemove(x, s);
  }

  /** Upserting an item that is already there changes nothing. */
  lemma UpsertIdempotent(s: seq<Item>, x: Item)
    requires UniqueIds(s)
    ensures UpsertBookmark(UpsertBookmark(s, x), x) == UpsertBookmark(s, x)
  {
    var r := UpsertBookmark(s, x);
    var f := FindIndex(r, x.id).value;
    assert r[f] == x;
    assert Replaced(r, x) == r;
    SortOfSorted(r);
  }

  /** In a list with unique ids, no item but item `k` has its id. */
  lemma OthersLackId(s: seq<Item>, k: nat)
    requires UniqueIds(s) && k < |s|
    ensures !HasId(s[..k], s[k].id) && !HasId(s[k + 1..], s[k].id)
  {
    var pre, post := s[..k], s[k + 1..];
    forall i | 0 <= i < k ensures pre[i].id != s[k].id {
      assert pre[i] == s[i];
    }
    forall i | 0 <= i < |post| ensures post[i].id != s[k].id {
      assert post[i] == s[k + 1 + i];
    }
  }

  /** In a list with unique ids, removing the id of item `k` removes just that item. */
  lemma RemoveAt(s: seq<Item>, k: nat)
    requires UniqueIds(s) && k < |s|
    ensures RemoveId(s, s[k].id) == s[..k] + s[k + 1..]
    ensures !HasId(s[..k] + s[k + 1..], s[k].id)
  {
    var x := s[k];
    var pre, post := s[..k], s[k + 1..];
    assert s == pre + [x] + post;
    OthersLackId(s, k);
    RemoveBetween(pre, x, post);
    NoIdOutside(pre, post, x.id);
  }

  /** Dropping one item keeps a list sorted. */
  lemma DropKeepsSorted(s: seq<Item>, k: nat)
    requires Sorted(s) && k < |s|
    ensures Sorted(s[..k] + s[k + 1..])
  {
    var t := s[..k] + s[k + 1..];
    forall i, j | 0 <= i < j < |t| ensures t[i].createdAt >= t[j].createdAt {
      var si := if i < k then i else i + 1;
      var sj := if j < k then j else j + 1;
      assert t[i] == s[si] && t[j] == s[sj];
    }
  }

  /** Inserting item `k` back into the list without it puts it back at `k`. */
  lemma InsertBack(s: seq<Item>, k: nat)
    requires Sorted(s) && k < |s|
    requires forall i | 0 <= i < k :: s[i].createdAt > s[k].createdAt
    ensures Sorted(s[..k] + s[k + 1..])
    ensures InsertByTime(s[k], s[..k] + s[k + 1..]) == s
  {
    var x := s[k];
    var t := s[..k] + s[k + 1..];
    DropKeepsSorted(s, k);
    forall i | 0 <= i < k ensures t[i].createdAt > x.createdAt {
      assert t[i] == s[i];
    }
    assert k == |t| || t[k] == s[k + 1];
    InsertByTimeAt(x, t, k);
    assert t[..k] + [x] + t[k..] == s;
  }

  /**
   * Removing an item and upserting it again restores a sorted list with
   * unique ids exactly, when no item before it was created at the same time:
   * the rollback of a failed delete.
   */
  lemma RemoveThenUpsertRestores(s: seq<Item>, k: nat)
    requires Sorted(s) && UniqueIds(s) && k < |s|
    requires forall i | 0 <= i < k :: s[i].createdAt > s[k].createdAt
    ensures UpsertBookmark(RemoveId(s, s[k].id), s[k]) == s
  {
    RemoveAt(s, k);
    InsertBack(s, k);
    UpsertFreshInserts(s[..k] + s[k + 1..], s[k]);
  }

  /**
   * Without that condition the rollback can reorder: an item removed from
   * behind another created at the same time comes back in front of it.
   */
  lemma RemoveThenUpsertReordersTies(a: Item, b: Item)
    requires a.id != b.id && a.createdAt == b.createdAt
    ensures UpsertBookmark(RemoveId([a, b], b.id), b) == [b, a]
  {
    var s := [a, b];
    assert UniqueIds(s);
    RemoveAt(s, 1);
    assert s[..1] + s[2..] == [a];
    UpsertFreshInserts([a], b);
  }
}
