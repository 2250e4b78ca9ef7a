/** The conversion history: a most-recent-first cache of at most ten items. */
module History {
  import opened Wrappers

  /** The bound of `slice(0, 10)`. */
  const Capacity: nat := 10

  datatype HistoryItem = HistoryItem(id: string, latex: string, timestamp: int, thumbnail: Option<string>)

  function Min(a: int, b: int): int
  {
    if a <= b then a else b
  }

  function Ids(h: seq<HistoryItem>): set<string>
  {
    set x | x in h :: x.id
  }

  predicate UniqueIds(h: seq<HistoryItem>)
  {
    forall i, j :: 0 <= i < j < |h| ==> h[i].id != h[j].id
  }

  /** `[item, ...prev].slice(0, 10)`: the new item goes in front and whatever
      falls past the capacity is dropped from the back. */
  function InsertFront(item: HistoryItem, prev: seq<HistoryItem>): (r: seq<HistoryItem>)
    ensures 1 <= |r| <= Capacity
    ensures r[0] == item
    ensures r[1..] == prev[..Min(|prev|, Capacity - 1)]
    ensures |prev| < Capacity ==> r == [item] + prev
    ensures |prev| == Capacity ==> r == [item] + prev[..Capacity - 1]
  {
    var r := ([item] + prev)[..Min(|prev| + 1, Capacity)];
    assert forall k :: 1 <= k < |r| ==> r[k] == prev[k - 1];
    r
  }

  /** Inserting an item with a fresh id keeps the ids unique. */
  lemma InsertKeepsUnique(item: HistoryItem, prev: seq<HistoryItem>)
    requires UniqueIds(prev) && item.id !in Ids(prev)
    ensures UniqueIds(InsertFront(item, prev))
  {
    var r := InsertFront(item, prev);
    forall i, j | 0 <= i < j < |r| ensures r[i].id != r[j].id {
      assert r[j] == prev[j - 1];
      if i == 0 {
        assert prev[j - 1] in prev;
      } else {
        assert r[i] == prev[i - 1];
      }
    }
  }

  /** `prev.filter(item => item.id !== id)`. */
  function RemoveById(h: seq<HistoryItem>, id: string): (r: seq<HistoryItem>)
    ensures |r| <= |h|
    ensures forall x :: x in r <==> x in h && x.id != id
  {
    if h == [] then []
    else (if h[0].id == id then [] else [h[0]]) + RemoveById(h[1..], id)
  }

  function Reversed<T>(s: seq<T>): (r: seq<T>)
    ensures |r| == |s|
    ensures forall k :: 0 <= k < |s| ==> r[k] == s[|s| - 1 - k]
  {
    if s == [] then [] else Reversed(s[1..]) + [s[0]]
  }

  /** Inserting the items of `rs` one after the other, `rs[0]` first. */
  function InsertAll(h: seq<HistoryItem>, rs: seq<HistoryItem>): seq<HistoryItem>
    decreases rs
  {
    if rs == [] then h else InsertAll(InsertFront(rs[0], h), rs[1..])
  }

  lemma PrefixAfter<T>(a: seq<T>, p: seq<T>, q: seq<T>, n: nat)
    requires |p| <= |q| && p == q[..|p|]
    requires n <= |a| + |p|
    ensures (a + p)[..n] == (a + q)[..n]
  {
    assert forall k :: 0 <= k < n ==> (a + p)[k] == (a + q)[k];
  }

  /** Any run of inserts leaves the newest items in front, newest first, cut to
      the capacity: with |rs| = 12 into an empty history the result is
      rs[11], rs[10], ..., rs[2]. */
  lemma {:induction false} InsertAllKeepsNewest(h: seq<HistoryItem>, rs: seq<HistoryItem>)
    requires |h| <= Capacity
    ensures InsertAll(h, rs) == (Reversed(rs) + h)[..Min(|rs| + |h|, Capacity)]
    decreases rs
  {
    if rs == [] {
      assert (Reversed(rs) + h)[..Min(|rs| + |h|, Capacity)] == h;
    } else {
      var x, rest := rs[0], rs[1..];
      var h' := InsertFront(x, h);
      assert InsertAll(h, rs) == InsertAll(h', rest);
      InsertAllKeepsNewest(h', rest);
      var n := Min(|rs| + |h|, Capacity);
      assert |h'| == Min(|h| + 1, Capacity);
      assert Min(|rest| + |h'|, Capacity) == n;
      assert h' == ([x] + h)[..|h'|];
      PrefixAfter(Reversed(rest), h', [x] + h, n);
      assert Reversed(rs) == Reversed(rest) + [x];
      assert Reversed(rest) + ([x] + h) == Reversed(rs) + h;
    }
  }

  /** Twelve inserts into an empty history keep the last ten, newest first:
      the first two are evicted. */
  lemma TwelveInsertsKeepLastTen(rs: seq<HistoryItem>)
    requires |rs| == 12
    ensures InsertAll([], rs) == [rs[11], rs[10], rs[9], rs[8], rs[7], rs[6], rs[5], rs[4], rs[3], rs[2]]
  {
    InsertAllKeepsNewest([], rs);
    assert Reversed(rs) + [] == Reversed(rs);
  }

  /** Deleting keeps the surviving items in their order: it works piece by piece. */
  lemma {:induction false} RemoveByIdConcat(a: seq<HistoryItem>, b: seq<HistoryItem>, id: string)
    ensures RemoveById(a + b, id) == RemoveById(a, id) + RemoveById(b, id)
  {
    if a == [] {
      assert a + b == b;
    } else {
      assert (a + b)[1..] == a[1..] + b;
      RemoveByIdConcat(a[1..], b, id);
    }
  }

  /** Deleting the same id twice is the same as deleting it once. */
  lemma {:induction false} RemoveByIdIdempotent(h: seq<HistoryItem>, id: string)
    ensures RemoveById(RemoveById(h, id), id) == RemoveById(h, id)
  {
    if h != [] {
      RemoveByIdIdempotent(h[1..], id);
      var head := if h[0].id == id then [] else [h[0]];
      RemoveByIdConcat(head, RemoveById(h[1..], id), id);
    }
  }

  /** Deleting an id no item carries changes nothing. */
  lemma {:induction false} RemoveAbsentId(h: seq<HistoryItem>, id: string)
    requires id !in Ids(h)
    ensures RemoveById(h, id) == h
  {
    if h != [] {
      assert h[0] in h;
      assert Ids(h[1..]) <= Ids(h);
      RemoveAbsentId(h[1..], id);
    }
  }

  /** With unique ids, deleting an id that is present removes exactly that one item. */
  lemma UniqueTail(h: seq<HistoryItem>)
    requires UniqueIds(h) && h != []
    ensures UniqueIds(h[1..])
    ensures h[0].id !in Ids(h[1..])
  {
    var t := h[1..];
    forall i, j | 0 <= i < j < |t| ensures t[i].id != t[j].id {
      assert t[i] == h[i + 1] && t[j] == h[j + 1];
    }
    forall x | x in t ensures x.id != h[0].id {
      var j :| 0 <= j < |t| && t[j] == x;
      assert x == h[j + 1];
    }
  }

  lemma RemoveFirstId(h: seq<HistoryItem>)
    requires UniqueIds(h) && h != []
    ensures RemoveById(h, h[0].id) == h[1..]
  {
    UniqueTail(h);
    assert RemoveById(h, h[0].id) == RemoveById(h[1..], h[0].id);
    RemoveAbsentId(h[1..], h[0].id);
  }

  lemma {:induction false} RemovePresentId(h: seq<HistoryItem>, k: nat)
    requires UniqueIds(h) && k < |h|
    ensures RemoveById(h, h[k].id) == h[..k] + h[k + 1..]
  {
    if k == 0 {
      RemoveFirstId(h);
      assert h[..k] + h[k + 1..] == h[1..];
    } else {
      var id, t := h[k].id, h[1..];
      UniqueTail(h);
      assert h[0].id != id;
      assert RemoveById(h, id) == [h[0]] + RemoveById(t, id);
      assert t[k - 1] == h[k];
      RemovePresentId(t, k - 1);
      DropAfterHead(h, k);
    }
  }

  lemma DropAfterHead<T>(h: seq<T>, k: nat)
    requires 0 < k < |h|
    ensures h[..k] + h[k + 1..] == [h[0]] + (h[1..][..k - 1] + h[1..][k..])
  {
    assert h[1..][..k - 1] == h[1..k];
    assert h[1..][k..] == h[k + 1..];
    assert h[..k] == [h[0]] + h[1..k];
  }

  /** Dropping one item keeps the ids unique. */
  lemma DropKeepsUnique(h: seq<HistoryItem>, k: nat)
    requires UniqueIds(h) && k < |h|
    ensures UniqueIds(h[..k] + h[k + 1..])
  {
    var r := h[..k] + h[k + 1..];
    forall i, j | 0 <= i < j < |r| ensures r[i].id != r[j].id {
      var i' := if i < k then i else i + 1;
      var j' := if j < k then j else j + 1;
      assert r[i] == h[i'] && r[j] == h[j'];
    }
  }

  /** Deleting keeps the ids unique. */
  lemma RemoveKeepsUnique(h: seq<HistoryItem>, id: string)
    requires UniqueIds(h)
    ensures UniqueIds(RemoveById(h, id))
  {
    if id in Ids(h) {
      var x :| x in h && x.id == id;
      var k :| 0 <= k < |h| && h[k] == x;
      RemovePresentId(h, k);
      DropKeepsUnique(h, k);
    } else {
      RemoveAbsentId(h, id);
    }
  }
}
