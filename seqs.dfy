/** The order-preserving `Array.prototype.filter` that the pages and the
    client components apply to fetched lists. */
module Seqs {

  /** No item is listed twice. */
  predicate Distinct<T(==)>(s: seq<T>) {
    forall i, j :: 0 <= i < |s| && 0 <= j < |s| && i != j ==> s[i] != s[j]
  }

  /** The set of a list's items. */
  ghost function Elements<T>(s: seq<T>): set<T> {
    set x | x in s
  }

  /** A list without repeats has as many items as its set of items. */
  lemma {:induction false} DistinctCard<T>(s: seq<T>)
    requires Distinct(s)
    ensures |Elements(s)| == |s|
  {
    if s != [] {
      var p := s[..|s| - 1];
      assert Distinct(p);
      DistinctCard(p);
      assert s == p + [s[|s| - 1]];
      assert Elements(s) == Elements(p) + {s[|s| - 1]};
      assert s[|s| - 1] !in p;
    }
  }

  function Filter<T>(s: seq<T>, p: T -> bool): (r: seq<T>)
    ensures |r| <= |s|
    ensures forall i :: 0 <= i < |r| ==> r[i] in s && p(r[i])
    ensures forall i :: 0 <= i < |s| && p(s[i]) ==> s[i] in r
  {
    if s == [] then [] else (if p(s[0]) then [s[0]] else []) + Filter(s[1..], p)
  }

  /** Filtering distributes over concatenation, so the kept items keep their
      relative order. */
  lemma {:induction false} FilterAppend<T>(a: seq<T>, b: seq<T>, p: T -> bool)
    ensures Filter(a + b, p) == Filter(a, p) + Filter(b, p)
  {
    if a == [] {
      assert a + b == b;
    } else {
      assert (a + b)[0] == a[0];
      assert (a + b)[1..] == a[1..] + b;
      FilterAppend(a[1..], b, p);
    }
  }

  /** A list whose every item passes comes back unchanged. */
  lemma {:induction false} FilterAll<T>(s: seq<T>, p: T -> bool)
    requires forall i :: 0 <= i < |s| ==> p(s[i])
    ensures Filter(s, p) == s
  {
    if s != [] {
      FilterAll(s[1..], p);
    }
  }

  /** A list no item of which passes comes back empty. */
  lemma {:induction false} FilterNone<T>(s: seq<T>, p: T -> bool)
    requires forall i :: 0 <= i < |s| ==> !p(s[i])
    ensures Filter(s, p) == []
  {
    if s != [] {
      FilterNone(s[1..], p);
    }
  }

  /** The items that pass and the items that fail are together the input. */
  lemma {:induction false} FilterSplit<T>(s: seq<T>, p: T -> bool, q: T -> bool)
    requires forall i :: 0 <= i < |s| ==> q(s[i]) == !p(s[i])
    ensures multiset(Filter(s, p)) + multiset(Filter(s, q)) == multiset(s)
  {
    if s != [] {
      FilterSplit(s[1..], p, q);
      assert s == [s[0]] + s[1..];
    }
  }

  /** Filtering keeps multiplicities: each kept item occurs as often as in the input. */
  lemma {:induction false} FilterCount<T>(s: seq<T>, p: T -> bool, x: T)
    ensures multiset(Filter(s, p))[x] == if p(x) then multiset(s)[x] else 0
  {
    if s != [] {
      FilterCount(s[1..], p, x);
      assert s == [s[0]] + s[1..];
    }
  }

  /** `r` is `s` with some items dropped: `idx` gives, in increasing order,
      the position in `s` of each item of `r`. */
  ghost predicate Embedding<T>(r: seq<T>, s: seq<T>, idx: seq<int>) {
    && |idx| == |r|
    && (forall i :: 0 <= i < |idx| ==> 0 <= idx[i] < |s| && r[i] == s[idx[i]])
    && (forall i, j :: 0 <= i < j < |idx| ==> idx[i] < idx[j])
  }

  /** Shifts every position one place to the right. */
  function Shift(idx: seq<int>): (r: seq<int>)
    ensures |r| == |idx| && forall i :: 0 <= i < |r| ==> r[i] == idx[i] + 1
  {
    if idx == [] then [] else [idx[0] + 1] + Shift(idx[1..])
  }

  /** An embedding into the tail is one into the whole list, one place on. */
  lemma EmbeddingTail<T>(r: seq<T>, s: seq<T>, idx: seq<int>)
    requires s != [] && Embedding(r, s[1..], idx)
    ensures Embedding(r, s, Shift(idx))
  {
    var shifted := Shift(idx);
    forall i | 0 <= i < |shifted|
      ensures 0 <= shifted[i] < |s| && r[i] == s[shifted[i]]
    {
      assert s[shifted[i]] == s[1..][idx[i]];
    }
  }

  /** An embedding that avoids position 0 extends by the first item. */
  lemma EmbeddingHead<T>(r: seq<T>, s: seq<T>, idx: seq<int>)
    requires s != [] && Embedding(r, s, idx)
    requires forall i :: 0 <= i < |idx| ==> idx[i] >= 1
    ensures Embedding([s[0]] + r, s, [0] + idx)
  {
    var full := [0] + idx;
    assert forall i :: 1 <= i < |full| ==> full[i] == idx[i - 1];
  }

  /** The positions of the kept items: filtering keeps the input order and
      adds nothing. */
  function KeptPositions<T>(s: seq<T>, p: T -> bool): (idx: seq<int>)
    ensures Embedding(Filter(s, p), s, idx)
  {
    if s == [] then []
    else
      var rest := KeptPositions(s[1..], p);
      EmbeddingTail(Filter(s[1..], p), s, rest);
      if p(s[0]) then
        EmbeddingHead(Filter(s[1..], p), s, Shift(rest));
        [0] + Shift(rest)
      else
        Shift(rest)
  }

  /** Every item passes exactly when nothing is dropped. */
  lemma {:induction false} FilterKeepsAll<T>(s: seq<T>, p: T -> bool)
    ensures |Filter(s, p)| == |s| <==> forall i :: 0 <= i < |s| ==> p(s[i])
  {
    if s != [] {
      FilterKeepsAll(s[1..], p);
      if p(s[0]) {
        assert forall i :: 1 <= i < |s| ==> s[i] == s[1..][i - 1];
      }
    }
  }

  /** `findIndex`: the first position whose item passes, or -1. */
  function FindIndex<T>(s: seq<T>, p: T -> bool): (i: int)
    ensures -1 <= i < |s|
    ensures i >= 0 ==> p(s[i]) && forall j :: 0 <= j < i ==> !p(s[j])
    ensures i == -1 ==> forall j :: 0 <= j < |s| ==> !p(s[j])
  {
    if s == [] then -1
    else if p(s[0]) then 0
    else var k := FindIndex(s[1..], p); if k == -1 then -1 else k + 1
  }

  /** `splice(k, 1)`: the list without its item at position `k`. */
  function RemoveAt<T>(s: seq<T>, k: nat): (r: seq<T>)
    requires k < |s|
    ensures |r| == |s| - 1
    ensures forall j :: 0 <= j < k ==> r[j] == s[j]
    ensures forall j :: k <= j < |r| ==> r[j] == s[j + 1]
    ensures multiset(r) + multiset{s[k]} == multiset(s)
  {
    assert s == s[..k] + [s[k]] + s[k + 1..];
    s[..k] + s[k + 1..]
  }

  /** `splice(k, 0, x)`: the list with `x` placed at position `k`. */
  function InsertAt<T>(s: seq<T>, k: nat, x: T): (r: seq<T>)
    requires k <= |s|
    ensures |r| == |s| + 1 && r[k] == x
    ensures forall j :: 0 <= j < k ==> r[j] == s[j]
    ensures forall j :: k < j < |r| ==> r[j] == s[j - 1]
    ensures multiset(r) == multiset(s) + multiset{x}
  {
    assert s == s[..k] + s[k..];
    s[..k] + [x] + s[k..]
  }

  /** Removing the item just inserted gives the list back. */
  lemma RemoveInsertedAt<T>(s: seq<T>, k: nat, x: T)
    requires k <= |s|
    ensures RemoveAt(InsertAt(s, k, x), k) == s
  {
  }

  /** dnd-kit's `arrayMove`: take the item out of `from` and put it back in at
      `to`. */
  function ArrayMove<T>(s: seq<T>, from: nat, to: nat): (r: seq<T>)
    requires from < |s| && to < |s|
    ensures |r| == |s| && r[to] == s[from]
    ensures RemoveAt(r, to) == RemoveAt(s, from)
    ensures multiset(r) == multiset(s)
  {
    var r := InsertAt(RemoveAt(s, from), to, s[from]);
    RemoveInsertedAt(RemoveAt(s, from), to, s[from]);
    r
  }

  /** Ascending by `key`. */
  predicate SortedBy<T>(s: seq<T>, key: T -> int) {
    forall j, k :: 0 <= j < k < |s| ==> key(s[j]) <= key(s[k])
  }

  /** Inserts `x` after every item whose key is not above its own. */
  function InsertByKey<T>(x: T, s: seq<T>, key: T -> int): (r: seq<T>)
    requires SortedBy(s, key)
    ensures SortedBy(r, key)
    ensures multiset(r) == multiset(s) + multiset{x}
    ensures |r| == |s| + 1
    decreases |s|
  {
    if s == [] then [x]
    else if key(s[|s| - 1]) <= key(x) then s + [x]
    else
      var last := s[|s| - 1];
      var p := s[..|s| - 1];
      assert s == p + [last];
      var q := InsertByKey(x, p, key);
      assert forall i :: 0 <= i < |q| ==> key(q[i]) <= key(last) by {
        forall i | 0 <= i < |q|
          ensures key(q[i]) <= key(last)
        {
          assert q[i] in multiset(q);
          if q[i] != x {
            assert q[i] in multiset(p);
            var j :| 0 <= j < |p| && p[j] == q[i];
            assert s[j] == p[j];
          }
        }
      }
      q + [last]
  }

  /** `slice().sort(...)` by ascending key: sorted, and the same items. */
  function SortBy<T>(s: seq<T>, key: T -> int): (r: seq<T>)
    ensures SortedBy(r, key)
    ensures multiset(r) == multiset(s) && |r| == |s|
    decreases |s|
  {
    if s == [] then []
    else
      var p := s[..|s| - 1];
      assert s == p + [s[|s| - 1]];
      InsertByKey(s[|s| - 1], SortBy(p, key), key)
  }

  /** The items whose key is `v`. */
  function KeyIs<T>(key: T -> int, v: int): T -> bool {
    x => key(x) == v
  }

  /** Filtering a list with one more item at its end. */
  lemma FilterSnoc<T>(s: seq<T>, x: T, p: T -> bool)
    ensures Filter(s + [x], p) == Filter(s, p) + if p(x) then [x] else []
  {
    FilterAppend(s, [x], p);
    assert Filter([x], p) == (if p(x) then [x] else []) + Filter([], p);
  }

  /** Inserting by key puts the new item after the items of equal key and
      leaves their order alone. */
  lemma {:induction false} InsertByKeyTies<T>(x: T, s: seq<T>, key: T -> int, v: int)
    requires SortedBy(s, key)
    ensures Filter(InsertByKey(x, s, key), KeyIs(key, v))
      == Filter(s, KeyIs(key, v)) + if key(x) == v then [x] else []
    decreases |s|
  {
    var tie := KeyIs(key, v);
    if s == [] {
      FilterSnoc([], x, tie);
      assert [] + [x] == [x];
    } else if key(s[|s| - 1]) <= key(x) {
      FilterSnoc(s, x, tie);
    } else {
      var last := s[|s| - 1];
      var p := s[..|s| - 1];
      assert s == p + [last];
      var q := InsertByKey(x, p, key);
      assert InsertByKey(x, s, key) == q + [last];
      InsertByKeyTies(x, p, key, v);
      TiesPassLater(q, p, x, last, key, v);
    }
  }

  /** The step of `InsertByKeyTies` where an item of higher key than `x`
      goes last: `x` and that item cannot both have key `v`. */
  lemma TiesPassLater<T>(q: seq<T>, p: seq<T>, x: T, last: T, key: T -> int, v: int)
    requires key(x) < key(last)
    requires Filter(q, KeyIs(key, v)) == Filter(p, KeyIs(key, v)) + if key(x) == v then [x] else []
    ensures Filter(q + [last], KeyIs(key, v))
      == Filter(p + [last], KeyIs(key, v)) + if key(x) == v then [x] else []
  {
    FilterSnoc(q, last, KeyIs(key, v));
    FilterSnoc(p, last, KeyIs(key, v));
  }

  /** The sort is stable: the items of any one key keep their input order. */
  lemma {:induction false} SortByStable<T>(s: seq<T>, key: T -> int, v: int)
    ensures Filter(SortBy(s, key), KeyIs(key, v)) == Filter(s, KeyIs(key, v))
    decreases |s|
  {
    if s != [] {
      var tie := KeyIs(key, v);
      var e := s[|s| - 1];
      var p := s[..|s| - 1];
      assert s == p + [e];
      SortByStable(p, key, v);
      InsertByKeyTies(e, SortBy(p, key), key, v);
      FilterSnoc(p, e, tie);
    }
  }

  /** Filtering a sorted list leaves it sorted. */
  lemma FilterSorted<T>(s: seq<T>, p: T -> bool, key: T -> int)
    requires SortedBy(s, key)
    ensures SortedBy(Filter(s, p), key)
  {
    var r := Filter(s, p);
    var idx := KeptPositions(s, p);
    forall j, k | 0 <= j < k < |r|
      ensures key(r[j]) <= key(r[k])
    {
      assert r[j] == s[idx[j]] && r[k] == s[idx[k]];
    }
  }
}
