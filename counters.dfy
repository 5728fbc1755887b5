/** Python's `collections.Counter` as the scripts use it: a dictionary from keys to
    positive counts that remembers the order in which keys were first counted
    (`update`, `c[k] += 1`, `len`), and its reports `most_common(n)` and
    `sorted(items(), reverse=True)`, both a stable sort in non-increasing order followed
    by a slice. */
module Counters {
  import opened Ints

  datatype Entry<K> = Entry(key: K, count: nat)

  /** The entries in insertion order (a Python dict keeps that order). */
  type Counter<K> = seq<Entry<K>>

  /** `c[k]`: the count of `k`, 0 when `k` was never counted. */
  function Count<K(==)>(c: Counter<K>, k: K): nat
  {
    if c == [] then 0 else if c[0].key == k then c[0].count else Count(c[1..], k)
  }

  function Keys<K>(c: Counter<K>): set<K>
  {
    set i | 0 <= i < |c| :: c[i].key
  }

  /** Each key occurs in one entry only. */
  ghost predicate DistinctKeys<K>(c: Counter<K>)
  {
    forall i, j | 0 <= i < j < |c| :: c[i].key != c[j].key
  }

  /** Every stored count is positive (keys only enter a counter by being counted). */
  ghost predicate PositiveCounts<K>(c: Counter<K>)
  {
    forall i | 0 <= i < |c| :: c[i].count > 0
  }

  /** The invariant of every counter the scripts build. */
  ghost predicate Valid<K>(c: Counter<K>)
  {
    DistinctKeys(c) && PositiveCounts(c)
  }

  /** The sum of all counts. */
  function Total<K>(c: Counter<K>): nat
  {
    if c == [] then 0 else c[0].count + Total(c[1..])
  }

  /** `c[k] += 1`: bump the entry of `k` where it stands, or append a new entry for it at
      the end, so keys stay in the order in which they were first counted. */
  function Increment<K(==)>(c: Counter<K>, k: K): (r: Counter<K>)
    ensures |c| <= |r| <= |c| + 1
  {
    if c == [] then [Entry(k, 1)]
    else if c[0].key == k then [Entry(k, c[0].count + 1)] + c[1..]
    else [c[0]] + Increment(c[1..], k)
  }

  /** A key not yet counted gets a new entry at the end; a key already counted keeps its
      place, and the counter keeps its length. */
  lemma {:induction false} IncrementAppends<K>(c: Counter<K>, k: K)
    ensures k !in Keys(c) ==> Increment(c, k) == c + [Entry(k, 1)]
    ensures k in Keys(c) ==> |Increment(c, k)| == |c|
  {
    if c != [] {
      assert c == [c[0]] + c[1..];
      KeysCons(c[0], c[1..]);
      if c[0].key != k {
        IncrementAppends(c[1..], k);
      }
    }
  }

  /** In a counter with distinct keys, `c[k] += 1` on a key already counted bumps its
      entry where it stands and leaves every other entry as it was. */
  lemma {:induction false} IncrementInPlace<K>(c: Counter<K>, k: K)
    requires DistinctKeys(c) && k in Keys(c)
    ensures |Increment(c, k)| == |c|
    ensures forall i | 0 <= i < |c| ::
              Increment(c, k)[i] == if c[i].key == k then Entry(k, c[i].count + 1) else c[i]
  {
    assert c == [c[0]] + c[1..];
    KeysCons(c[0], c[1..]);
    DistinctCons(c[0], c[1..]);
    if c[0].key != k {
      IncrementInPlace(c[1..], k);
    }
  }

  /** `c.update(ks)`: count every element of `ks`, left to right. */
  function Update<K(==)>(c: Counter<K>, ks: seq<K>): Counter<K>
    decreases |ks|
  {
    if ks == [] then c else Update(Increment(c, ks[0]), ks[1..])
  }

  /** `Counter(ks)`. */
  function Tally<K(==)>(ks: seq<K>): Counter<K>
  {
    Update([], ks)
  }

  lemma KeysCons<K>(x: Entry<K>, s: Counter<K>)
    ensures Keys([x] + s) == {x.key} + Keys(s)
  {
    var c := [x] + s;
    forall k | k in Keys(c) ensures k in {x.key} + Keys(s) {
      var i :| 0 <= i < |c| && c[i].key == k;
      if i > 0 { assert s[i - 1].key == k; }
    }
    forall k | k in Keys(s) ensures k in Keys(c) {
      var i :| 0 <= i < |s| && s[i].key == k;
      assert c[i + 1].key == k;
    }
    assert c[0].key == x.key;
  }

  lemma DistinctCons<K>(x: Entry<K>, s: Counter<K>)
    ensures DistinctKeys([x] + s) <==> x.key !in Keys(s) && DistinctKeys(s)
  {
    var c := [x] + s;
    assert forall i | 0 <= i < |s| :: c[i + 1] == s[i];
    if DistinctKeys(c) {
      forall i | 0 <= i < |s| ensures s[i].key != x.key {
        assert c[0].key != c[i + 1].key;
      }
    }
    if x.key !in Keys(s) && DistinctKeys(s) {
      forall i, j | 0 <= i < j < |c| ensures c[i].key != c[j].key {
        if i == 0 { assert c[j].key == s[j - 1].key; }
      }
    }
  }

  lemma {:induction false} DistinctSize<K>(c: Counter<K>)
    requires DistinctKeys(c)
    ensures |Keys(c)| == |c|
  {
    if c != [] {
      assert c == [c[0]] + c[1..];
      KeysCons(c[0], c[1..]);
      DistinctCons(c[0], c[1..]);
      DistinctSize(c[1..]);
    } else {
      assert Keys(c) == {};
    }
  }

  /** Incrementing `k` adds one to the count of `k` and to nothing else. */
  lemma {:induction false} IncrementCount<K>(c: Counter<K>, k: K, j: K)
    ensures Count(Increment(c, k), j) == Count(c, j) + (if j == k then 1 else 0)
  {
    if c != [] && c[0].key != k {
      IncrementCount(c[1..], k, j);
      assert Increment(c, k)[1..] == Increment(c[1..], k);
    }
  }

  /** Incrementing `k` adds `k` to the keys and one to the total. */
  lemma {:induction false} IncrementKeys<K>(c: Counter<K>, k: K)
    ensures Keys(Increment(c, k)) == Keys(c) + {k}
    ensures Total(Increment(c, k)) == Total(c) + 1
  {
    if c == [] {
      KeysCons(Entry(k, 1), []);
      assert Keys<K>([]) == {};
    } else {
      var x, tail := c[0], c[1..];
      assert c == [x] + tail;
      KeysCons(x, tail);
      if x.key == k {
        KeysCons(Entry(k, x.count + 1), tail);
      } else {
        IncrementKeys(tail, k);
        KeysCons(x, Increment(tail, k));
      }
    }
  }

  /** Incrementing keeps a counter valid. */
  lemma {:induction false} IncrementValid<K>(c: Counter<K>, k: K)
    requires Valid(c)
    ensures Valid(Increment(c, k))
  {
    if c != [] {
      var x, tail := c[0], c[1..];
      assert c == [x] + tail;
      DistinctCons(x, tail);
      if x.key == k {
        DistinctCons(Entry(k, x.count + 1), tail);
      } else {
        IncrementValid(tail, k);
        IncrementKeys(tail, k);
        DistinctCons(x, Increment(tail, k));
      }
    }
  }

  /** `update` adds to each count the number of occurrences of its key in `ks`, adds the
      elements of `ks` to the keys and `|ks|` to the total, and keeps the counter valid. */
  lemma UpdateSpec<K>(c: Counter<K>, ks: seq<K>)
    requires Valid(c)
    ensures forall j :: Count(Update(c, ks), j) == Count(c, j) + multiset(ks)[j]
    ensures Keys(Update(c, ks)) == Keys(c) + set k | k in ks
    ensures Total(Update(c, ks)) == Total(c) + |ks|
    ensures Valid(Update(c, ks))
  {
    forall j ensures Count(Update(c, ks), j) == Count(c, j) + multiset(ks)[j] {
      UpdateCount(c, ks, j);
    }
    UpdateKeys(c, ks);
    UpdateValid(c, ks);
  }

  lemma {:induction false} UpdateCount<K>(c: Counter<K>, ks: seq<K>, j: K)
    ensures Count(Update(c, ks), j) == Count(c, j) + multiset(ks)[j]
    decreases |ks|
  {
    if ks != [] {
      var k0, rest := ks[0], ks[1..];
      assert ks == [k0] + rest;
      IncrementCount(c, k0, j);
      UpdateCount(Increment(c, k0), rest, j);
    }
  }

  lemma {:induction false} UpdateKeys<K>(c: Counter<K>, ks: seq<K>)
    ensures Keys(Update(c, ks)) == Keys(c) + set k | k in ks
    ensures Total(Update(c, ks)) == Total(c) + |ks|
    decreases |ks|
  {
    if ks != [] {
      var k0, rest := ks[0], ks[1..];
      assert ks == [k0] + rest;
      IncrementKeys(c, k0);
      UpdateKeys(Increment(c, k0), rest);
      assert (set k | k in ks) == {k0} + set k | k in rest;
    } else {
      assert (set k | k in ks) == {};
    }
  }

  lemma {:induction false} UpdateValid<K>(c: Counter<K>, ks: seq<K>)
    requires Valid(c)
    ensures Valid(Update(c, ks))
    decreases |ks|
  {
    if ks != [] {
      IncrementValid(c, ks[0]);
      UpdateValid(Increment(c, ks[0]), ks[1..]);
    }
  }

  /** Counting `a` then `b` is counting `a + b`. */
  lemma {:induction false} UpdateConcat<K>(c: Counter<K>, a: seq<K>, b: seq<K>)
    ensures Update(Update(c, a), b) == Update(c, a + b)
    decreases |a|
  {
    if a != [] {
      assert (a + b)[0] == a[0] && (a + b)[1..] == a[1..] + b;
      UpdateConcat(Increment(c, a[0]), a[1..], b);
    } else {
      assert a + b == b;
    }
  }

  /** Counting one more element adds 1 to its count: `Tally` built element by element. */
  lemma TallySnoc<K>(ks: seq<K>, k: K)
    ensures Tally(ks + [k]) == Increment(Tally(ks), k)
  {
    UpdateConcat([], ks, [k]);
    assert [k][1..] == [];
  }

  /** A tally counts every element of `ks` exactly as often as it occurs: its keys are the
      distinct elements of `ks`, there is one entry per key, every count is positive, and
      the counts add up to `|ks|`. */
  lemma TallySpec<K>(ks: seq<K>)
    ensures forall j :: Count(Tally(ks), j) == multiset(ks)[j]
    ensures Keys(Tally(ks)) == set k | k in ks
    ensures |Tally(ks)| == |set k | k in ks|
    ensures Total(Tally(ks)) == |ks|
    ensures Valid(Tally(ks))
  {
    var empty: Counter<K> := [];
    assert Keys(empty) == {};
    UpdateSpec(empty, ks);
    DistinctSize(Tally(ks));
  }

  // Sorting

  /** Entries in non-increasing order of `rank`. */
  ghost predicate NonIncreasing<K>(s: seq<Entry<K>>, rank: Entry<K> -> int)
  {
    forall i, j | 0 <= i < j < |s| :: rank(s[i]) >= rank(s[j])
  }

  /** Puts `e` before the first entry ranked no higher than it, so that entries of equal
      rank keep their relative order. */
  function InsertByRank<K>(e: Entry<K>, s: seq<Entry<K>>, rank: Entry<K> -> int): (r: seq<Entry<K>>)
    ensures |r| == |s| + 1 && (r[0] == e || (s != [] && r[0] == s[0]))
  {
    if s == [] || rank(s[0]) <= rank(e) then [e] + s
    else [s[0]] + InsertByRank(e, s[1..], rank)
  }

  /** Python's `sorted(s, key=rank, reverse=True)`: a stable sort into non-increasing rank. */
  function SortByRank<K>(s: seq<Entry<K>>, rank: Entry<K> -> int): (r: seq<Entry<K>>)
    ensures |r| == |s|
  {
    if s == [] then [] else InsertByRank(s[0], SortByRank(s[1..], rank), rank)
  }

  lemma {:induction false} InsertByRankSorted<K>(e: Entry<K>, s: seq<Entry<K>>, rank: Entry<K> -> int)
    requires NonIncreasing(s, rank)
    ensures NonIncreasing(InsertByRank(e, s, rank), rank)
  {
    if s != [] && rank(s[0]) > rank(e) {
      var tail := s[1..];
      InsertByRankSorted(e, tail, rank);
      var r := InsertByRank(e, tail, rank);
      var out := [s[0]] + r;
      assert rank(s[0]) >= rank(r[0]);
      forall i, j | 0 <= i < j < |out| ensures rank(out[i]) >= rank(out[j]) {
        if i == 0 {
          assert rank(r[0]) >= rank(r[j - 1]) || j == 1;
        } else {
          assert out[i] == r[i - 1] && out[j] == r[j - 1];
        }
      }
    }
  }

  lemma {:induction false} InsertByRankPerm<K>(e: Entry<K>, s: seq<Entry<K>>, rank: Entry<K> -> int)
    ensures multiset(InsertByRank(e, s, rank)) == multiset{e} + multiset(s)
    ensures Keys(InsertByRank(e, s, rank)) == {e.key} + Keys(s)
    ensures DistinctKeys(s) && e.key !in Keys(s) ==> DistinctKeys(InsertByRank(e, s, rank))
  {
    if s == [] || rank(s[0]) <= rank(e) {
      KeysCons(e, s);
      DistinctCons(e, s);
    } else {
      var tail := s[1..];
      assert s == [s[0]] + tail;
      InsertByRankPerm(e, tail, rank);
      var r := InsertByRank(e, tail, rank);
      KeysCons(s[0], tail);
      KeysCons(s[0], r);
      DistinctCons(s[0], tail);
      DistinctCons(s[0], r);
    }
  }

  /** The sort is a permutation into non-increasing rank order, with the same keys, and
      distinct keys stay distinct. */
  lemma {:induction false} SortByRankSpec<K>(s: seq<Entry<K>>, rank: Entry<K> -> int)
    ensures NonIncreasing(SortByRank(s, rank), rank)
    ensures multiset(SortByRank(s, rank)) == multiset(s)
    ensures Keys(SortByRank(s, rank)) == Keys(s)
    ensures DistinctKeys(s) ==> DistinctKeys(SortByRank(s, rank))
  {
    if s != [] {
      var tail := s[1..];
      assert s == [s[0]] + tail;
      SortByRankSpec(tail, rank);
      InsertByRankSorted(s[0], SortByRank(tail, rank), rank);
      InsertByRankPerm(s[0], SortByRank(tail, rank), rank);
      KeysCons(s[0], tail);
      DistinctCons(s[0], tail);
    }
  }

  // Reports

  /** The key of `most_common`: an entry's count. */
  function CountRank<K>(e: Entry<K>): int
  {
    e.count
  }

  /** The key of `sorted(items(), reverse=True)` on an integer-keyed counter: the key. */
  function KeyRank(e: Entry<int>): int
  {
    e.key
  }

  /** `c.most_common(n)`: the entries by non-increasing count (ties in insertion order),
      the first `n` of them. */
  function MostCommon<K>(c: Counter<K>, n: nat): seq<Entry<K>>
  {
    SortByRank(c, CountRank)[..Min(n, |c|)]
  }

  /** `sorted(c.items(), reverse=True)[:n]` for an integer-keyed counter. The items are
      (key, count) pairs and keys are distinct, so the order is that of the keys. */
  function HighestKeys(c: Counter<int>, n: nat): seq<Entry<int>>
  {
    SortByRank(c, KeyRank)[..Min(n, |c|)]
  }

  /** In a counter with distinct keys, an entry's count is the count of its key. */
  lemma {:induction false} EntryCount<K>(c: Counter<K>, e: Entry<K>)
    requires DistinctKeys(c) && e in c
    ensures Count(c, e.key) == e.count
  {
    assert c == [c[0]] + c[1..];
    DistinctCons(c[0], c[1..]);
    if c[0] != e {
      var tail := c[1..];
      assert e in tail;
      assert e.key in Keys(tail) by {
        var i :| 0 <= i < |tail| && tail[i] == e;
      }
      EntryCount(tail, e);
    }
  }

  /** A prefix of a sorted permutation of `c`: every listed entry is an entry of `c` with
      its true count, the list is in non-increasing rank order with distinct keys, and no
      entry left out ranks higher than a listed one. */
  lemma SortedPrefix<K>(c: Counter<K>, rank: Entry<K> -> int, r: seq<Entry<K>>, n: nat)
    requires DistinctKeys(c)
    requires r == SortByRank(c, rank)[..Min(n, |c|)]
    ensures |r| == Min(n, |c|)
    ensures NonIncreasing(r, rank)
    ensures DistinctKeys(r)
    ensures forall e | e in r :: e in c && Count(c, e.key) == e.count
    ensures forall e, f | e in c && e !in r && f in r :: rank(f) >= rank(e)
  {
    var sorted := SortByRank(c, rank);
    SortByRankSpec(c, rank);
    assert r <= sorted;
    PrefixOrdered(sorted, rank, r);
    PrefixEntries(c, sorted, r);
    PrefixDominates(c, sorted, rank, r);
  }

  /** A prefix of a ranked list with distinct keys is ranked and has distinct keys. */
  lemma PrefixOrdered<K>(sorted: seq<Entry<K>>, rank: Entry<K> -> int, r: seq<Entry<K>>)
    requires NonIncreasing(sorted, rank) && DistinctKeys(sorted)
    requires r <= sorted
    ensures NonIncreasing(r, rank) && DistinctKeys(r)
  {
    forall i, j | 0 <= i < j < |r| ensures rank(r[i]) >= rank(r[j]) && r[i].key != r[j].key {
      assert r[i] == sorted[i] && r[j] == sorted[j];
    }
  }

  lemma PrefixEntries<K>(c: Counter<K>, sorted: seq<Entry<K>>, r: seq<Entry<K>>)
    requires DistinctKeys(c) && multiset(sorted) == multiset(c)
    requires r <= sorted
    ensures forall e | e in r :: e in c && Count(c, e.key) == e.count
  {
    forall e | e in r ensures e in c && Count(c, e.key) == e.count {
      assert e in sorted;
      assert e in multiset(sorted);
      EntryCount(c, e);
    }
  }

  lemma PrefixDominates<K>(c: Counter<K>, sorted: seq<Entry<K>>, rank: Entry<K> -> int, r: seq<Entry<K>>)
    requires multiset(sorted) == multiset(c) && NonIncreasing(sorted, rank)
    requires r <= sorted
    ensures forall e, f | e in c && e !in r && f in r :: rank(f) >= rank(e)
  {
    forall e, f | e in c && e !in r && f in r ensures rank(f) >= rank(e) {
      assert e in multiset(sorted);
      var i :| 0 <= i < |sorted| && sorted[i] == e;
      var j :| 0 <= j < |r| && r[j] == f;
      assert forall k | 0 <= k < |r| :: r[k] == sorted[k];
      assert sorted[j] == f && j < i;
    }
  }

  /** `most_common(n)` lists min(n, len(c)) distinct entries of `c` with their true counts,
      in non-increasing count order, and no entry left out has a higher count than any
      entry listed. */
  lemma MostCommonSpec<K>(c: Counter<K>, n: nat)
    requires Valid(c)
    ensures |MostCommon(c, n)| == Min(n, |c|)
    ensures forall i, j | 0 <= i < j < |MostCommon(c, n)| :: MostCommon(c, n)[i].count >= MostCommon(c, n)[j].count
    ensures DistinctKeys(MostCommon(c, n))
    ensures forall e | e in MostCommon(c, n) :: e in c && Count(c, e.key) == e.count
    ensures forall e, f | e in c && e !in MostCommon(c, n) && f in MostCommon(c, n) :: f.count >= e.count
  {
    var r := MostCommon(c, n);
    SortedPrefix(c, CountRank, r, n);
    forall i, j | 0 <= i < j < |r| ensures r[i].count >= r[j].count {
      assert CountRank(r[i]) >= CountRank(r[j]);
    }
    forall e, f | e in c && e !in r && f in r ensures f.count >= e.count {
      assert CountRank(f) >= CountRank(e);
    }
  }

  /** A key never counted has count 0. */
  lemma {:induction false} CountAbsent<K>(c: Counter<K>, k: K)
    requires k !in Keys(c)
    ensures Count(c, k) == 0
  {
    if c != [] {
      assert c == [c[0]] + c[1..];
      KeysCons(c[0], c[1..]);
      CountAbsent(c[1..], k);
    }
  }

  /** No key left out of the most-common listing, counted or not, has a higher count than
      a listed entry. */
  lemma MostCommonDominates<K>(c: Counter<K>, n: nat)
    requires Valid(c)
    ensures forall k, e | e in MostCommon(c, n) && k !in Keys(MostCommon(c, n)) :: Count(c, k) <= e.count
  {
    var top := MostCommon(c, n);
    MostCommonSpec(c, n);
    forall k, e | e in top && k !in Keys(top) ensures Count(c, k) <= e.count {
      if k in Keys(c) {
        var i :| 0 <= i < |c| && c[i].key == k;
        EntryCount(c, c[i]);
        assert c[i] !in top;
      } else {
        CountAbsent(c, k);
      }
    }
  }

  /** The highest-keys report lists min(n, len(c)) entries of `c` with their true counts,
      in strictly decreasing key order, and no key left out is higher than a listed one. */
  lemma HighestKeysSpec(c: Counter<int>, n: nat)
    requires Valid(c)
    ensures |HighestKeys(c, n)| == Min(n, |c|)
    ensures forall i, j | 0 <= i < j < |HighestKeys(c, n)| :: HighestKeys(c, n)[i].key > HighestKeys(c, n)[j].key
    ensures forall e | e in HighestKeys(c, n) :: e in c && Count(c, e.key) == e.count
    ensures forall e, f | e in c && e !in HighestKeys(c, n) && f in HighestKeys(c, n) :: f.key >= e.key
  {
    var r := HighestKeys(c, n);
    SortedPrefix(c, KeyRank, r, n);
    forall i, j | 0 <= i < j < |r| ensures r[i].key > r[j].key {
      assert KeyRank(r[i]) >= KeyRank(r[j]);
      assert r[i].key != r[j].key;
    }
    forall e, f | e in c && e !in r && f in r ensures f.key >= e.key {
      assert KeyRank(f) >= KeyRank(e);
    }
  }
}
