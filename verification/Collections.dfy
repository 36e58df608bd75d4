/** List helpers shared by the models of the services: what `filter`, a stable
    `sort`, and grouping into a JavaScript `Map` compute, with the laws the
    service proofs use. */
module Collections {

  datatype Option<+T> = None | Some(value: T)

  datatype Result<+T, +E> = Ok(value: T) | Err(error: E)

  // ── filter ───────────────────────────────────────────────────────────────

  function Filter<T>(s: seq<T>, p: T -> bool): (r: seq<T>)
    ensures |r| <= |s|
    ensures forall x | x in r :: x in s && p(x)
    ensures forall x | x in s && p(x) :: x in r
  {
    if s == [] then []
    else if p(s[0]) then [s[0]] + Filter(s[1..], p)
    else Filter(s[1..], p)
  }

  lemma {:induction false} FilterConcat<T>(a: seq<T>, b: seq<T>, p: T -> bool)
    ensures Filter(a + b, p) == Filter(a, p) + Filter(b, p)
  {
    if a == [] {
      assert a + b == b;
    } else {
      assert (a + b)[1..] == a[1..] + b;
      FilterConcat(a[1..], b, p);
    }
  }

  /** Two predicates that agree on the members of a list select the same rows. */
  lemma {:induction false} FilterAgree<T>(s: seq<T>, p: T -> bool, q: T -> bool)
    requires forall x | x in s :: p(x) == q(x)
    ensures Filter(s, p) == Filter(s, q)
  {
    if s != [] { FilterAgree(s[1..], p, q); }
  }

  lemma {:induction false} FilterNone<T>(s: seq<T>, p: T -> bool)
    requires forall x | x in s :: !p(x)
    ensures Filter(s, p) == []
  {
    if s != [] { FilterNone(s[1..], p); }
  }

  lemma {:induction false} FilterAll<T>(s: seq<T>, p: T -> bool)
    requires forall x | x in s :: p(x)
    ensures Filter(s, p) == s
  {
    if s != [] { FilterAll(s[1..], p); }
  }

  /** Selecting with `q` first changes nothing when every row `p` selects satisfies `q`. */
  lemma {:induction false} FilterAfter<T>(s: seq<T>, q: T -> bool, p: T -> bool)
    requires forall x | x in s :: p(x) ==> q(x)
    ensures Filter(Filter(s, q), p) == Filter(s, p)
  {
    if s != [] { FilterAfter(s[1..], q, p); }
  }

  /** Selecting twice selects what satisfies both. */
  lemma {:induction false} FilterNested<T>(rows: seq<T>, p: T -> bool, q: T -> bool, both: T -> bool)
    requires forall x | x in rows :: both(x) == (p(x) && q(x))
    ensures Filter(Filter(rows, p), q) == Filter(rows, both)
  {
    if rows != [] { FilterNested(rows[1..], p, q, both); }
  }

  /** Rewriting rows one by one commutes with selecting them, when selected rows stay as they are. */
  lemma {:induction false} FilterMap<T>(s: seq<T>, t: seq<T>, p: T -> bool)
    requires |s| == |t|
    requires forall i | 0 <= i < |s| :: p(s[i]) == p(t[i]) && (p(s[i]) ==> s[i] == t[i])
    ensures Filter(s, p) == Filter(t, p)
  {
    if s != [] { FilterMap(s[1..], t[1..], p); }
  }

  /** Selection keeps the multiplicity of every selected row and drops the others. */
  lemma {:induction false} FilterCount<T>(s: seq<T>, p: T -> bool, x: T)
    ensures multiset(Filter(s, p))[x] == if p(x) then multiset(s)[x] else 0
  {
    if s != [] {
      FilterCount(s[1..], p, x);
      assert s == [s[0]] + s[1..];
    }
  }

  /** Two disjoint selections add up to their union. */
  lemma {:induction false} FilterPartition<T>(s: seq<T>, p: T -> bool, q: T -> bool, r: T -> bool)
    requires forall x | x in s :: p(x) == (q(x) || r(x)) && !(q(x) && r(x))
    ensures |Filter(s, q)| + |Filter(s, r)| == |Filter(s, p)|
  {
    if s != [] { FilterPartition(s[1..], p, q, r); }
  }

  // ── stable sort ──────────────────────────────────────────────────────────

  function InsertBy<T>(x: T, s: seq<T>, leq: (T, T) -> bool): seq<T> {
    if s == [] then [x]
    else if leq(x, s[0]) then [x] + s
    else [s[0]] + InsertBy(x, s[1..], leq)
  }

  /** The stable sort of a list: equal rows keep their order. */
  function SortBy<T>(s: seq<T>, leq: (T, T) -> bool): seq<T> {
    if s == [] then [] else InsertBy(s[0], SortBy(s[1..], leq), leq)
  }

  ghost predicate TotalPreorder<T(!new)>(leq: (T, T) -> bool) {
    && (forall a, b :: leq(a, b) || leq(b, a))
    && (forall a, b, c :: leq(a, b) && leq(b, c) ==> leq(a, c))
  }

  predicate SortedBy<T>(s: seq<T>, leq: (T, T) -> bool) {
    forall i, j | 0 <= i < j < |s| :: leq(s[i], s[j])
  }

  lemma {:induction false} InsertPermutes<T>(x: T, s: seq<T>, leq: (T, T) -> bool)
    ensures multiset(InsertBy(x, s, leq)) == multiset{x} + multiset(s)
  {
    if s != [] {
      InsertPermutes(x, s[1..], leq);
      assert s == [s[0]] + s[1..];
    }
  }

  lemma SameMembers<T>(a: seq<T>, b: seq<T>)
    requires multiset(a) == multiset(b)
    ensures |a| == |b| && forall x :: x in a <==> x in b
  {
    assert |multiset(a)| == |multiset(b)|;
    forall x ensures x in a <==> x in b {
      assert x in a <==> x in multiset(a);
      assert x in b <==> x in multiset(b);
    }
  }

  lemma {:induction false} SortPermutes<T>(s: seq<T>, leq: (T, T) -> bool)
    ensures multiset(SortBy(s, leq)) == multiset(s)
    ensures |SortBy(s, leq)| == |s|
    ensures forall x :: x in SortBy(s, leq) <==> x in s
  {
    if s != [] {
      assert s == [s[0]] + s[1..];
      SortPermutes(s[1..], leq);
      InsertPermutes(s[0], SortBy(s[1..], leq), leq);
    }
    SameMembers(SortBy(s, leq), s);
  }

  lemma {:induction false} InsertSorts<T(!new)>(x: T, s: seq<T>, leq: (T, T) -> bool)
    requires TotalPreorder(leq) && SortedBy(s, leq)
    ensures SortedBy(InsertBy(x, s, leq), leq)
  {
    if s != [] && !leq(x, s[0]) {
      InsertSorts(x, s[1..], leq);
      var r := InsertBy(x, s[1..], leq);
      InsertPermutes(x, s[1..], leq);
      forall j | 0 <= j < |r| ensures leq(s[0], r[j]) {
        assert r[j] in multiset(r);
        assert r[j] == x || r[j] in s[1..];
      }
    }
  }

  lemma {:induction false} SortSorts<T(!new)>(s: seq<T>, leq: (T, T) -> bool)
    requires TotalPreorder(leq)
    ensures SortedBy(SortBy(s, leq), leq)
  {
    if s != [] {
      SortSorts(s[1..], leq);
      InsertSorts(s[0], SortBy(s[1..], leq), leq);
    }
  }

  lemma {:induction false} InsertFilter<T(!new)>(x: T, s: seq<T>, leq: (T, T) -> bool, p: T -> bool)
    requires TotalPreorder(leq) && SortedBy(s, leq)
    ensures Filter(InsertBy(x, s, leq), p) == if p(x) then InsertBy(x, Filter(s, p), leq) else Filter(s, p)
  {
    if s == [] || leq(x, s[0]) {
      var f := Filter(s, p);
      if f != [] {
        assert f[0] in s;
        var i :| 0 <= i < |s| && s[i] == f[0];
        assert s == [] || i == 0 || leq(s[0], s[i]);
      }
      assert ([x] + s)[1..] == s;
    } else {
      InsertFilter(x, s[1..], leq, p);
      var r := InsertBy(x, s, leq);
      assert r[0] == s[0] && r[1..] == InsertBy(x, s[1..], leq);
    }
  }

  /** Selecting and sorting commute. */
  lemma {:induction false} SortFilter<T(!new)>(s: seq<T>, leq: (T, T) -> bool, p: T -> bool)
    requires TotalPreorder(leq)
    ensures Filter(SortBy(s, leq), p) == SortBy(Filter(s, p), leq)
  {
    if s != [] {
      SortFilter(s[1..], leq, p);
      SortSorts(s[1..], leq);
      InsertFilter(s[0], SortBy(s[1..], leq), leq, p);
    }
  }

  ghost predicate RanksApart<T(!new)>(a: seq<T>, leq: (T, T) -> bool) {
    forall x, y | x in a && y in a && leq(x, y) && leq(y, x) :: x == y
  }

  lemma {:induction false} SortedStays<T(!new)>(s: seq<T>, leq: (T, T) -> bool)
    requires SortedBy(s, leq)
    ensures SortBy(s, leq) == s
  {
    if s != [] {
      assert SortedBy(s[1..], leq);
      SortedStays(s[1..], leq);
    }
  }

  /** The sort is stable: rows that count as equal keep their order. */
  lemma SortStable<T(!new)>(s: seq<T>, leq: (T, T) -> bool, p: T -> bool)
    requires TotalPreorder(leq)
    requires forall x, y | x in s && y in s && p(x) && p(y) :: leq(x, y)
    ensures Filter(SortBy(s, leq), p) == Filter(s, p)
  {
    SortFilter(s, leq, p);
    var f := Filter(s, p);
    assert forall x | x in f :: x in s && p(x);
    SortedStays(f, leq);
  }

  lemma SortedHead<T(!new)>(a: seq<T>, b: seq<T>, leq: (T, T) -> bool)
    requires SortedBy(a, leq) && SortedBy(b, leq) && RanksApart(a, leq)
    requires multiset(a) == multiset(b) && a != [] && b != []
    ensures a[0] == b[0]
  {
    assert a[0] in multiset(b) && b[0] in multiset(a);
    var i :| 0 <= i < |b| && b[i] == a[0];
    var j :| 0 <= j < |a| && a[j] == b[0];
    if i != 0 && j != 0 {
      assert leq(b[0], b[i]) && leq(a[0], a[j]);
    }
  }

  lemma TailMultiset<T>(a: seq<T>)
    requires a != []
    ensures multiset(a[1..]) == multiset(a) - multiset{a[0]}
  {
    assert a == [a[0]] + a[1..];
  }

  lemma SortedTail<T>(a: seq<T>, leq: (T, T) -> bool)
    requires a != [] && SortedBy(a, leq)
    ensures SortedBy(a[1..], leq)
  {
  }

  lemma RanksApartTail<T(!new)>(a: seq<T>, leq: (T, T) -> bool)
    requires a != [] && RanksApart(a, leq)
    ensures RanksApart(a[1..], leq)
  {
    assert forall x | x in a[1..] :: x in a;
  }

  /** A sorted list is determined by its members when equal rank means equal row. */
  lemma {:induction false} SortedUnique<T(!new)>(a: seq<T>, b: seq<T>, leq: (T, T) -> bool)
    requires SortedBy(a, leq) && SortedBy(b, leq) && RanksApart(a, leq)
    requires multiset(a) == multiset(b)
    ensures a == b
  {
    hide SortedBy, RanksApart;
    assert |multiset(a)| == |a| && |multiset(b)| == |b|;
    if a != [] {
      assert a == [a[0]] + a[1..] && b == [b[0]] + b[1..];
      SortedTail(a, leq);
      SortedTail(b, leq);
      SortedHead(a, b, leq);
      TailMultiset(a);
      TailMultiset(b);
      RanksApartTail(a, leq);
      SortedUnique(a[1..], b[1..], leq);
    }
  }

  // ── grouping into an insertion-ordered Map ───────────────────────────────

  /** The distinct keys of the rows, in order of first occurrence. */
  function KeysOf<T, K(==)>(rows: seq<T>, key: T -> K): seq<K> {
    if rows == [] then []
    else
      var before := KeysOf(rows[..|rows| - 1], key);
      var k := key(rows[|rows| - 1]);
      if k in before then before else before + [k]
  }

  /** The rows with one key, in their original order. */
  function Bucket<T, K(==)>(rows: seq<T>, key: T -> K, k: K): seq<T> {
    if rows == [] then []
    else
      var before := Bucket(rows[..|rows| - 1], key, k);
      if key(rows[|rows| - 1]) == k then before + [rows[|rows| - 1]] else before
  }

  function Total<T>(rows: seq<T>, weight: T -> int): int {
    if rows == [] then 0 else Total(rows[..|rows| - 1], weight) + weight(rows[|rows| - 1])
  }

  /** The weights of the buckets of the keys `ks`, added up. */
  function GroupedTotal<T, K(==)>(rows: seq<T>, key: T -> K, ks: seq<K>, weight: T -> int): int {
    if ks == [] then 0
    else GroupedTotal(rows, key, ks[..|ks| - 1], weight) + Total(Bucket(rows, key, ks[|ks| - 1]), weight)
  }

  lemma {:induction false} TotalConcat<T>(a: seq<T>, b: seq<T>, weight: T -> int)
    ensures Total(a + b, weight) == Total(a, weight) + Total(b, weight)
  {
    if b == [] {
      assert a + b == a;
    } else {
      assert (a + b)[..|a + b| - 1] == a + b[..|b| - 1];
      TotalConcat(a, b[..|b| - 1], weight);
    }
  }

  lemma PullAt<T>(b: seq<T>, i: nat)
    requires i < |b|
    ensures b == b[..i] + [b[i]] + b[i + 1..]
    ensures multiset(b) == multiset{b[i]} + multiset(b[..i] + b[i + 1..])
  {
    assert b == b[..i] + [b[i]] + b[i + 1..];
  }

  lemma PullFront<T>(a: seq<T>, b: seq<T>) returns (i: nat)
    requires multiset(a) == multiset(b) && a != []
    ensures i < |b| && b[i] == a[0] && multiset(a[1..]) == multiset(b[..i] + b[i + 1..])
  {
    assert a[0] in multiset(b);
    i :| 0 <= i < |b| && b[i] == a[0];
    TailMultiset(a);
    PullAt(b, i);
  }

  /** A total does not depend on the order of the rows. */
  lemma {:induction false} TotalPermutes<T>(a: seq<T>, b: seq<T>, weight: T -> int)
    requires multiset(a) == multiset(b)
    ensures Total(a, weight) == Total(b, weight)
  {
    assert |multiset(a)| == |a| && |multiset(b)| == |b|;
    if a != [] {
      var i := PullFront(a, b);
      var left, right := b[..i], b[i + 1..];
      TotalPermutes(a[1..], left + right, weight);
      assert a == [a[0]] + a[1..] && b == left + [a[0]] + right;
      TotalConcat([a[0]], a[1..], weight);
      TotalConcat(left + [a[0]], right, weight);
      TotalConcat(left, [a[0]], weight);
      TotalConcat(left, right, weight);
    }
  }

  predicate Distinct<K(==)>(s: seq<K>) {
    forall i, j | 0 <= i < j < |s| :: s[i] != s[j]
  }

  lemma {:induction false} DistinctCount<T>(s: seq<T>, x: T)
    requires Distinct(s)
    ensures multiset(s)[x] <= 1
  {
    if s != [] {
      DistinctCount(s[1..], x);
      assert s == [s[0]] + s[1..];
      assert s[0] !in s[1..];
    }
  }

  lemma RepeatCount<T>(s: seq<T>, i: nat, j: nat)
    requires i < j < |s| && s[i] == s[j]
    ensures multiset(s)[s[i]] >= 2
  {
    PullAt(s, j);
    var rest := s[..j] + s[j + 1..];
    assert rest[i] == s[i];
    assert s[i] in multiset(rest);
  }

  /** A rearrangement of rows with different keys has different keys. */
  lemma KeysStayApart<T, K>(plain: seq<T>, moved: seq<T>, key: T -> K)
    requires multiset(plain) == multiset(moved)
    requires forall i, j | 0 <= i < j < |plain| :: key(plain[i]) != key(plain[j])
    ensures forall i, j | 0 <= i < j < |moved| :: key(moved[i]) != key(moved[j])
  {
    SameMembers(plain, moved);
    forall i, j | 0 <= i < j < |moved| ensures key(moved[i]) != key(moved[j]) {
      assert moved[i] in plain && moved[j] in plain;
      if key(moved[i]) == key(moved[j]) {
        assert moved[i] == moved[j];
        RepeatCount(moved, i, j);
        DistinctCount(plain, moved[i]);
        assert false;
      }
    }
  }

  lemma Without<T>(xs: seq<T>, i: nat)
    requires Distinct(xs) && i < |xs|
    ensures var ys := xs[..i] + xs[i + 1..]; Distinct(ys) && forall x :: x in ys <==> x in xs && x != xs[i]
  {
    var ys := xs[..i] + xs[i + 1..];
    forall x ensures x in ys <==> x in xs && x != xs[i] {
      if x in xs && x != xs[i] {
        var j :| 0 <= j < |xs| && xs[j] == x;
        assert ys[if j < i then j else j - 1] == x;
      }
    }
  }

  lemma HasMember<T>(xs: seq<T>)
    ensures xs == [] || exists x :: x in xs
  {
    if xs != [] { assert xs[0] in xs; }
  }

  /** A list without repeats that holds exactly the selected members of a pool
      has as many members as the selection. */
  lemma {:induction false} CountMembers<T>(xs: seq<T>, pool: seq<T>, p: T -> bool)
    requires Distinct(xs) && Distinct(pool)
    requires forall x :: x in xs <==> x in pool && p(x)
    ensures |Filter(pool, p)| == |xs|
  {
    HasMember(xs);
    if pool != [] {
      var head, rest := pool[0], pool[1..];
      if p(head) {
        var i :| 0 <= i < |xs| && xs[i] == head;
        Without(xs, i);
        Without(pool, 0);
        assert pool[..0] + pool[1..] == rest;
        CountMembers(xs[..i] + xs[i + 1..], rest, p);
      } else {
        CountMembers(xs, rest, p);
      }
    }
  }

  /** Two lists without repeats that have the same members are equally long. */
  lemma SameCount<T>(xs: seq<T>, ys: seq<T>)
    requires Distinct(xs) && Distinct(ys)
    requires forall x :: x in xs <==> x in ys
    ensures |xs| == |ys|
  {
    CountMembers(xs, ys, (x: T) => true);
    FilterAll(ys, (x: T) => true);
  }

  lemma {:induction false} KeysDistinct<T, K>(rows: seq<T>, key: T -> K)
    ensures Distinct(KeysOf(rows, key))
  {
    if rows != [] { KeysDistinct(rows[..|rows| - 1], key); }
  }

  /** Rows with different keys have their keys in their own order. */
  lemma {:induction false} KeysInOrder<T, K>(rows: seq<T>, key: T -> K)
    requires forall i, j | 0 <= i < j < |rows| :: key(rows[i]) != key(rows[j])
    ensures |KeysOf(rows, key)| == |rows|
    ensures forall i | 0 <= i < |rows| :: KeysOf(rows, key)[i] == key(rows[i])
  {
    if rows != [] {
      var n := |rows| - 1;
      var front := rows[..n];
      assert forall i | 0 <= i < n :: front[i] == rows[i];
      KeysInOrder(front, key);
    }
  }

  lemma {:induction false} KeysCover<T, K>(rows: seq<T>, key: T -> K, r: T)
    requires r in rows
    ensures key(r) in KeysOf(rows, key)
  {
    var init, last := rows[..|rows| - 1], rows[|rows| - 1];
    assert rows == init + [last];
    if r in init { KeysCover(init, key, r); }
  }

  lemma {:induction false} KeysOccur<T, K>(rows: seq<T>, key: T -> K, k: K) returns (r: T)
    requires k in KeysOf(rows, key)
    ensures r in rows && key(r) == k
  {
    var init, last := rows[..|rows| - 1], rows[|rows| - 1];
    if k in KeysOf(init, key) {
      r := KeysOccur(init, key, k);
      assert rows == init + [last];
    } else {
      r := last;
    }
  }

  lemma {:induction false} BucketMembers<T, K>(rows: seq<T>, key: T -> K, k: K)
    ensures forall r | r in Bucket(rows, key, k) :: r in rows && key(r) == k
    ensures forall r | r in rows && key(r) == k :: r in Bucket(rows, key, k)
  {
    if rows != [] {
      BucketMembers(rows[..|rows| - 1], key, k);
      assert rows == rows[..|rows| - 1] + [rows[|rows| - 1]];
    }
  }

  lemma {:induction false} BucketCount<T, K>(rows: seq<T>, key: T -> K, k: K, x: T)
    ensures multiset(Bucket(rows, key, k))[x] == if key(x) == k then multiset(rows)[x] else 0
  {
    if rows != [] {
      assert rows == rows[..|rows| - 1] + [rows[|rows| - 1]];
      BucketCount(rows[..|rows| - 1], key, k, x);
    }
  }

  /** Adding a row moves the total of exactly the bucket of its key. */
  lemma {:induction false} GroupedTotalStep<T, K>(init: seq<T>, last: T, key: T -> K, ks: seq<K>, weight: T -> int)
    requires Distinct(ks)
    ensures GroupedTotal(init + [last], key, ks, weight)
         == GroupedTotal(init, key, ks, weight) + if key(last) in ks then weight(last) else 0
  {
    var rows := init + [last];
    assert rows[..|rows| - 1] == init;
    if ks != [] {
      var front, k := ks[..|ks| - 1], ks[|ks| - 1];
      assert ks == front + [k];
      GroupedTotalStep(init, last, key, front, weight);
      if key(last) == k {
        var b := Bucket(rows, key, k);
        assert b[..|b| - 1] == Bucket(init, key, k);
      }
    }
  }

  /** A bucket holds the rows of its key in their order. */
  lemma {:induction false} BucketIsFilter<T, K>(rows: seq<T>, key: T -> K, k: K, p: T -> bool)
    requires forall x :: p(x) <==> key(x) == k
    ensures Bucket(rows, key, k) == Filter(rows, p)
  {
    if rows != [] {
      var init, last := rows[..|rows| - 1], rows[|rows| - 1];
      assert rows == init + [last];
      BucketIsFilter(init, key, k, p);
      FilterConcat(init, [last], p);
    }
  }

  lemma {:induction false} NoBucket<T, K>(rows: seq<T>, key: T -> K, k: K)
    requires k !in KeysOf(rows, key)
    ensures Bucket(rows, key, k) == []
  {
    if rows != [] { NoBucket(rows[..|rows| - 1], key, k); }
  }

  lemma GroupedTotalNewKey<T, K>(rows: seq<T>, key: T -> K, ks: seq<K>, k: K, weight: T -> int)
    requires k !in KeysOf(rows, key)
    ensures GroupedTotal(rows, key, ks + [k], weight) == GroupedTotal(rows, key, ks, weight)
  {
    assert (ks + [k])[..|ks|] == ks;
    NoBucket(rows, key, k);
  }

  lemma ConservationStep<T, K>(init: seq<T>, last: T, key: T -> K, weight: T -> int)
    requires GroupedTotal(init, key, KeysOf(init, key), weight) == Total(init, weight)
    ensures GroupedTotal(init + [last], key, KeysOf(init + [last], key), weight) == Total(init, weight) + weight(last)
  {
    hide GroupedTotal, Total, Bucket;
    var rows, before := init + [last], KeysOf(init, key);
    assert rows[..|rows| - 1] == init && rows[|rows| - 1] == last;
    KeysDistinct(rows, key);
    GroupedTotalStep(init, last, key, KeysOf(rows, key), weight);
    if key(last) !in before { GroupedTotalNewKey(init, key, before, key(last), weight); }
  }

  /** Grouping conserves: whatever is counted per row, the buckets of all keys
      add up to the whole list. */
  lemma {:induction false} GroupingConserves<T, K>(rows: seq<T>, key: T -> K, weight: T -> int)
    ensures GroupedTotal(rows, key, KeysOf(rows, key), weight) == Total(rows, weight)
  {
    if rows != [] {
      hide GroupedTotal, Bucket, KeysOf;
      var init, last := rows[..|rows| - 1], rows[|rows| - 1];
      assert rows == init + [last];
      GroupingConserves(init, key, weight);
      ConservationStep(init, last, key, weight);
    }
  }

  /** Fills a Map of buckets in one pass, as every service that groups rows does. */
  method GroupBy<T, K(==)>(rows: seq<T>, key: T -> K) returns (order: seq<K>, buckets: map<K, seq<T>>)
    ensures order == KeysOf(rows, key)
    ensures forall k :: k in buckets <==> k in order
    ensures forall k | k in buckets :: buckets[k] == Bucket(rows, key, k)
  {
    order, buckets := [], map[];
    for i := 0 to |rows|
      invariant order == KeysOf(rows[..i], key)
      invariant forall k :: k in buckets <==> k in order
      invariant forall k | k in buckets :: buckets[k] == Bucket(rows[..i], key, k)
    {
      var k := key(rows[i]);
      assert rows[..i + 1][..i] == rows[..i];
      if k in buckets {
        buckets := buckets[k := buckets[k] + [rows[i]]];
      } else {
        NoBucket(rows[..i], key, k);
        order := order + [k];
        buckets := buckets[k := [rows[i]]];
      }
    }
    assert rows[..|rows|] == rows;
  }
}

