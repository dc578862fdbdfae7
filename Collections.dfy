/**
 * Collection helpers shared by the models of the app: an Option type, and
 * Kotlin's insertion-ordered `groupBy`, which both the update checker (grouping
 * favourites by URL) and the download viewer (grouping pages by folder) use.
 */
module Collections {

  datatype Option<+T> = None | Some(value: T)

  /** One entry of a `groupBy` result: a key and the elements that have it, in input order. */
  datatype Group<K, T> = Group(key: K, items: seq<T>)

  /** The keys of a grouping, in the grouping's order. */
  function Keys<K, T>(g: seq<Group<K, T>>): (ks: seq<K>)
    ensures |ks| == |g|
    ensures forall i :: 0 <= i < |g| ==> ks[i] == g[i].key
  {
    if g == [] then [] else Keys(g[..|g| - 1]) + [g[|g| - 1].key]
  }

  /** The elements of `xs` whose key is `k`, in input order. */
  function Members<T, K(==)>(xs: seq<T>, key: T -> K, k: K): (r: seq<T>)
    ensures |r| <= |xs|
    ensures forall y :: y in r ==> y in xs && key(y) == k
    ensures forall y :: y in xs && key(y) == k ==> y in r
  {
    if xs == [] then []
    else
      var init, last := xs[..|xs| - 1], xs[|xs| - 1];
      assert xs == init + [last];
      Members(init, key, k) + (if key(last) == k then [last] else [])
  }

  /** The position of key `k` in `g`, or `|g|` when `k` is not a key of `g`. */
  function IndexOfKey<K(==), T>(g: seq<Group<K, T>>, k: K): (i: nat)
    ensures i <= |g|
    ensures i < |g| ==> g[i].key == k
    ensures forall j :: 0 <= j < i ==> g[j].key != k
  {
    if g == [] then 0
    else if g[0].key == k then 0
    else 1 + IndexOfKey(g[1..], k)
  }

  /**
   * Kotlin's `groupBy`: a LinkedHashMap from each key to the list of elements
   * with that key. Built element by element, as `groupByTo` does: the element
   * is appended to its key's list, and a key seen for the first time opens a
   * new entry at the end.
   */
  function GroupBy<T, K(==)>(xs: seq<T>, key: T -> K): (g: seq<Group<K, T>>)
    // no group is empty, which is what makes `maxByOrNull(...)!!` and `randomOrNull()` safe on a group
    ensures forall i :: 0 <= i < |g| ==> g[i].items != []
    // no key occurs twice
    ensures forall i, j :: 0 <= i < j < |g| ==> g[i].key != g[j].key
  {
    if xs == [] then []
    else
      var init, x := xs[..|xs| - 1], xs[|xs| - 1];
      var g0 := GroupBy(init, key);
      var i := IndexOfKey(g0, key(x));
      if i < |g0| then g0[i := Group(g0[i].key, g0[i].items + [x])]
      else g0 + [Group(key(x), [x])]
  }

  /** Adding one element extends the members of its own key only. */
  lemma MembersSnoc<T, K>(init: seq<T>, x: T, key: T -> K, k: K)
    ensures Members(init + [x], key, k) == Members(init, key, k) + (if key(x) == k then [x] else [])
  {
    assert (init + [x])[..|init|] == init;
  }

  /** Each group holds exactly the elements with its key, in input order. */
  lemma {:induction false} GroupByItems<T, K(!new)>(xs: seq<T>, key: T -> K)
    ensures forall i :: 0 <= i < |GroupBy(xs, key)| ==>
              GroupBy(xs, key)[i].items == Members(xs, key, GroupBy(xs, key)[i].key)
  {
    if xs != [] {
      var init, x := xs[..|xs| - 1], xs[|xs| - 1];
      assert xs == init + [x];
      GroupByItems(init, key);
      var g0 := GroupBy(init, key);
      var i := IndexOfKey(g0, key(x));
      var g := GroupBy(xs, key);
      if i == |g0| {
        GroupByKeys(init, key);
        assert key(x) !in Keys(g0);
        assert Members(init, key, key(x)) == [];
      }
      forall j | 0 <= j < |g| ensures g[j].items == Members(xs, key, g[j].key) {
        MembersSnoc(init, x, key, g[j].key);
        if j < |g0| && j != i {
          assert g[j] == g0[j] && g0[j].key != key(x);
        }
      }
    }
  }

  /** A key has a group exactly when some element has that key. */
  lemma {:induction false} GroupByKeys<T, K(!new)>(xs: seq<T>, key: T -> K)
    ensures forall k :: k in Keys(GroupBy(xs, key)) <==> Members(xs, key, k) != []
  {
    if xs != [] {
      var init, x := xs[..|xs| - 1], xs[|xs| - 1];
      assert xs == init + [x];
      GroupByKeys(init, key);
      var g0 := GroupBy(init, key);
      var i := IndexOfKey(g0, key(x));
      var g := GroupBy(xs, key);
      if i < |g0| {
        assert Keys(g) == Keys(g0);
      } else {
        assert Keys(g) == Keys(g0) + [key(x)];
      }
      forall k ensures k in Keys(g) <==> Members(xs, key, k) != [] {
        MembersSnoc(init, x, key, k);
      }
    }
  }

  /**
   * Each group holds exactly the elements with its key, in input order, and a
   * key has a group exactly when some element has that key.
   */
  lemma GroupByMembers<T, K(!new)>(xs: seq<T>, key: T -> K)
    ensures forall i :: 0 <= i < |GroupBy(xs, key)| ==>
              GroupBy(xs, key)[i].items == Members(xs, key, GroupBy(xs, key)[i].key)
    ensures forall k :: k in Keys(GroupBy(xs, key)) <==> Members(xs, key, k) != []
  {
    GroupByItems(xs, key);
    GroupByKeys(xs, key);
  }

  /** The index of the first element of `xs` whose key is `k`, or `|xs|` when there is none. */
  function FirstAt<T, K(==)>(xs: seq<T>, key: T -> K, k: K): (i: nat)
    ensures i <= |xs|
    ensures i < |xs| ==> key(xs[i]) == k
    ensures forall j :: 0 <= j < i ==> key(xs[j]) != k
  {
    if xs == [] then 0
    else if key(xs[0]) == k then 0
    else 1 + FirstAt(xs[1..], key, k)
  }

  /** Appending an element does not move the first occurrence of a key already present. */
  lemma FirstAtSnoc<T, K>(init: seq<T>, x: T, key: T -> K, k: K)
    ensures FirstAt(init, key, k) < |init| ==> FirstAt(init + [x], key, k) == FirstAt(init, key, k)
    ensures FirstAt(init, key, k) == |init| && key(x) == k ==> FirstAt(init + [x], key, k) == |init|
  {
    var xs, f := init + [x], FirstAt(init, key, k);
    assert forall j :: 0 <= j < |init| ==> xs[j] == init[j];
    if f < |init| {
      assert key(xs[f]) == k;
    } else if key(x) == k {
      assert key(xs[|init|]) == k;
    }
  }

  /** The first member of a key is the element at that key's first occurrence. */
  lemma {:induction false} MembersHead<T, K(!new)>(xs: seq<T>, key: T -> K, k: K)
    ensures Members(xs, key, k) == [] <==> FirstAt(xs, key, k) == |xs|
    ensures Members(xs, key, k) != [] ==> Members(xs, key, k)[0] == xs[FirstAt(xs, key, k)]
  {
    if xs != [] {
      var init, x := xs[..|xs| - 1], xs[|xs| - 1];
      assert xs == init + [x];
      MembersHead(init, key, k);
      MembersSnoc(init, x, key, k);
      FirstAtSnoc(init, x, key, k);
      var f := FirstAt(xs, key, k);
      if f < |xs| {
        assert xs[f] in xs;
      }
    }
  }

  /**
   * The groups come in the order in which their keys first occur, and each
   * group starts with the first element that has its key.
   */
  lemma {:induction false} GroupByFirstOrder<T, K(!new)>(xs: seq<T>, key: T -> K)
    ensures forall i :: 0 <= i < |GroupBy(xs, key)| ==>
              FirstAt(xs, key, GroupBy(xs, key)[i].key) < |xs| &&
              GroupBy(xs, key)[i].items[0] == xs[FirstAt(xs, key, GroupBy(xs, key)[i].key)]
    ensures forall i, j :: 0 <= i < j < |GroupBy(xs, key)| ==>
              FirstAt(xs, key, GroupBy(xs, key)[i].key) < FirstAt(xs, key, GroupBy(xs, key)[j].key)
  {
    GroupByMembers(xs, key);
    GroupByOrder(xs, key);
    var g := GroupBy(xs, key);
    forall i | 0 <= i < |g|
      ensures FirstAt(xs, key, g[i].key) < |xs| && g[i].items[0] == xs[FirstAt(xs, key, g[i].key)]
    {
      MembersHead(xs, key, g[i].key);
    }
  }

  /** The groups `g` come in the order in which their keys first occur in `xs`. */
  predicate OrderedByFirst<T, K(==)>(xs: seq<T>, key: T -> K, g: seq<Group<K, T>>)
  {
    && (forall i :: 0 <= i < |g| ==> FirstAt(xs, key, g[i].key) < |xs|)
    && (forall i, j :: 0 <= i < j < |g| ==> FirstAt(xs, key, g[i].key) < FirstAt(xs, key, g[j].key))
  }

  /** Appending an element to the input keeps an ordered grouping ordered. */
  lemma OrderedByFirstSnoc<T, K>(init: seq<T>, x: T, key: T -> K, g: seq<Group<K, T>>)
    requires OrderedByFirst(init, key, g)
    ensures OrderedByFirst(init + [x], key, g)
    ensures forall i :: 0 <= i < |g| ==> FirstAt(init + [x], key, g[i].key) < |init|
  {
    forall i | 0 <= i < |g| ensures FirstAt(init + [x], key, g[i].key) == FirstAt(init, key, g[i].key) {
      FirstAtSnoc(init, x, key, g[i].key);
    }
  }

  /** Changing the items of a group, but not its key, keeps a grouping ordered. */
  lemma OrderedByFirstSameKeys<T, K>(xs: seq<T>, key: T -> K, g0: seq<Group<K, T>>, g: seq<Group<K, T>>)
    requires OrderedByFirst(xs, key, g0)
    requires |g| == |g0| && forall i :: 0 <= i < |g| ==> g[i].key == g0[i].key
    ensures OrderedByFirst(xs, key, g)
  {
  }

  /** A group whose key first occurs after all the others may go at the end. */
  lemma OrderedByFirstAppend<T, K>(xs: seq<T>, key: T -> K, g0: seq<Group<K, T>>, last: Group<K, T>)
    requires OrderedByFirst(xs, key, g0)
    requires FirstAt(xs, key, last.key) < |xs|
    requires forall i :: 0 <= i < |g0| ==> FirstAt(xs, key, g0[i].key) < FirstAt(xs, key, last.key)
    ensures OrderedByFirst(xs, key, g0 + [last])
  {
    var g := g0 + [last];
    forall i | 0 <= i < |g| ensures FirstAt(xs, key, g[i].key) < |xs| {
      if i < |g0| {
        assert g[i] == g0[i];
      } else {
        assert g[i] == last;
      }
    }
    forall i, j | 0 <= i < j < |g|
      ensures FirstAt(xs, key, g[i].key) < FirstAt(xs, key, g[j].key)
    {
      assert g[i] == g0[i];
      if j < |g0| {
        assert g[j] == g0[j];
      } else {
        assert g[j] == last;
      }
    }
  }

  /** The first occurrences of the keys of a grouping increase along it. */
  lemma {:induction false} GroupByOrder<T, K(!new)>(xs: seq<T>, key: T -> K)
    ensures OrderedByFirst(xs, key, GroupBy(xs, key))
  {
    if xs != [] {
      var init, x := xs[..|xs| - 1], xs[|xs| - 1];
      assert xs == init + [x];
      GroupByOrder(init, key);
      var g0 := GroupBy(init, key);
      OrderedByFirstSnoc(init, x, key, g0);
      var n := IndexOfKey(g0, key(x));
      if n == |g0| {
        GroupByKeys(init, key);
        assert key(x) !in Keys(g0);
        MembersHead(init, key, key(x));
        FirstAtSnoc(init, x, key, key(x));
        OrderedByFirstAppend(xs, key, g0, Group(key(x), [x]));
      } else {
        OrderedByFirstSameKeys(xs, key, g0, g0[n := Group(g0[n].key, g0[n].items + [x])]);
      }
    }
  }

  /** Strictly increasing indices are each at least their own position. */
  lemma IncreasingAtLeast(f: seq<nat>)
    requires forall i, j :: 0 <= i < j < |f| ==> f[i] < f[j]
    ensures forall i :: 0 <= i < |f| ==> f[i] >= i
  {
    for k := 0 to |f|
      invariant forall i :: 0 <= i < k ==> f[i] >= i
    {
      if k > 0 {
        assert f[k - 1] < f[k];
      }
    }
  }

  /**
   * A subsequence of `xs` picked at strictly increasing indices `f` that hit
   * every index is `xs` itself.
   */
  lemma IncreasingOnto<T>(r: seq<T>, xs: seq<T>, f: seq<nat>)
    requires |f| == |r|
    requires forall i :: 0 <= i < |r| ==> f[i] < |xs| && r[i] == xs[f[i]]
    requires forall i, j :: 0 <= i < j < |f| ==> f[i] < f[j]
    requires forall k :: 0 <= k < |xs| ==> k in f
    ensures r == xs
  {
    IncreasingAtLeast(f);
    for k := 0 to |xs|
      invariant k <= |f|
      invariant forall j :: 0 <= j < k ==> f[j] == j
    {
      assert k in f;
      var i :| 0 <= i < |f| && f[i] == k;
      assert f[k] <= k;
    }
  }

  /** The elements of all groups, group after group. */
  function Concat<K, T>(g: seq<Group<K, T>>): seq<T>
  {
    if g == [] then [] else g[0].items + Concat(g[1..])
  }

  lemma {:induction false} ConcatAppend<K, T>(g: seq<Group<K, T>>, last: Group<K, T>)
    ensures Concat(g + [last]) == Concat(g) + last.items
  {
    if g != [] {
      assert (g + [last])[1..] == g[1..] + [last];
      ConcatAppend(g[1..], last);
    }
  }

  lemma {:induction false} ConcatExtend<K, T>(g: seq<Group<K, T>>, i: nat, x: T)
    requires i < |g|
    ensures multiset(Concat(g[i := Group(g[i].key, g[i].items + [x])])) == multiset(Concat(g)) + multiset{x}
  {
    var h := g[i := Group(g[i].key, g[i].items + [x])];
    assert Concat(h) == h[0].items + Concat(h[1..]);
    assert Concat(g) == g[0].items + Concat(g[1..]);
    if i == 0 {
      assert h[1..] == g[1..];
    } else {
      assert h[1..] == g[1..][i - 1 := Group(g[i].key, g[i].items + [x])];
      ConcatExtend(g[1..], i - 1, x);
    }
  }

  /** Grouping loses and invents nothing: the groups together are a permutation of the input. */
  lemma {:induction false} GroupByIsPermutation<T, K>(xs: seq<T>, key: T -> K)
    ensures multiset(Concat(GroupBy(xs, key))) == multiset(xs)
  {
    if xs != [] {
      var init, x := xs[..|xs| - 1], xs[|xs| - 1];
      assert xs == init + [x];
      GroupByIsPermutation(init, key);
      var g0 := GroupBy(init, key);
      var i := IndexOfKey(g0, key(x));
      if i < |g0| {
        ConcatExtend(g0, i, x);
      } else {
        ConcatAppend(g0, Group(key(x), [x]));
      }
    }
  }

  /** Every element of a group has the group's key. */
  lemma GroupKeys<T, K(!new)>(xs: seq<T>, key: T -> K)
    ensures forall i, j :: 0 <= i < |GroupBy(xs, key)| && 0 <= j < |GroupBy(xs, key)[i].items| ==>
              key(GroupBy(xs, key)[i].items[j]) == GroupBy(xs, key)[i].key
  {
    GroupByMembers(xs, key);
    var g := GroupBy(xs, key);
    forall i, j | 0 <= i < |g| && 0 <= j < |g[i].items| ensures key(g[i].items[j]) == g[i].key {
      assert g[i].items[j] in Members(xs, key, g[i].key);
    }
  }

  /** Every element lies in the group of its own key, and that group is the only one holding it. */
  lemma GroupOf<T, K(!new)>(xs: seq<T>, key: T -> K, x: T) returns (i: nat)
    requires x in xs
    ensures i < |GroupBy(xs, key)|
    ensures GroupBy(xs, key)[i].key == key(x) && x in GroupBy(xs, key)[i].items
    ensures forall j :: 0 <= j < |GroupBy(xs, key)| && x in GroupBy(xs, key)[j].items ==> j == i
  {
    var g := GroupBy(xs, key);
    GroupByMembers(xs, key);
    assert x in Members(xs, key, key(x));
    assert key(x) in Keys(g);
    i := IndexOfKey(g, key(x));
  }

  /** A sequence without repeated elements has as many distinct elements as it is long. */
  lemma {:induction false} DistinctCardinality<T>(s: seq<T>)
    requires forall i, j :: 0 <= i < j < |s| ==> s[i] != s[j]
    ensures |set x | x in s| == |s|
  {
    if s != [] {
      var init := s[..|s| - 1];
      DistinctCardinality(init);
      assert (set x | x in s) == (set x | x in init) + {s[|s| - 1]};
      assert s[|s| - 1] !in (set x | x in init);
    }
  }

  /** The distinct keys of the elements of `xs`. */
  function KeySet<T(==), K>(xs: seq<T>, key: T -> K): set<K>
  {
    set y | y in xs :: key(y)
  }

  /** A grouping has one group per distinct key of the input. */
  lemma GroupCount<T, K(!new)>(xs: seq<T>, key: T -> K)
    ensures |GroupBy(xs, key)| == |KeySet(xs, key)|
  {
    var g := GroupBy(xs, key);
    var ks := Keys(g);
    DistinctCardinality(ks);
    GroupByKeys(xs, key);
    forall k ensures k in ks <==> k in KeySet(xs, key) {
      if k in ks {
        var m := Members(xs, key, k);
        assert m[0] in m;
      }
      if k in KeySet(xs, key) {
        var y :| y in xs && key(y) == k;
        assert y in Members(xs, key, k);
      }
    }
    assert (set k | k in ks) == KeySet(xs, key);
  }

  /** Kotlin's `filter` with a predicate. */
  function Filter<T(!new)>(xs: seq<T>, p: T -> bool): (r: seq<T>)
    ensures |r| <= |xs|
    ensures forall y :: y in r <==> y in xs && p(y)
  {
    if xs == [] then []
    else
      var init, last := xs[..|xs| - 1], xs[|xs| - 1];
      assert xs == init + [last];
      Filter(init, p) + (if p(last) then [last] else [])
  }

  lemma {:induction false} FilterConcat<T(!new)>(a: seq<T>, b: seq<T>, p: T -> bool)
    ensures Filter(a + b, p) == Filter(a, p) + Filter(b, p)
  {
    if b != [] {
      var init, last := b[..|b| - 1], b[|b| - 1];
      assert (a + b)[..|a + b| - 1] == a + init;
      assert (a + b)[|a + b| - 1] == last;
      FilterConcat(a, init, p);
    } else {
      assert a + b == a;
    }
  }

  /** Kotlin's `flatMap`: the lists `f` gives for the elements, one after the other. */
  function FlatMap<S, T>(xs: seq<S>, f: S -> seq<T>): seq<T>
  {
    if xs == [] then [] else FlatMap(xs[..|xs| - 1], f) + f(xs[|xs| - 1])
  }

  lemma FlatMapSnoc<S, T>(xs: seq<S>, x: S, f: S -> seq<T>)
    ensures FlatMap(xs + [x], f) == FlatMap(xs, f) + f(x)
  {
    assert (xs + [x])[..|xs|] == xs;
  }

  lemma {:induction false} FlatMapAppend<S, T>(a: seq<S>, b: seq<S>, f: S -> seq<T>)
    ensures FlatMap(a + b, f) == FlatMap(a, f) + FlatMap(b, f)
    decreases |b|
  {
    if b == [] {
      assert a + b == a;
    } else {
      var init, last := b[..|b| - 1], b[|b| - 1];
      assert b == init + [last];
      assert a + b == (a + init) + [last];
      FlatMapSnoc(a + init, last, f);
      FlatMapAppend(a, init, f);
    }
  }

  /** An element of a `flatMap` comes from the list of some element. */
  lemma {:induction false} FlatMapFrom<S, T>(xs: seq<S>, f: S -> seq<T>, y: T) returns (i: nat)
    requires y in FlatMap(xs, f)
    ensures i < |xs| && y in f(xs[i])
  {
    var init := xs[..|xs| - 1];
    if y in FlatMap(init, f) {
      i := FlatMapFrom(init, f, y);
    } else {
      i := |xs| - 1;
    }
  }

  /**
   * `MutableMap.putAll` of a list of pairs: the pairs are put one after the
   * other, so a later pair overrides an earlier one with the same key.
   */
  function PutAll<K, V>(m: map<K, V>, pairs: seq<(K, V)>): (r: map<K, V>)
    ensures r.Keys == m.Keys + (set p | p in pairs :: p.0)
    ensures forall k :: k in m && (forall p :: p in pairs ==> p.0 != k) ==> r[k] == m[k]
  {
    if pairs == [] then m
    else
      var init, last := pairs[..|pairs| - 1], pairs[|pairs| - 1];
      assert pairs == init + [last];
      PutAll(m, init)[last.0 := last.1]
  }

  /** After `putAll`, the last pair with a key decides its value. */
  lemma {:induction false} PutAllLastWins<K, V>(m: map<K, V>, pairs: seq<(K, V)>, i: nat)
    requires i < |pairs|
    requires forall j :: i < j < |pairs| ==> pairs[j].0 != pairs[i].0
    ensures pairs[i].0 in PutAll(m, pairs) && PutAll(m, pairs)[pairs[i].0] == pairs[i].1
  {
    var init, last := pairs[..|pairs| - 1], pairs[|pairs| - 1];
    assert pairs == init + [last];
    assert PutAll(m, pairs) == PutAll(m, init)[last.0 := last.1];
    if i < |init| {
      assert init[i] == pairs[i];
      assert last.0 != pairs[i].0;
      PutAllLastWins(m, init, i);
    }
  }

  /** Putting one more pair after the others. */
  lemma PutAllSnoc<K, V>(m: map<K, V>, pairs: seq<(K, V)>, p: (K, V))
    ensures PutAll(m, pairs + [p]) == PutAll(m, pairs)[p.0 := p.1]
  {
    assert (pairs + [p])[..|pairs|] == pairs;
  }

  // ---------------------------------------------------------------- sorting

  predicate SortedBy<T>(s: seq<T>, key: T -> int)
  {
    forall i, j :: 0 <= i < j < |s| ==> key(s[i]) <= key(s[j])
  }

  /** Puts `x` after the last element whose key is at most its own, so before the larger ones. */
  function InsertBy<T>(x: T, s: seq<T>, key: T -> int): (r: seq<T>)
    ensures multiset(r) == multiset(s) + multiset{x}
    decreases |s|
  {
    if s == [] then [x]
    else
      var init, last := s[..|s| - 1], s[|s| - 1];
      assert s == init + [last];
      if key(last) <= key(x) then s + [x] else InsertBy(x, init, key) + [last]
  }

  lemma {:induction false} InsertBySorted<T>(x: T, s: seq<T>, key: T -> int)
    requires SortedBy(s, key)
    ensures SortedBy(InsertBy(x, s, key), key)
    decreases |s|
  {
    if s != [] {
      var init, last := s[..|s| - 1], s[|s| - 1];
      if key(x) < key(last) {
        InsertBySorted(x, init, key);
        var r0 := InsertBy(x, init, key);
        forall i | 0 <= i < |r0| ensures key(r0[i]) <= key(last) {
          assert r0[i] in multiset(r0);
          assert r0[i] in multiset(init) + multiset{x};
          if r0[i] != x {
            var j :| 0 <= j < |init| && init[j] == r0[i];
          }
        }
      }
    }
  }

  /**
   * Kotlin's `sortedBy` for an `Int` key: a stable sort (an insertion sort
   * here; the JVM's is a merge sort, stable as well).
   */
  function SortBy<T>(xs: seq<T>, key: T -> int): (r: seq<T>)
    ensures multiset(r) == multiset(xs)
  {
    if xs == [] then []
    else
      var init, last := xs[..|xs| - 1], xs[|xs| - 1];
      assert xs == init + [last];
      InsertBy(last, SortBy(init, key), key)
  }

  lemma {:induction false} SortBySorted<T>(xs: seq<T>, key: T -> int)
    ensures SortedBy(SortBy(xs, key), key)
  {
    if xs != [] {
      var init, last := xs[..|xs| - 1], xs[|xs| - 1];
      SortBySorted(init, key);
      InsertBySorted(last, SortBy(init, key), key);
    }
  }

  /** The test "has key k". */
  function KeyIs<T>(key: T -> int, k: int): T -> bool
  {
    y => key(y) == k
  }

  lemma {:induction false} InsertByKeepsOrderOfKey<T(!new)>(x: T, s: seq<T>, key: T -> int, k: int)
    requires SortedBy(s, key)
    ensures Filter(InsertBy(x, s, key), KeyIs(key, k)) == Filter(s, KeyIs(key, k)) + Filter([x], KeyIs(key, k))
    decreases |s|
  {
    var p := KeyIs(key, k);
    if s == [] {
      assert InsertBy(x, s, key) == [x];
    } else {
      var init, last := s[..|s| - 1], s[|s| - 1];
      assert s == init + [last];
      if key(last) <= key(x) {
        assert InsertBy(x, s, key) == s + [x];
        FilterConcat(s, [x], p);
      } else {
        assert InsertBy(x, s, key) == InsertBy(x, init, key) + [last];
        assert SortedBy(init, key);
        InsertByKeepsOrderOfKey(x, init, key, k);
        assert !(p(x) && p(last));
        FilterSwap(Filter(init, p), Filter([x], p), InsertBy(x, init, key), x, last, p);
        FilterConcat(init, [last], p);
      }
    }
  }

  /** Two parts one of which is empty can trade places. */
  lemma SwapPastEmpty<T>(a: seq<T>, b: seq<T>, c: seq<T>)
    requires b == [] || c == []
    ensures a + b + c == a + c + b
  {
  }

  /** Appending `last` after a run whose filter is known; `x` and `last` cannot both pass. */
  lemma FilterSwap<T(!new)>(fi: seq<T>, fx: seq<T>, r0: seq<T>, x: T, last: T, p: T -> bool)
    requires Filter(r0, p) == fi + fx && fx == Filter([x], p)
    requires !(p(x) && p(last))
    ensures Filter(r0 + [last], p) == fi + Filter([last], p) + fx
  {
    FilterConcat(r0, [last], p);
    FilterSingle(last, p);
    FilterSingle(x, p);
    SwapPastEmpty(fi, fx, Filter([last], p));
  }

  lemma FilterSingle<T(!new)>(x: T, p: T -> bool)
    ensures Filter([x], p) == if p(x) then [x] else []
  {
    assert [x][..0] == [];
  }

  /** Stability: the elements with the same key keep their relative order. */
  lemma {:induction false} SortByKeepsOrderOfKey<T(!new)>(xs: seq<T>, key: T -> int, k: int)
    ensures Filter(SortBy(xs, key), KeyIs(key, k)) == Filter(xs, KeyIs(key, k))
  {
    if xs != [] {
      var init, last := xs[..|xs| - 1], xs[|xs| - 1];
      assert xs == init + [last];
      SortByKeepsOrderOfKey(init, key, k);
      SortBySorted(init, key);
      InsertByKeepsOrderOfKey(last, SortBy(init, key), key, k);
      FilterConcat(init, [last], KeyIs(key, k));
    }
  }
}
