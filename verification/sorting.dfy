/**
 * A stable descending sort, the behaviour of `Array.prototype.sort` (stable
 * since ECMAScript 2019) called with a comparator `(a, b) => key(b) - key(a)`.
 * Stability is stated through `WithKey`: for every key value, the elements
 * carrying that key appear in the output in the same order as in the input.
 */
module Sorting {
  import opened Seqs


  /** `s` is non-increasing under `key`. */
  ghost predicate NonIncreasing<T>(s: seq<T>, key: T -> real) {
    forall i, j | 0 <= i < j < |s| :: key(s[i]) >= key(s[j])
  }

  /** `s` is strictly increasing under `rank`. */
  ghost predicate StrictlyIncreasing<T>(s: seq<T>, rank: T -> int) {
    forall i, j | 0 <= i < j < |s| :: rank(s[i]) < rank(s[j])
  }

  /** The elements of `s` whose key is `k`, in their order in `s`. */
  function WithKey<T>(s: seq<T>, key: T -> real, k: real): (r: seq<T>)
    ensures |r| <= |s|
    decreases |s|
  {
    if s == [] then []
    else (if key(s[0]) == k then [s[0]] else []) + WithKey(s[1..], key, k)
  }

  /** `WithKey` on a sequence with a known first element. */
  lemma WithKeyCons<T>(x: T, s: seq<T>, key: T -> real, k: real)
    ensures WithKey([x] + s, key, k) == (if key(x) == k then [x] else []) + WithKey(s, key, k)
  {
    assert ([x] + s)[0] == x;
    assert ([x] + s)[1..] == s;
  }

  /** What `WithKey` keeps comes from `s` and carries the key `k`. */
  lemma {:induction false} WithKeyMember<T>(s: seq<T>, key: T -> real, k: real, j: int)
    requires 0 <= j < |WithKey(s, key, k)|
    ensures WithKey(s, key, k)[j] in s && key(WithKey(s, key, k)[j]) == k
    decreases |s|
  {
    var w := WithKey(s, key, k);
    if key(s[0]) == k {
      if j > 0 {
        WithKeyMember(s[1..], key, k, j - 1);
      }
    } else {
      WithKeyMember(s[1..], key, k, j);
    }
  }

  /** Every element of `s` with key `k` is kept by `WithKey`. */
  lemma {:induction false} WithKeyKeeps<T>(s: seq<T>, key: T -> real, i: int)
    requires 0 <= i < |s|
    ensures s[i] in WithKey(s, key, key(s[i]))
    decreases |s|
  {
    if i > 0 {
      WithKeyKeeps(s[1..], key, i - 1);
    }
  }

  lemma {:induction false} WithKeyConcat<T>(a: seq<T>, b: seq<T>, key: T -> real, k: real)
    ensures WithKey(a + b, key, k) == WithKey(a, key, k) + WithKey(b, key, k)
    decreases |a|
  {
    if a == [] {
      assert a + b == b;
    } else {
      var head := if key(a[0]) == k then [a[0]] else [];
      assert (a + b)[0] == a[0];
      assert (a + b)[1..] == a[1..] + b;
      WithKeyConcat(a[1..], b, key, k);
      assert WithKey(a + b, key, k) == head + WithKey(a[1..] + b, key, k);
      ConcatAssoc(head, WithKey(a[1..], key, k), WithKey(b, key, k));
    }
  }

  lemma {:induction false} WithKeyAllBelow<T>(s: seq<T>, key: T -> real, k: real)
    requires forall i | 0 <= i < |s| :: key(s[i]) < k
    ensures WithKey(s, key, k) == []
    decreases |s|
  {
    if s != [] {
      WithKeyAllBelow(s[1..], key, k);
    }
  }

  /**
   * Places `x` into `s` after the leading run of elements whose key is at
   * least `key(x)`; on a non-increasing `s` that is after every such element,
   * so `x` follows the equal-key elements already there.
   */
  function Insert<T>(x: T, s: seq<T>, key: T -> real): seq<T>
    decreases |s|
  {
    if s == [] then [x]
    else if key(s[0]) >= key(x) then [s[0]] + Insert(x, s[1..], key)
    else [x] + s
  }

  /** `Insert` adds exactly `x`. */
  lemma {:induction false} InsertPermutes<T>(x: T, s: seq<T>, key: T -> real)
    ensures multiset(Insert(x, s, key)) == multiset(s) + multiset{x}
    decreases |s|
  {
    if s != [] && key(s[0]) >= key(x) {
      InsertPermutes(x, s[1..], key);
      assert s == [s[0]] + s[1..];
    }
  }

  /** Inserting into a non-increasing sequence keeps it non-increasing. */
  lemma {:induction false} InsertNonIncreasing<T>(x: T, s: seq<T>, key: T -> real)
    requires NonIncreasing(s, key)
    ensures NonIncreasing(Insert(x, s, key), key)
    decreases |s|
  {
    if s == [] {
    } else if key(s[0]) >= key(x) {
      var rest := Insert(x, s[1..], key);
      NonIncreasingTail(s, key);
      InsertNonIncreasing(x, s[1..], key);
      InsertBounded(x, s[1..], key, key(s[0]));
      assert Insert(x, s, key) == [s[0]] + rest;
      ConsNonIncreasing(s[0], rest, key);
    } else {
      assert Insert(x, s, key) == [x] + s;
      ConsNonIncreasing(x, s, key);
    }
  }

  /** Everything `Insert` returns is bounded by a bound of `x` and of all of `s`. */
  lemma InsertBounded<T>(x: T, s: seq<T>, key: T -> real, b: real)
    requires key(x) <= b && forall i | 0 <= i < |s| :: key(s[i]) <= b
    ensures forall j | 0 <= j < |Insert(x, s, key)| :: key(Insert(x, s, key)[j]) <= b
  {
    var r := Insert(x, s, key);
    InsertPermutes(x, s, key);
    forall j | 0 <= j < |r| ensures key(r[j]) <= b {
      assert r[j] in multiset(r);
      assert r[j] in multiset(s) || r[j] == x;
    }
  }

  /** Putting an element bounding the rest in front of a non-increasing sequence keeps it non-increasing. */
  lemma ConsNonIncreasing<T>(x: T, s: seq<T>, key: T -> real)
    requires NonIncreasing(s, key) && forall i | 0 <= i < |s| :: key(s[i]) <= key(x)
    ensures NonIncreasing([x] + s, key)
  {
    forall i, j | 0 <= i < j < |[x] + s| ensures key(([x] + s)[i]) >= key(([x] + s)[j]) {
      assert ([x] + s)[j] == s[j - 1];
      if i > 0 {
        assert ([x] + s)[i] == s[i - 1];
      }
    }
  }

  lemma NonIncreasingTail<T>(s: seq<T>, key: T -> real)
    requires s != [] && NonIncreasing(s, key)
    ensures NonIncreasing(s[1..], key)
  {
    forall i, j | 0 <= i < j < |s| - 1 ensures key(s[1..][i]) >= key(s[1..][j]) {
      assert s[1..][i] == s[i + 1] && s[1..][j] == s[j + 1];
    }
  }

  /** Inserting `x` adds it at the end of the elements that share its key. */
  lemma {:induction false} InsertWithKey<T>(x: T, s: seq<T>, key: T -> real, k: real)
    requires NonIncreasing(s, key)
    ensures WithKey(Insert(x, s, key), key, k)
         == WithKey(s, key, k) + (if key(x) == k then [x] else [])
    decreases |s|
  {
    if s == [] {
      WithKeyCons(x, [], key, k);
      assert [x] + [] == [x];
    } else if key(s[0]) >= key(x) {
      NonIncreasingTail(s, key);
      InsertWithKey(x, s[1..], key, k);
      InsertWithKeyBehind(x, s, key, k);
    } else {
      InsertWithKeyInFront(x, s, key, k);
    }
  }

  /** When `x` goes behind the head, the head's contribution stays in front. */
  lemma InsertWithKeyBehind<T>(x: T, s: seq<T>, key: T -> real, k: real)
    requires s != [] && key(s[0]) >= key(x)
    requires WithKey(Insert(x, s[1..], key), key, k)
          == WithKey(s[1..], key, k) + (if key(x) == k then [x] else [])
    ensures WithKey(Insert(x, s, key), key, k)
         == WithKey(s, key, k) + (if key(x) == k then [x] else [])
  {
    var tailX := if key(x) == k then [x] else [];
    var head := if key(s[0]) == k then [s[0]] else [];
    var rest := Insert(x, s[1..], key);
    assert Insert(x, s, key) == [s[0]] + rest;
    assert WithKey(s, key, k) == head + WithKey(s[1..], key, k);
    WithKeyCons(s[0], rest, key, k);
    assert WithKey([s[0]] + rest, key, k) == head + (WithKey(s[1..], key, k) + tailX);
    ConcatAssoc(head, WithKey(s[1..], key, k), tailX);
  }

  /** When `x` goes in front, every element of `s` has a smaller key, so none shares its key. */
  lemma InsertWithKeyInFront<T>(x: T, s: seq<T>, key: T -> real, k: real)
    requires NonIncreasing(s, key) && s != [] && key(s[0]) < key(x)
    ensures WithKey(Insert(x, s, key), key, k)
         == WithKey(s, key, k) + (if key(x) == k then [x] else [])
  {
    assert Insert(x, s, key) == [x] + s;
    WithKeyCons(x, s, key, k);
    if key(x) == k {
      WithKeyAllBelow(s, key, k);
      assert WithKey(s, key, k) + [x] == [x] + WithKey(s, key, k);
    } else {
      assert [] + WithKey(s, key, k) == WithKey(s, key, k) + [];
    }
  }

  /** The stable descending sort: each element inserted, in input order, into the sorted prefix. */
  function SortDesc<T>(s: seq<T>, key: T -> real): (r: seq<T>)
    ensures |r| == |s| && multiset(r) == multiset(s)
    ensures NonIncreasing(r, key)
    decreases |s|
  {
    if s == [] then []
    else
      assert s == s[..|s| - 1] + [s[|s| - 1]];
      var sorted := SortDesc(s[..|s| - 1], key);
      InsertNonIncreasing(s[|s| - 1], sorted, key);
      InsertPermutes(s[|s| - 1], sorted, key);
      var r := Insert(s[|s| - 1], sorted, key);
      assert |r| == |multiset(r)| == |multiset(sorted)| + 1;
      r
  }

  /** In a non-increasing sequence, everything before position `n` has a key at least that of everything after. */
  lemma PrefixDominates<T>(s: seq<T>, key: T -> real, n: int)
    requires NonIncreasing(s, key) && 0 <= n <= |s|
    ensures forall x, y | x in s[..n] && y in s[n..] :: key(x) >= key(y)
  {
    forall x, y | x in s[..n] && y in s[n..] ensures key(x) >= key(y) {
      var i :| 0 <= i < n && s[..n][i] == x;
      var j :| 0 <= j < |s| - n && s[n..][j] == y;
      assert s[i] == x && s[n + j] == y;
    }
  }

  /** Stability: for every key, its elements keep their input order. */
  lemma {:induction false} SortDescStable<T>(s: seq<T>, key: T -> real, k: real)
    ensures WithKey(SortDesc(s, key), key, k) == WithKey(s, key, k)
    decreases |s|
  {
    if s != [] {
      SortDescUnfold(s, key);
      SortDescStable(s[..|s| - 1], key, k);
      InsertStable(s, SortDesc(s[..|s| - 1], key), key, k);
    }
  }

  /** Inserting the last element into a stable arrangement of the others keeps it stable. */
  lemma InsertStable<T>(s: seq<T>, sorted: seq<T>, key: T -> real, k: real)
    requires s != [] && NonIncreasing(sorted, key)
    requires WithKey(sorted, key, k) == WithKey(s[..|s| - 1], key, k)
    ensures WithKey(Insert(s[|s| - 1], sorted, key), key, k) == WithKey(s, key, k)
  {
    var init, last := s[..|s| - 1], s[|s| - 1];
    assert s == init + [last];
    InsertWithKey(last, sorted, key, k);
    WithKeySnoc(init, last, key, k);
  }

  /** Appending one element adds it behind the others with its key, if it has the key. */
  lemma WithKeySnoc<T>(init: seq<T>, last: T, key: T -> real, k: real)
    ensures WithKey(init + [last], key, k) == WithKey(init, key, k) + (if key(last) == k then [last] else [])
  {
    WithKeySingleton(last, key, k);
    WithKeyConcat(init, [last], key, k);
  }

  lemma SortDescUnfold<T>(s: seq<T>, key: T -> real)
    requires s != []
    ensures SortDesc(s, key) == Insert(s[|s| - 1], SortDesc(s[..|s| - 1], key), key)
  {
  }

  lemma WithKeySingleton<T>(x: T, key: T -> real, k: real)
    ensures WithKey([x], key, k) == (if key(x) == k then [x] else [])
  {
    assert [x][1..] == [];
  }

  /** A non-empty sequence keeps its first element under its own key. */
  lemma WithKeyOfHead<T>(s: seq<T>, key: T -> real)
    requires s != []
    ensures WithKey(s, key, key(s[0])) == [s[0]] + WithKey(s[1..], key, key(s[0]))
  {
  }

  /** Two non-increasing sequences that agree on the order within every key are equal. */
  lemma {:induction false} SameKeyOrderEqual<T>(t: seq<T>, u: seq<T>, key: T -> real)
    requires NonIncreasing(t, key) && NonIncreasing(u, key)
    requires forall k :: WithKey(t, key, k) == WithKey(u, key, k)
    ensures t == u
    decreases |t| + |u|
  {
    if t == [] {
      if u != [] {
        WithKeyOfHead(u, key);
      }
    } else if u == [] {
      WithKeyOfHead(t, key);
    } else {
      var kt, ku := key(t[0]), key(u[0]);
      WithKeyOfHead(t, key);
      WithKeyOfHead(u, key);
      WithKeyMember(u, key, kt, 0);
      WithKeyMember(t, key, ku, 0);
      assert kt == ku;
      assert t[0] == u[0] by {
        assert WithKey(t, key, kt)[0] == t[0];
        assert WithKey(u, key, kt)[0] == u[0];
      }
      forall k ensures WithKey(t[1..], key, k) == WithKey(u[1..], key, k) {
        var head := if kt == k then [t[0]] else [];
        assert WithKey(t, key, k) == head + WithKey(t[1..], key, k);
        assert WithKey(u, key, k) == head + WithKey(u[1..], key, k);
        assert WithKey(t[1..], key, k) == WithKey(t, key, k)[|head|..];
        assert WithKey(u[1..], key, k) == WithKey(u, key, k)[|head|..];
      }
      NonIncreasingTail(t, key);
      NonIncreasingTail(u, key);
      SameKeyOrderEqual(t[1..], u[1..], key);
      assert t == [t[0]] + t[1..];
      assert u == [u[0]] + u[1..];
    }
  }

  /**
   * Any stable descending sort gives the same answer as `SortDesc`: an
   * arrangement of `s` that is non-increasing and keeps every key's input
   * order is exactly `SortDesc(s, key)`.
   */
  lemma StableSortUnique<T>(s: seq<T>, t: seq<T>, key: T -> real)
    requires NonIncreasing(t, key)
    requires forall k :: WithKey(t, key, k) == WithKey(s, key, k)
    ensures t == SortDesc(s, key)
  {
    forall k ensures WithKey(t, key, k) == WithKey(SortDesc(s, key), key, k) {
      SortDescStable(s, key, k);
    }
    SameKeyOrderEqual(t, SortDesc(s, key), key);
  }

  /** Selecting one key from a strictly ranked sequence keeps it strictly ranked. */
  lemma {:induction false} WithKeyKeepsRanking<T>(s: seq<T>, key: T -> real, k: real, rank: T -> int)
    requires StrictlyIncreasing(s, rank)
    ensures StrictlyIncreasing(WithKey(s, key, k), rank)
    decreases |s|
  {
    if s != [] {
      WithKeyKeepsRanking(s[1..], key, k, rank);
      var rest := WithKey(s[1..], key, k);
      forall j | 0 <= j < |rest| ensures rank(s[0]) < rank(rest[j]) {
        WithKeyMember(s[1..], key, k, j);
        var i :| 0 <= i < |s[1..]| && s[1..][i] == rest[j];
        assert s[i + 1] == rest[j];
      }
    }
  }

  lemma StrictlyIncreasingSuffix<T>(s: seq<T>, rank: T -> int)
    requires s != [] && StrictlyIncreasing(s, rank)
    ensures StrictlyIncreasing(s[1..], rank)
  {
    forall i, j | 0 <= i < j < |s| - 1 ensures rank(s[1..][i]) < rank(s[1..][j]) {
      assert s[1..][i] == s[i + 1] && s[1..][j] == s[j + 1];
    }
  }

  /**
   * Sorting a list that is strictly increasing under `rank` leaves the
   * elements of equal key in rank order.
   */
  lemma SortDescTiesRanked<T>(s: seq<T>, key: T -> real, rank: T -> int)
    requires StrictlyIncreasing(s, rank)
    ensures forall i, j | 0 <= i < j < |SortDesc(s, key)| && key(SortDesc(s, key)[i]) == key(SortDesc(s, key)[j]) ::
              rank(SortDesc(s, key)[i]) < rank(SortDesc(s, key)[j])
  {
    var r := SortDesc(s, key);
    forall k ensures StrictlyIncreasing(WithKey(r, key, k), rank) {
      SortDescStable(s, key, k);
      WithKeyKeepsRanking(s, key, k, rank);
    }
    TiesInRankOrder(r, key, rank);
  }

  /**
   * If every key's elements are strictly ranked, then any two elements of `s`
   * with equal keys are in rank order.
   */
  lemma {:induction false} TiesInRankOrder<T>(s: seq<T>, key: T -> real, rank: T -> int)
    requires forall k :: StrictlyIncreasing(WithKey(s, key, k), rank)
    ensures forall i, j | 0 <= i < j < |s| && key(s[i]) == key(s[j]) :: rank(s[i]) < rank(s[j])
    decreases |s|
  {
    if s != [] {
      var tail := s[1..];
      TailRankedPerKey(s, key, rank);
      TiesInRankOrder(tail, key, rank);
      forall i, j | 0 <= i < j < |s| && key(s[i]) == key(s[j]) ensures rank(s[i]) < rank(s[j]) {
        if i > 0 {
          assert tail[i - 1] == s[i] && tail[j - 1] == s[j];
        } else {
          HeadRanksFirst(s, key, rank, j);
        }
      }
    }
  }

  /** Dropping the first element keeps every key's elements strictly ranked. */
  lemma TailRankedPerKey<T>(s: seq<T>, key: T -> real, rank: T -> int)
    requires s != []
    requires forall k :: StrictlyIncreasing(WithKey(s, key, k), rank)
    ensures forall k :: StrictlyIncreasing(WithKey(s[1..], key, k), rank)
  {
    forall k ensures StrictlyIncreasing(WithKey(s[1..], key, k), rank) {
      var w := WithKey(s, key, k);
      if key(s[0]) == k {
        assert WithKey(s[1..], key, k) == w[1..];
        StrictlyIncreasingSuffix(w, rank);
      } else {
        assert WithKey(s[1..], key, k) == w;
      }
    }
  }

  /** The first element ranks before any later element with its key. */
  lemma HeadRanksFirst<T>(s: seq<T>, key: T -> real, rank: T -> int, j: int)
    requires forall k :: StrictlyIncreasing(WithKey(s, key, k), rank)
    requires 0 < j < |s| && key(s[0]) == key(s[j])
    ensures rank(s[0]) < rank(s[j])
  {
    var k0 := key(s[0]);
    var tail := s[1..];
    var w, wt := WithKey(s, key, k0), WithKey(tail, key, k0);
    WithKeyOfHead(s, key);
    assert w == [s[0]] + wt;
    assert tail[j - 1] == s[j];
    WithKeyKeeps(tail, key, j - 1);
    assert s[j] in wt;
    var b :| 0 <= b < |wt| && wt[b] == s[j];
    assert |w| == |wt| + 1 && w[0] == s[0] && w[b + 1] == s[j];
    assert StrictlyIncreasing(w, rank);
    RankedAt(w, rank, 0, b + 1);
  }

  lemma RankedAt<T>(w: seq<T>, rank: T -> int, i: int, j: int)
    requires StrictlyIncreasing(w, rank)
    requires 0 <= i < j < |w|
    ensures rank(w[i]) < rank(w[j])
  {
  }
}
