/**
 * Reference definitions of the sums the ledger reports: a weighted sum over a
 * sequence, the per-record weights for the total, a category and a payment
 * mode, and a sum of map values over a list of keys. Amounts are exact reals,
 * so no sum here depends on the order it is accumulated in.
 */
module Sums {
  import opened Types
  import opened Seqs

  /** `w(s[0]) + ... + w(s[|s| - 1])`, accumulated left to right. */
  function SumOf<T>(s: seq<T>, w: T -> real): real
    decreases |s|
  {
    if s == [] then 0.0 else SumOf(s[..|s| - 1], w) + w(s[|s| - 1])
  }

  lemma {:induction false} SumOfConcat<T>(a: seq<T>, b: seq<T>, w: T -> real)
    ensures SumOf(a + b, w) == SumOf(a, w) + SumOf(b, w)
    decreases |b|
  {
    if b == [] {
      assert a + b == a;
    } else {
      var init := b[..|b| - 1];
      assert (a + b)[..|a + b| - 1] == a + init;
      assert (a + b)[|a + b| - 1] == b[|b| - 1];
      SumOfConcat(a, init, w);
    }
  }

  lemma SumOfSingleton<T>(x: T, w: T -> real)
    ensures SumOf([x], w) == w(x)
  {
    assert [x][..0] == [];
  }

  /** Taking `s[i]` out of `s` takes its weight out of the sum. */
  lemma SumOfRemove<T>(s: seq<T>, i: int, w: T -> real)
    requires 0 <= i < |s|
    ensures SumOf(s, w) == SumOf(s[..i] + s[i + 1..], w) + w(s[i])
  {
    var p, a, b := s[..i + 1], s[..i], s[i + 1..];
    assert s == p + b;
    assert p[..|p| - 1] == a && p[|p| - 1] == s[i];
    assert SumOf(p, w) == SumOf(a, w) + w(s[i]);
    SumOfConcat(p, b, w);
    SumOfConcat(a, b, w);
  }

  /** A sum depends only on the multiset of its terms. */
  lemma {:induction false} SumOfPermutation<T>(a: seq<T>, b: seq<T>, w: T -> real)
    requires multiset(a) == multiset(b)
    ensures SumOf(a, w) == SumOf(b, w)
    decreases |a|
  {
    if a == [] {
      assert |b| == |multiset(b)| == 0;
    } else {
      var init, x := a[..|a| - 1], a[|a| - 1];
      assert a[..|a| - 1] + a[|a|..] == init;
      MultisetRemove(a, |a| - 1);
      assert x in multiset(b);
      var i :| 0 <= i < |b| && b[i] == x;
      MultisetRemove(b, i);
      SumOfPermutation(init, b[..i] + b[i + 1..], w);
      SumOfRemove(b, i, w);
      assert SumOf(a, w) == SumOf(init, w) + w(x);
    }
  }

  /** A pointwise smaller weight gives a smaller sum. */
  lemma {:induction false} SumOfMonotone<T>(s: seq<T>, v: T -> real, w: T -> real)
    requires forall i | 0 <= i < |s| :: v(s[i]) <= w(s[i])
    ensures SumOf(s, v) <= SumOf(s, w)
    decreases |s|
  {
    if s != [] {
      SumOfMonotone(s[..|s| - 1], v, w);
    }
  }

  /** The weight of a record in the grand total. */
  function Amount(e: Expense): real {
    e.amount
  }

  /** The weight of a record in category `c`'s total: its amount if it is in `c`, else nothing. */
  function CategoryShare(c: Category): Expense -> real {
    (e: Expense) => if e.category == c then e.amount else 0.0
  }

  /** The weight of a record in payment mode `p`'s total. */
  function ModeShare(p: PaymentMode): Expense -> real {
    (e: Expense) => if e.paymentMode == p then e.amount else 0.0
  }

  /** The sum of all amounts. */
  function Total(es: seq<Expense>): real {
    SumOf(es, Amount)
  }

  /** The sum of the amounts of the records in category `c`. */
  function CategoryTotal(es: seq<Expense>, c: Category): real {
    SumOf(es, CategoryShare(c))
  }

  /** The sum of the amounts of the records paid by `p`. */
  function ModeTotal(es: seq<Expense>, p: PaymentMode): real {
    SumOf(es, ModeShare(p))
  }

  /** No key occurs twice in `ks`. */
  ghost predicate Distinct<K>(ks: seq<K>) {
    forall i, j | 0 <= i < j < |ks| :: ks[i] != ks[j]
  }

  /** `m[ks[0]] + ... + m[ks[|ks| - 1]]`. */
  function SumValues<K>(ks: seq<K>, m: map<K, real>): real
    requires forall k | k in ks :: k in m
    decreases |ks|
  {
    if ks == [] then 0.0 else m[ks[0]] + SumValues(ks[1..], m)
  }

  /** Summing zeros gives zero. */
  lemma {:induction false} SumValuesZero<K>(ks: seq<K>, m: map<K, real>)
    requires forall k | k in ks :: k in m && m[k] == 0.0
    ensures SumValues(ks, m) == 0.0
    decreases |ks|
  {
    if ks != [] {
      assert forall x | x in ks[1..] :: x in ks;
      SumValuesZero(ks[1..], m);
    }
  }

  /** Raising one listed key's value by `a` raises the sum over a duplicate-free key list by `a`. */
  lemma {:induction false} SumValuesBump<K>(ks: seq<K>, m: map<K, real>, k: K, a: real)
    requires forall x | x in ks :: x in m
    requires k in m && Distinct(ks)
    ensures SumValues(ks, m[k := m[k] + a]) == SumValues(ks, m) + (if k in ks then a else 0.0)
    decreases |ks|
  {
    if ks != [] {
      assert Distinct(ks[1..]) by {
        forall i, j | 0 <= i < j < |ks| - 1 ensures ks[1..][i] != ks[1..][j] {
          assert ks[1..][i] == ks[i + 1] && ks[1..][j] == ks[j + 1];
        }
      }
      assert forall x | x in ks[1..] :: x in ks;
      SumValuesBump(ks[1..], m, k, a);
      if ks[0] == k {
        assert k !in ks[1..] by {
          forall j | 0 <= j < |ks| - 1 ensures ks[1..][j] != k {
            assert ks[1..][j] == ks[j + 1];
          }
        }
      } else {
        assert k in ks <==> k in ks[1..];
      }
    }
  }
}
