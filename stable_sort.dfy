/** Stable sorting by a descending integer key.

    `Array.prototype.sort` with the comparator `(a, b) => key(b) - key(a)` puts
    entries with a larger key first, and since ECMAScript 2019 it keeps entries
    whose keys tie in their original relative order. `SortDesc` is that
    ordering written as a function; `SortDescInPlace` sorts an array in place
    and is proved to produce it. The lemmas show that `SortDesc` is sorted, is a
    permutation, is stable, and is the only sequence with these properties. */
module StableSort {

  /** The elements of `s` whose key is `k`, in their order in `s`. */
  function WithKey<T>(s: seq<T>, key: T -> int, k: int): (r: seq<T>)
    ensures |r| <= |s|
  {
    if s == [] then []
    else WithKey(s[..|s| - 1], key, k) + (if key(s[|s| - 1]) == k then [s[|s| - 1]] else [])
  }

  /** Larger keys come first. */
  predicate SortedDesc<T>(s: seq<T>, key: T -> int)
  {
    forall i, j :: 0 <= i < j < |s| ==> key(s[i]) >= key(s[j])
  }

  /** Inserts `x` into `t` after every element whose key is at least `x`'s. */
  function InsertDesc<T>(t: seq<T>, x: T, key: T -> int): (r: seq<T>)
    ensures multiset(r) == multiset(t) + multiset{x}
    ensures |r| == |t| + 1
  {
    if t == [] || key(t[|t| - 1]) >= key(x) then t + [x]
    else
      assert t == t[..|t| - 1] + [t[|t| - 1]];
      InsertDesc(t[..|t| - 1], x, key) + [t[|t| - 1]]
  }

  /** `s` sorted by descending key; ties keep their order in `s`. */
  function SortDesc<T>(s: seq<T>, key: T -> int): (r: seq<T>)
    ensures multiset(r) == multiset(s)
    ensures |r| == |s|
  {
    if s == [] then []
    else
      assert s == s[..|s| - 1] + [s[|s| - 1]];
      InsertDesc(SortDesc(s[..|s| - 1], key), s[|s| - 1], key)
  }

  lemma {:induction false} WithKeyAppend<T>(a: seq<T>, b: seq<T>, key: T -> int, k: int)
    ensures WithKey(a + b, key, k) == WithKey(a, key, k) + WithKey(b, key, k)
    decreases |b|
  {
    if b == [] {
      assert a + b == a;
    } else {
      var b' := b[..|b| - 1];
      assert (a + b)[..|a + b| - 1] == a + b';
      WithKeyAppend(a, b', key, k);
    }
  }

  lemma {:induction false} WithKeyMembers<T>(s: seq<T>, key: T -> int, k: int, x: T)
    ensures x in WithKey(s, key, k) <==> x in s && key(x) == k
  {
    if s != [] {
      WithKeyMembers(s[..|s| - 1], key, k, x);
      assert s == s[..|s| - 1] + [s[|s| - 1]];
    }
  }

  /** Two elements with key `k` keep their relative order in `WithKey`. */
  lemma {:induction false} WithKeyKeepsOrder<T>(s: seq<T>, key: T -> int, k: int, i: nat, j: nat)
      returns (a: nat, b: nat)
    requires i < j < |s| && key(s[i]) == k && key(s[j]) == k
    ensures a < b < |WithKey(s, key, k)|
    ensures WithKey(s, key, k)[a] == s[i] && WithKey(s, key, k)[b] == s[j]
  {
    var s' := s[..|s| - 1];
    var w' := WithKey(s', key, k);
    if j < |s| - 1 {
      a, b := WithKeyKeepsOrder(s', key, k, i, j);
    } else {
      WithKeyMembers(s', key, k, s[i]);
      var p :| 0 <= p < |w'| && w'[p] == s[i];
      a, b := p, |w'|;
    }
  }

  lemma WithKeySnoc<T>(s: seq<T>, x: T, key: T -> int, k: int)
    ensures WithKey(s + [x], key, k) == WithKey(s, key, k) + (if key(x) == k then [x] else [])
  {
    assert (s + [x])[..|s|] == s;
  }

  /** When every element has key `k`, selecting key `k` keeps the whole sequence. */
  lemma {:induction false} WithKeyOfUniform<T>(s: seq<T>, key: T -> int, k: int)
    requires forall i :: 0 <= i < |s| ==> key(s[i]) == k
    ensures WithKey(s, key, k) == s
  {
    if s != [] {
      WithKeyOfUniform(s[..|s| - 1], key, k);
    }
  }

  lemma {:induction false} InsertDescSorted<T>(t: seq<T>, x: T, key: T -> int)
    requires SortedDesc(t, key)
    ensures SortedDesc(InsertDesc(t, x, key), key)
  {
    if t == [] || key(t[|t| - 1]) >= key(x) {
    } else {
      var t', y := t[..|t| - 1], t[|t| - 1];
      InsertDescSorted(t', x, key);
      var u := InsertDesc(t', x, key);
      forall z | z in u
        ensures key(z) >= key(y)
      {
        assert z in multiset(u);
        if z != x {
          assert z in multiset(t');
          var m :| 0 <= m < |t'| && t'[m] == z;
          assert t[m] == z;
        }
      }
      forall i, j | 0 <= i < j < |u| + 1
        ensures key((u + [y])[i]) >= key((u + [y])[j])
      {
        if j == |u| {
          assert u[i] in u;
        }
      }
    }
  }

  lemma {:induction false} InsertDescWithKey<T>(t: seq<T>, x: T, key: T -> int, k: int)
    ensures WithKey(InsertDesc(t, x, key), key, k)
         == WithKey(t, key, k) + (if key(x) == k then [x] else [])
  {
    if t == [] || key(t[|t| - 1]) >= key(x) {
      WithKeyAppend(t, [x], key, k);
      assert [x][..0] == [];
    } else {
      var t', y := t[..|t| - 1], t[|t| - 1];
      InsertDescWithKey(t', x, key, k);
      var u := InsertDesc(t', x, key);
      WithKeyAppend(u, [y], key, k);
      assert [y][..0] == [];
      assert WithKey([y], key, k) == if key(y) == k then [y] else [];
    }
  }

  /** The result of `SortDesc` is ordered by descending key. */
  lemma {:induction false} SortDescSorted<T>(s: seq<T>, key: T -> int)
    ensures SortedDesc(SortDesc(s, key), key)
  {
    if s != [] {
      SortDescSorted(s[..|s| - 1], key);
      InsertDescSorted(SortDesc(s[..|s| - 1], key), s[|s| - 1], key);
    }
  }

  /** Stability: for every key, the elements with that key appear in the
      result in the same order as in the input. */
  lemma {:induction false} SortDescStable<T>(s: seq<T>, key: T -> int, k: int)
    ensures WithKey(SortDesc(s, key), key, k) == WithKey(s, key, k)
  {
    if s != [] {
      var s', x := s[..|s| - 1], s[|s| - 1];
      SortDescStable(s', key, k);
      InsertDescWithKey(SortDesc(s', key), x, key, k);
    }
  }

  /** When all keys tie, sorting changes nothing. */
  lemma SortDescOfTies<T>(s: seq<T>, key: T -> int, k: int)
    requires forall i :: 0 <= i < |s| ==> key(s[i]) == k
    ensures SortDesc(s, key) == s
  {
    var r := SortDesc(s, key);
    forall i | 0 <= i < |r|
      ensures key(r[i]) == k
    {
      assert r[i] in multiset(s);
    }
    WithKeyOfUniform(s, key, k);
    WithKeyOfUniform(r, key, k);
    SortDescStable(s, key, k);
  }

  /** Sortedness and stability determine the result: any sorted sequence that
      has, for every key, the same elements with that key in the same order as
      `s` is `SortDesc(s)`. */
  lemma SortDescUnique<T>(s: seq<T>, r: seq<T>, key: T -> int)
    requires SortedDesc(r, key)
    requires forall k :: WithKey(r, key, k) == WithKey(s, key, k)
    ensures r == SortDesc(s, key)
  {
    var u := SortDesc(s, key);
    SortDescSorted(s, key);
    forall k
      ensures WithKey(u, key, k) == WithKey(r, key, k)
    {
      SortDescStable(s, key, k);
    }
    SortedWithSameKeysEqual(r, u, key);
  }

  /** The last element of a sorted non-empty sequence has its smallest key. */
  lemma LastIsSmallest<T>(s: seq<T>, key: T -> int, i: nat)
    requires SortedDesc(s, key) && i < |s|
    ensures key(s[|s| - 1]) <= key(s[i])
  {
    if i < |s| - 1 {
      assert key(s[i]) >= key(s[|s| - 1]);
    }
  }

  lemma LastHasItsKey<T>(w: seq<T>, key: T -> int)
    requires w != []
    ensures WithKey(w, key, key(w[|w| - 1])) != []
  {
  }

  /** Two sorted sequences that agree on the elements of every key end with
      the same key. */
  lemma LastKeysAgree<T>(u: seq<T>, v: seq<T>, key: T -> int)
    requires SortedDesc(u, key) && SortedDesc(v, key)
    requires u != [] && v != []
    requires WithKey(u, key, key(u[|u| - 1])) == WithKey(v, key, key(u[|u| - 1]))
    requires WithKey(u, key, key(v[|v| - 1])) == WithKey(v, key, key(v[|v| - 1]))
    ensures key(u[|u| - 1]) == key(v[|v| - 1])
  {
    var x, y := u[|u| - 1], v[|v| - 1];
    WithKeyMembers(u, key, key(x), x);
    WithKeyMembers(v, key, key(x), x);
    WithKeyMembers(u, key, key(y), y);
    WithKeyMembers(v, key, key(y), y);
    assert x in v;
    var iv :| 0 <= iv < |v| && v[iv] == x;
    LastIsSmallest(v, key, iv);
    assert y in u;
    var iu :| 0 <= iu < |u| && u[iu] == y;
    LastIsSmallest(u, key, iu);
  }

  lemma SnocsAgree<T>(u': seq<T>, x: T, v': seq<T>, y: T, key: T -> int, k: int)
    requires key(x) == key(y)
    requires WithKey(u' + [x], key, k) == WithKey(v' + [y], key, k)
    ensures WithKey(u', key, k) == WithKey(v', key, k)
    ensures k == key(x) ==> x == y
  {
    WithKeySnoc(u', x, key, k);
    WithKeySnoc(v', y, key, k);
    var a, b := WithKey(u', key, k), WithKey(v', key, k);
    var c := WithKey(u' + [x], key, k);
    if k == key(x) {
      assert c == a + [x] && c == b + [y];
      assert a == c[..|c| - 1] && b == c[..|c| - 1];
    } else {
      assert a + [] == a && b + [] == b;
    }
  }

  /** Two such sequences end with the same element, and agree on every key
      without it. */
  lemma DropLastAgrees<T>(u': seq<T>, x: T, v': seq<T>, y: T, key: T -> int)
    requires SortedDesc(u' + [x], key) && SortedDesc(v' + [y], key)
    requires forall k :: WithKey(u' + [x], key, k) == WithKey(v' + [y], key, k)
    ensures x == y
    ensures forall k :: WithKey(u', key, k) == WithKey(v', key, k)
  {
    LastKeysAgree(u' + [x], v' + [y], key);
    SnocsAgree(u', x, v', y, key, key(x));
    forall k
      ensures WithKey(u', key, k) == WithKey(v', key, k)
    {
      SnocsAgree(u', x, v', y, key, k);
    }
  }

  lemma {:induction false} SortedWithSameKeysEqual<T>(u: seq<T>, v: seq<T>, key: T -> int)
    requires SortedDesc(u, key) && SortedDesc(v, key)
    requires forall k :: WithKey(u, key, k) == WithKey(v, key, k)
    ensures u == v
    decreases |u|
  {
    if u == [] || v == [] {
      if u != v {
        var w := if u == [] then v else u;
        LastHasItsKey(w, key);
      }
    } else {
      var u', x := u[..|u| - 1], u[|u| - 1];
      var v', y := v[..|v| - 1], v[|v| - 1];
      assert u == u' + [x] && v == v' + [y];
      DropLastAgrees(u', x, v', y, key);
      assert SortedDesc(u', key) && SortedDesc(v', key);
      SortedWithSameKeysEqual(u', v', key);
    }
  }

  /** `InsertDesc(t, x)` puts `x` at the position `j` after which every key
      is smaller than `x`'s. */
  lemma {:induction false} InsertDescAt<T>(t: seq<T>, x: T, key: T -> int, j: nat)
    requires j <= |t|
    requires j == 0 || key(t[j - 1]) >= key(x)
    requires forall m :: j <= m < |t| ==> key(t[m]) < key(x)
    ensures var r := InsertDesc(t, x, key);
      && (forall m :: 0 <= m < j ==> r[m] == t[m])
      && r[j] == x
      && (forall m :: j < m <= |t| ==> r[m] == t[m - 1])
    decreases |t|
  {
    if |t| > j {
      var t', y := t[..|t| - 1], t[|t| - 1];
      assert key(y) < key(x);
      assert InsertDesc(t, x, key) == InsertDesc(t', x, key) + [y];
      InsertDescAt(t', x, key, j);
    }
  }

  /** One step of insertion sort: `a[i]` moves left past every element of the
      prefix `a[..i]` whose key is smaller. */
  method InsertInPlace<T>(a: array<T>, i: nat, key: T -> int)
    requires i < a.Length
    modifies a
    ensures a[..i + 1] == InsertDesc(old(a[..i]), old(a[i]), key)
    ensures forall m :: i < m < a.Length ==> a[m] == old(a[m])
  {
    ghost var t := a[..i];
    var x := a[i];
    var j := i;
    while j > 0 && key(a[j - 1]) < key(x)
      invariant 0 <= j <= i
      invariant forall m :: 0 <= m < j ==> a[m] == t[m]
      invariant forall m :: j < m <= i ==> a[m] == t[m - 1]
      invariant forall m :: i < m < a.Length ==> a[m] == old(a[m])
      invariant forall m :: j <= m < i ==> key(t[m]) < key(x)
    {
      a[j] := a[j - 1];
      j := j - 1;
    }
    a[j] := x;
    InsertDescAt(t, x, key, j);
    ghost var r := InsertDesc(t, x, key);
    assert forall m :: 0 <= m <= i ==> a[m] == r[m];
  }

  lemma SortDescPrefix<T>(s: seq<T>, i: nat, key: T -> int)
    requires i < |s|
    ensures SortDesc(s[..i + 1], key) == InsertDesc(SortDesc(s[..i], key), s[i], key)
  {
    assert s[..i + 1][..i] == s[..i];
  }

  /** Insertion sort in place: the array ends up as `SortDesc` of its old contents. */
  method SortDescInPlace<T>(a: array<T>, key: T -> int)
    modifies a
    ensures a[..] == SortDesc(old(a[..]), key)
  {
    ghost var s := a[..];
    var i := 0;
    while i < a.Length
      invariant 0 <= i <= a.Length
      invariant a[..i] == SortDesc(s[..i], key)
      invariant forall m :: i <= m < a.Length ==> a[m] == s[m]
    {
      SortDescPrefix(s, i, key);
      InsertInPlace(a, i, key);
      i := i + 1;
    }
    assert s[..a.Length] == s;
  }
}
