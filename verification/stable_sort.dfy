/** Python's `sorted(xs, key=key, reverse=True)`: a stable sort into
    non-increasing key order. Stability is stated per key: for every key value,
    the elements carrying it appear in the same relative order as in the
    input. */
module StableSort {

  predicate SortedDesc<T>(xs: seq<T>, key: T -> int) {
    forall i, j :: 0 <= i < j < |xs| ==> key(xs[i]) >= key(xs[j])
  }

  /** The elements of `xs` whose key is `k`, in their order in `xs`. */
  function WithKey<T>(xs: seq<T>, key: T -> int, k: int): (r: seq<T>)
    ensures |r| <= |xs|
    ensures forall i :: 0 <= i < |r| ==> key(r[i]) == k
  {
    if |xs| == 0 then []
    else
      var init := xs[..|xs| - 1];
      var last := xs[|xs| - 1];
      assert xs == init + [last];
      WithKey(init, key, k) + (if key(last) == k then [last] else [])
  }

  /** Selecting from a non-empty sequence: the last element joins the
      selection of the rest exactly when its key matches. */
  lemma WithKeySnoc<T>(xs: seq<T>, key: T -> int, k: int)
    requires |xs| > 0
    ensures WithKey(xs, key, k) == WithKey(xs[..|xs| - 1], key, k) + (if key(xs[|xs| - 1]) == k then [xs[|xs| - 1]] else [])
  {
  }

  lemma {:induction false} WithKeyConcat<T>(a: seq<T>, b: seq<T>, key: T -> int, k: int)
    ensures WithKey(a + b, key, k) == WithKey(a, key, k) + WithKey(b, key, k)
    decreases |b|
  {
    if |b| == 0 {
      assert a + b == a;
    } else {
      var init := b[..|b| - 1];
      assert a + b == (a + init) + [b[|b| - 1]];
      assert (a + b)[..|a + b| - 1] == a + init;
      WithKeyConcat(a, init, key, k);
    }
  }

  /** No element with key `k`: nothing to select. */
  lemma {:induction false} WithKeyAbsent<T>(xs: seq<T>, key: T -> int, k: int)
    requires forall i :: 0 <= i < |xs| ==> key(xs[i]) != k
    ensures WithKey(xs, key, k) == []
    decreases |xs|
  {
    if |xs| > 0 {
      WithKeyAbsent(xs[..|xs| - 1], key, k);
    }
  }

  /** Every element has key `k`: everything is selected. */
  lemma {:induction false} WithKeyAll<T>(xs: seq<T>, key: T -> int, k: int)
    requires forall i :: 0 <= i < |xs| ==> key(xs[i]) == k
    ensures WithKey(xs, key, k) == xs
    decreases |xs|
  {
    if |xs| > 0 {
      WithKeyAll(xs[..|xs| - 1], key, k);
    }
  }

  /** How many leading elements of `xs` have a key at least `key(x)`: where
      a stable insertion of `x` goes. */
  function InsertPosition<T>(x: T, xs: seq<T>, key: T -> int): (p: nat)
    ensures p <= |xs|
    ensures forall i :: 0 <= i < p ==> key(xs[i]) >= key(x)
    ensures p < |xs| ==> key(xs[p]) < key(x)
  {
    if |xs| == 0 || key(xs[0]) < key(x) then 0
    else 1 + InsertPosition(x, xs[1..], key)
  }

  /** Placing `x` between a front of keys at least `key(x)` and a back of
      smaller keys keeps a descending sequence descending. */
  lemma InsertKeepsSorted<T>(front: seq<T>, x: T, back: seq<T>, key: T -> int)
    requires SortedDesc(front + back, key)
    requires forall i :: 0 <= i < |front| ==> key(front[i]) >= key(x)
    requires forall i :: 0 <= i < |back| ==> key(back[i]) < key(x)
    ensures SortedDesc(front + [x] + back, key)
  {
    var r := front + [x] + back;
    var s := front + back;
    forall i, j | 0 <= i < j < |r|
      ensures key(r[i]) >= key(r[j])
    {
      if j < |front| {
        assert r[i] == s[i] && r[j] == s[j];
      } else if i > |front| {
        assert r[i] == s[i - 1] && r[j] == s[j - 1];
      } else if i < |front| && j > |front| {
        assert r[i] == front[i] && r[j] == back[j - |front| - 1];
      } else if i == |front| {
        assert r[j] == back[j - |front| - 1];
      }
    }
  }

  /** Inserting `x` ahead of only smaller keys adds it at the end of its
      own key's selection and leaves every other key's selection alone. */
  lemma InsertSelects<T>(front: seq<T>, x: T, back: seq<T>, key: T -> int, k: int)
    requires forall i :: 0 <= i < |back| ==> key(back[i]) < key(x)
    ensures WithKey(front + [x] + back, key, k) == WithKey(front + back, key, k) + (if key(x) == k then [x] else [])
  {
    WithKeyConcat(front + [x], back, key, k);
    WithKeyConcat(front, back, key, k);
    WithKeySnoc(front + [x], key, k);
    assert (front + [x])[..|front|] == front;
    if key(x) == k {
      WithKeyAbsent(back, key, k);
    }
  }

  /** Everything after the insertion position has a smaller key than `x`. */
  lemma BackBelow<T>(x: T, xs: seq<T>, key: T -> int, p: nat)
    requires SortedDesc(xs, key)
    requires p <= |xs| && (p < |xs| ==> key(xs[p]) < key(x))
    ensures forall i :: 0 <= i < |xs[p..]| ==> key(xs[p..][i]) < key(x)
  {
    forall i | 0 <= i < |xs[p..]|
      ensures key(xs[p..][i]) < key(x)
    {
      assert xs[p..][i] == xs[p + i];
      assert key(xs[p]) >= key(xs[p + i]);
    }
  }

  /** Inserts `x` after every leading element whose key is at least `x`'s:
      among equal keys, `x` goes last. */
  function Insert<T>(x: T, xs: seq<T>, key: T -> int): (r: seq<T>)
    requires SortedDesc(xs, key)
    ensures |r| == |xs| + 1
    ensures SortedDesc(r, key)
    ensures multiset(r) == multiset(xs) + multiset{x}
    ensures forall k :: WithKey(r, key, k) == WithKey(xs, key, k) + (if key(x) == k then [x] else [])
  {
    var p := InsertPosition(x, xs, key);
    InsertSorted(x, xs, key, p);
    InsertMultiset(x, xs, p);
    InsertSelectsAll(x, xs, key, p);
    xs[..p] + [x] + xs[p..]
  }

  lemma InsertSorted<T>(x: T, xs: seq<T>, key: T -> int, p: nat)
    requires SortedDesc(xs, key)
    requires p == InsertPosition(x, xs, key)
    ensures SortedDesc(xs[..p] + [x] + xs[p..], key)
  {
    assert xs == xs[..p] + xs[p..];
    BackBelow(x, xs, key, p);
    InsertKeepsSorted(xs[..p], x, xs[p..], key);
  }

  lemma InsertMultiset<T>(x: T, xs: seq<T>, p: nat)
    requires p <= |xs|
    ensures multiset(xs[..p] + [x] + xs[p..]) == multiset(xs) + multiset{x}
  {
    assert xs == xs[..p] + xs[p..];
  }

  lemma InsertSelectsAll<T>(x: T, xs: seq<T>, key: T -> int, p: nat)
    requires SortedDesc(xs, key)
    requires p == InsertPosition(x, xs, key)
    ensures forall k :: WithKey(xs[..p] + [x] + xs[p..], key, k) == WithKey(xs, key, k) + (if key(x) == k then [x] else [])
  {
    assert xs == xs[..p] + xs[p..];
    BackBelow(x, xs, key, p);
    forall k
      ensures WithKey(xs[..p] + [x] + xs[p..], key, k) == WithKey(xs, key, k) + (if key(x) == k then [x] else [])
    {
      InsertSelects(xs[..p], x, xs[p..], key, k);
    }
  }

  /** `sorted(xs, key=key, reverse=True)`: a permutation of `xs` in
      non-increasing key order that keeps, for every key, the input order of
      the elements carrying it. */
  function Sort<T>(xs: seq<T>, key: T -> int): (r: seq<T>)
    ensures |r| == |xs|
    ensures SortedDesc(r, key)
    ensures multiset(r) == multiset(xs)
    ensures forall k :: WithKey(r, key, k) == WithKey(xs, key, k)
  {
    if |xs| == 0 then []
    else
      var init := xs[..|xs| - 1];
      assert xs == init + [xs[|xs| - 1]];
      Insert(xs[|xs| - 1], Sort(init, key), key)
  }

  /** A sorted sequence is determined by its per-key subsequences: there is
      only one stable descending order. */
  lemma {:induction false} SortedUnique<T>(a: seq<T>, b: seq<T>, key: T -> int)
    requires SortedDesc(a, key) && SortedDesc(b, key)
    requires forall k :: WithKey(a, key, k) == WithKey(b, key, k)
    ensures a == b
    decreases |a| + |b|
  {
    if |a| == 0 {
      NothingSelected(b, key);
    } else if |b| == 0 {
      NothingSelected(a, key);
    } else {
      var a', x := a[..|a| - 1], a[|a| - 1];
      var b', y := b[..|b| - 1], b[|b| - 1];
      assert a == a' + [x];
      assert b == b' + [y];
      SameLastKey(a, b, key);
      SortedInit(a, key);
      SortedInit(b, key);
      DropLast(a', x, b', y, key);
      SortedUnique(a', b', key);
    }
  }

  /** Dropping the last element keeps a sequence sorted. */
  lemma SortedInit<T>(xs: seq<T>, key: T -> int)
    requires |xs| > 0 && SortedDesc(xs, key)
    ensures SortedDesc(xs[..|xs| - 1], key)
  {
  }

  /** Sorted sequences with the same per-key subsequences end with the same
      (smallest) key. */
  lemma SameLastKey<T>(a: seq<T>, b: seq<T>, key: T -> int)
    requires |a| > 0 && |b| > 0 && SortedDesc(a, key) && SortedDesc(b, key)
    requires forall k :: WithKey(a, key, k) == WithKey(b, key, k)
    ensures key(a[|a| - 1]) == key(b[|b| - 1])
  {
    var ka := key(a[|a| - 1]);
    var kb := key(b[|b| - 1]);
    if ka < kb {
      LastIsSmallest(b, key, ka);
      WithKeySnoc(a, key, ka);
    } else if kb < ka {
      LastIsSmallest(a, key, kb);
      WithKeySnoc(b, key, kb);
    }
  }

  /** Two sequences with the same per-key subsequences whose last elements
      share a key end in the same element, and agree per key without it. */
  lemma DropLast<T>(a: seq<T>, x: T, b: seq<T>, y: T, key: T -> int)
    requires key(x) == key(y)
    requires forall k :: WithKey(a + [x], key, k) == WithKey(b + [y], key, k)
    ensures x == y
    ensures forall k :: WithKey(a, key, k) == WithKey(b, key, k)
  {
    assert (a + [x])[..|a|] == a;
    assert (b + [y])[..|b|] == b;
    var ka := key(x);
    WithKeySnoc(a + [x], key, ka);
    WithKeySnoc(b + [y], key, ka);
    var w := WithKey(a + [x], key, ka);
    assert w[|w| - 1] == x;
    assert w[|w| - 1] == y;
    forall k
      ensures WithKey(a, key, k) == WithKey(b, key, k)
    {
      WithKeySnoc(a + [x], key, k);
      WithKeySnoc(b + [y], key, k);
      if k == ka {
        SnocCancel(WithKey(a, key, k), WithKey(b, key, k), x);
      } else {
        assert WithKey(a, key, k) + [] == WithKey(a, key, k);
        assert WithKey(b, key, k) + [] == WithKey(b, key, k);
      }
    }
  }

  /** A sequence from which no key selects anything is empty. */
  lemma NothingSelected<T>(xs: seq<T>, key: T -> int)
    requires forall k :: WithKey(xs, key, k) == []
    ensures xs == []
  {
    if xs != [] {
      WithKeySnoc(xs, key, key(xs[|xs| - 1]));
    }
  }

  lemma SnocCancel<T>(p: seq<T>, q: seq<T>, x: T)
    requires p + [x] == q + [x]
    ensures p == q
  {
    assert p == (p + [x])[..|p|];
    assert q == (q + [x])[..|q|];
  }

  /** In a non-empty sorted sequence, a key below the last one selects
      nothing, while the last one's key selects something. */
  lemma LastIsSmallest<T>(xs: seq<T>, key: T -> int, k: int)
    requires |xs| > 0 && SortedDesc(xs, key)
    requires k < key(xs[|xs| - 1])
    ensures WithKey(xs, key, k) == []
    ensures WithKey(xs, key, key(xs[|xs| - 1])) != []
  {
    forall i | 0 <= i < |xs|
      ensures key(xs[i]) != k
    {
      if i < |xs| - 1 {
        assert key(xs[i]) >= key(xs[|xs| - 1]);
      }
    }
    WithKeyAbsent(xs, key, k);
    WithKeySnoc(xs, key, key(xs[|xs| - 1]));
  }

  /** The reference order: all elements with key `hi`, then all with key
      `hi - 1`, and so on down to `lo`, each group in input order. */
  function Buckets<T>(xs: seq<T>, key: T -> int, hi: int, lo: int): (r: seq<T>)
    ensures forall i :: 0 <= i < |r| ==> lo <= key(r[i]) <= hi
    ensures SortedDesc(r, key)
    decreases hi - lo
  {
    if hi < lo then []
    else
      var top := WithKey(xs, key, hi);
      var rest := Buckets(xs, key, hi - 1, lo);
      assert forall i :: 0 <= i < |top| ==> key(top[i]) == hi;
      top + rest
  }

  /** Each key in `lo..hi` selects from the buckets exactly what it selects
      from the input; other keys select nothing. */
  lemma {:induction false} WithKeyBuckets<T>(xs: seq<T>, key: T -> int, hi: int, lo: int, k: int)
    ensures WithKey(Buckets(xs, key, hi, lo), key, k) == if lo <= k <= hi then WithKey(xs, key, k) else []
    decreases hi - lo
  {
    if hi < lo {
    } else {
      var top := WithKey(xs, key, hi);
      WithKeyBuckets(xs, key, hi - 1, lo, k);
      WithKeyConcat(top, Buckets(xs, key, hi - 1, lo), key, k);
      if k == hi {
        WithKeyAll(top, key, k);
      } else {
        WithKeyAbsent(top, key, k);
      }
    }
  }

  /** When every key lies in `lo..hi`, the stable descending sort is the
      bucket order. */
  lemma SortIsBuckets<T>(xs: seq<T>, key: T -> int, hi: int, lo: int)
    requires forall i :: 0 <= i < |xs| ==> lo <= key(xs[i]) <= hi
    ensures Sort(xs, key) == Buckets(xs, key, hi, lo)
  {
    var s := Sort(xs, key);
    var b := Buckets(xs, key, hi, lo);
    forall k
      ensures WithKey(s, key, k) == WithKey(b, key, k)
    {
      WithKeyBuckets(xs, key, hi, lo, k);
      if !(lo <= k <= hi) {
        WithKeyAbsent(xs, key, k);
      }
    }
    SortedUnique(s, b, key);
  }
}
