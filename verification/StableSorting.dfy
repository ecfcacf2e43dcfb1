/** Python's `sorted(..., reverse=True)` keeps equal elements in their original order.
    `IsStableSort` says exactly what such a sort returns, and `StableSortUnique` shows that
    nothing else satisfies it, so the insertion sort below stands for whatever algorithm is used. */
module StableSorting {

  ghost predicate Descending<T>(xs: seq<T>, key: T -> real) {
    forall i, j :: 0 <= i < j < |xs| ==> key(xs[i]) >= key(xs[j])
  }

  /** The elements with key `v`, in their order in `xs`. */
  function WithKey<T>(xs: seq<T>, key: T -> real, v: real): seq<T> {
    if xs == [] then []
    else One(xs[0], key, v) + WithKey(xs[1..], key, v)
  }

  function One<T>(x: T, key: T -> real, v: real): seq<T> { if key(x) == v then [x] else [] }

  /** `ys` holds the elements of `xs` by falling key, equal keys in their order in `xs`. */
  ghost predicate IsStableSort<T>(ys: seq<T>, xs: seq<T>, key: T -> real) {
    && Descending(ys, key)
    && forall v :: WithKey(ys, key, v) == WithKey(xs, key, v)
  }

  function Insert<T>(x: T, ys: seq<T>, key: T -> real): seq<T> {
    if ys == [] || key(x) >= key(ys[0]) then [x] + ys
    else [ys[0]] + Insert(x, ys[1..], key)
  }

  function SortDescending<T>(xs: seq<T>, key: T -> real): seq<T> {
    if xs == [] then [] else Insert(xs[0], SortDescending(xs[1..], key), key)
  }

  lemma {:induction false} InsertMembers<T>(x: T, ys: seq<T>, key: T -> real)
    ensures forall y :: y in Insert(x, ys, key) ==> y == x || y in ys
  {
    if ys != [] && key(x) < key(ys[0]) {
      InsertMembers(x, ys[1..], key);
    }
  }

  lemma PrependKeepsOrder<T>(y: T, rest: seq<T>, key: T -> real)
    requires Descending(rest, key)
    requires forall j :: 0 <= j < |rest| ==> key(y) >= key(rest[j])
    ensures Descending([y] + rest, key)
  {
    var all := [y] + rest;
    forall i, j | 0 <= i < j < |all| ensures key(all[i]) >= key(all[j]) {
      assert all[j] == rest[j - 1];
      if i > 0 {
        assert all[i] == rest[i - 1];
      }
    }
  }

  lemma {:induction false} InsertKeepsOrder<T>(x: T, ys: seq<T>, key: T -> real)
    requires Descending(ys, key)
    ensures Descending(Insert(x, ys, key), key)
  {
    if ys == [] || key(x) >= key(ys[0]) {
      PrependKeepsOrder(x, ys, key);
    } else {
      var rest := Insert(x, ys[1..], key);
      InsertKeepsOrder(x, ys[1..], key);
      InsertMembers(x, ys[1..], key);
      forall j | 0 <= j < |rest| ensures key(ys[0]) >= key(rest[j]) {
        assert rest[j] in rest;
      }
      PrependKeepsOrder(ys[0], rest, key);
    }
  }

  lemma WithKeyCons<T>(x: T, ys: seq<T>, key: T -> real, v: real)
    ensures WithKey([x] + ys, key, v) == One(x, key, v) + WithKey(ys, key, v)
  {
    assert ([x] + ys)[1..] == ys;
  }

  lemma {:induction false} InsertWithKey<T>(x: T, ys: seq<T>, key: T -> real, v: real)
    ensures WithKey(Insert(x, ys, key), key, v) == WithKey([x] + ys, key, v)
  {
    if ys != [] && key(x) < key(ys[0]) {
      var y, rest := ys[0], ys[1..];
      InsertWithKey(x, rest, key, v);
      WithKeyCons(y, Insert(x, rest, key), key, v);
      WithKeyCons(x, rest, key, v);
      WithKeyCons(x, ys, key, v);
      assert ys == [y] + rest;
      WithKeyCons(y, rest, key, v);
      SwapEmpty(One(y, key, v), One(x, key, v), WithKey(rest, key, v));
    }
  }

  lemma SwapEmpty<T>(a: seq<T>, b: seq<T>, c: seq<T>)
    requires a == [] || b == []
    ensures a + (b + c) == b + (a + c)
  {
    assert a == [] ==> a + (b + c) == b + c && a + c == c;
    assert b == [] ==> b + (a + c) == a + c && b + c == c;
  }

  lemma {:induction false} SortIsStable<T>(xs: seq<T>, key: T -> real)
    ensures IsStableSort(SortDescending(xs, key), xs, key)
  {
    if xs != [] {
      var rest := SortDescending(xs[1..], key);
      SortIsStable(xs[1..], key);
      InsertKeepsOrder(xs[0], rest, key);
      forall v ensures WithKey(SortDescending(xs, key), key, v) == WithKey(xs, key, v) {
        InsertWithKey(xs[0], rest, key, v);
        assert ([xs[0]] + rest)[1..] == rest;
      }
    }
  }

  lemma {:induction false} WithKeyCounts<T>(xs: seq<T>, key: T -> real, x: T)
    ensures multiset(WithKey(xs, key, key(x)))[x] == multiset(xs)[x]
  {
    if xs != [] {
      var v := key(x);
      var head, rest := One(xs[0], key, v), WithKey(xs[1..], key, v);
      WithKeyCounts(xs[1..], key, x);
      assert multiset(head + rest)[x] == multiset(head)[x] + multiset(rest)[x];
      assert xs == [xs[0]] + xs[1..];
      assert multiset(xs)[x] == multiset([xs[0]])[x] + multiset(xs[1..])[x];
      assert multiset(head)[x] == multiset([xs[0]])[x];
    }
  }

  lemma StableSortPermutes<T>(ys: seq<T>, xs: seq<T>, key: T -> real)
    requires IsStableSort(ys, xs, key)
    ensures multiset(ys) == multiset(xs) && |ys| == |xs|
  {
    forall x ensures multiset(ys)[x] == multiset(xs)[x] {
      WithKeyCounts(ys, key, x);
      WithKeyCounts(xs, key, x);
    }
    assert multiset(ys) == multiset(xs);
    assert |multiset(ys)| == |ys| && |multiset(xs)| == |xs|;
  }

  lemma {:induction false} WithKeyAppend<T>(xs: seq<T>, ys: seq<T>, key: T -> real, v: real)
    ensures WithKey(xs + ys, key, v) == WithKey(xs, key, v) + WithKey(ys, key, v)
  {
    if xs == [] {
      assert xs + ys == ys;
    } else {
      WithKeyAppend(xs[1..], ys, key, v);
      WithKeyCons(xs[0], xs[1..] + ys, key, v);
      assert xs + ys == [xs[0]] + (xs[1..] + ys);
      Associate(One(xs[0], key, v), WithKey(xs[1..], key, v), WithKey(ys, key, v));
    }
  }

  lemma Associate<T>(a: seq<T>, b: seq<T>, c: seq<T>)
    ensures (a + b) + c == a + (b + c)
  {
  }

  /** The specification leaves no choice: two stable sorts of one list are the same list. */
  lemma {:induction false} StableSortUnique<T>(ys: seq<T>, zs: seq<T>, xs: seq<T>, key: T -> real)
    requires IsStableSort(ys, xs, key) && IsStableSort(zs, xs, key)
    ensures ys == zs
  {
    StableSortPermutes(ys, xs, key);
    StableSortPermutes(zs, xs, key);
    SameKeysSameList(ys, zs, key);
  }

  lemma {:induction false} SameKeysSameList<T>(ys: seq<T>, zs: seq<T>, key: T -> real)
    requires Descending(ys, key) && Descending(zs, key) && |ys| == |zs|
    requires forall v :: WithKey(ys, key, v) == WithKey(zs, key, v)
    ensures ys == zs
  {
    if ys != [] {
      HeadKey(ys, zs, key);
      HeadKey(zs, ys, key);
      assert WithKey(ys, key, key(ys[0]))[0] == ys[0];
      assert WithKey(zs, key, key(zs[0]))[0] == zs[0];
      forall v ensures WithKey(ys[1..], key, v) == WithKey(zs[1..], key, v) {
        assert WithKey(ys, key, v) == WithKey(zs, key, v);
        WithKeyTail(ys, key, v);
        WithKeyTail(zs, key, v);
      }
      SameKeysSameList(ys[1..], zs[1..], key);
    }
  }

  lemma WithKeyTail<T>(ys: seq<T>, key: T -> real, v: real)
    requires ys != []
    ensures WithKey(ys[1..], key, v) == WithKey(ys, key, v)[if key(ys[0]) == v then 1 else 0..]
  {
    assert [] + WithKey(ys[1..], key, v) == WithKey(ys[1..], key, v);
  }

  lemma HeadKey<T>(ys: seq<T>, zs: seq<T>, key: T -> real)
    requires Descending(ys, key) && Descending(zs, key) && |ys| == |zs| > 0
    requires forall v :: WithKey(ys, key, v) == WithKey(zs, key, v)
    ensures key(ys[0]) <= key(zs[0])
  {
    assert WithKey(zs, key, key(ys[0])) != [];
    WithKeyMembers(zs, key, key(ys[0]));
    var x := WithKey(zs, key, key(ys[0]))[0];
    assert x in zs;
  }

  lemma {:induction false} WithKeyMembers<T>(xs: seq<T>, key: T -> real, v: real)
    ensures forall x :: x in WithKey(xs, key, v) <==> x in xs && key(x) == v
  {
    if xs != [] {
      WithKeyMembers(xs[1..], key, v);
    }
  }

  /** Both keys order any two elements alike. */
  ghost predicate SameOrder<T>(xs: seq<T>, k1: T -> real, k2: T -> real) {
    forall i, j :: 0 <= i < |xs| && 0 <= j < |xs| ==> (k1(xs[i]) >= k1(xs[j]) <==> k2(xs[i]) >= k2(xs[j]))
  }

  lemma {:induction false} InsertAgrees<T>(x: T, ys: seq<T>, k1: T -> real, k2: T -> real)
    requires forall y :: y in ys ==> (k1(x) >= k1(y) <==> k2(x) >= k2(y))
    ensures Insert(x, ys, k1) == Insert(x, ys, k2)
  {
    if ys != [] { InsertAgrees(x, ys[1..], k1, k2); }
  }

  lemma {:induction false} SortMembers<T>(xs: seq<T>, key: T -> real)
    ensures forall x :: x in SortDescending(xs, key) ==> x in xs
  {
    if xs != [] {
      SortMembers(xs[1..], key);
      InsertMembers(xs[0], SortDescending(xs[1..], key), key);
    }
  }

  /** Keys that order the elements alike sort them alike. */
  lemma {:induction false} SortAgrees<T>(xs: seq<T>, k1: T -> real, k2: T -> real)
    requires SameOrder(xs, k1, k2)
    ensures SortDescending(xs, k1) == SortDescending(xs, k2)
  {
    if xs != [] {
      var rest := xs[1..];
      assert forall i :: 0 <= i < |rest| ==> rest[i] == xs[i + 1];
      SortAgrees(rest, k1, k2);
      SortMembers(rest, k1);
      hide SortDescending;
      var sorted := SortDescending(rest, k1);
      forall y | y in sorted ensures k1(xs[0]) >= k1(y) <==> k2(xs[0]) >= k2(y) {
        assert y in rest;
        var i :| 0 <= i < |rest| && rest[i] == y;
      }
      InsertAgrees(xs[0], sorted, k1, k2);
      SortUnrolls(xs, k1);
      SortUnrolls(xs, k2);
    }
  }

  lemma SortUnrolls<T>(xs: seq<T>, key: T -> real)
    requires xs != []
    ensures SortDescending(xs, key) == Insert(xs[0], SortDescending(xs[1..], key), key)
  {
  }

  function Mapped<S, T>(xs: seq<S>, f: S -> T): (ys: seq<T>)
    ensures |ys| == |xs| && forall i :: 0 <= i < |xs| ==> ys[i] == f(xs[i])
  {
    seq(|xs|, i requires 0 <= i < |xs| => f(xs[i]))
  }

  lemma {:induction false} InsertMapped<S, T>(x: S, ys: seq<S>, f: S -> T, fromKey: S -> real, key: T -> real)
    requires forall y :: fromKey(y) == key(f(y))
    ensures Mapped(Insert(x, ys, fromKey), f) == Insert(f(x), Mapped(ys, f), key)
  {
    if ys != [] {
      InsertMapped(x, ys[1..], f, fromKey, key);
      assert Mapped(ys, f)[1..] == Mapped(ys[1..], f);
    }
  }

  /** Sorting by the key of an image is sorting the images. */
  lemma {:induction false} SortMapped<S, T>(xs: seq<S>, f: S -> T, fromKey: S -> real, key: T -> real)
    requires forall x :: fromKey(x) == key(f(x))
    ensures Mapped(SortDescending(xs, fromKey), f) == SortDescending(Mapped(xs, f), key)
  {
    if xs != [] {
      SortMapped(xs[1..], f, fromKey, key);
      InsertMapped(xs[0], SortDescending(xs[1..], fromKey), f, fromKey, key);
      assert Mapped(xs, f)[1..] == Mapped(xs[1..], f);
    }
  }
}
