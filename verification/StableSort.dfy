/** Stable sorting by timestamp, as the library sorts of both languages do it, and what happens to the
    result when one element is left out. */
module StableSort {
  import opened Timestamps

  ghost predicate Sorted<T(!new)>(s: seq<T>, key: T -> Timestamp) {
    forall i, j | 0 <= i < j < |s| :: Leq(key(s[i]), key(s[j]))
  }

  /** The number of elements of `s`, from the left, that stay before a newly arriving `x`. */
  function Position<T>(s: seq<T>, x: T, key: T -> Timestamp): (p: nat)
    ensures p <= |s|
  {
    if s == [] then 0
    else if Leq(key(s[|s| - 1]), key(x)) then |s|
    else Position(s[..|s| - 1], x, key)
  }

  function InsertAt<T>(s: seq<T>, p: nat, x: T): seq<T>
    requires p <= |s|
  {
    s[..p] + [x] + s[p..]
  }

  function Insert<T>(s: seq<T>, x: T, key: T -> Timestamp): seq<T> {
    InsertAt(s, Position(s, x, key), x)
  }

  function Sort<T>(s: seq<T>, key: T -> Timestamp): (r: seq<T>)
    ensures |r| == |s|
  {
    if s == [] then [] else Insert(Sort(s[..|s| - 1], key), s[|s| - 1], key)
  }

  // ---------------------------------------------------------------------------------------------
  // Sorting is sorting, it permutes, it is stable, and that determines it
  // ---------------------------------------------------------------------------------------------

  lemma {:induction false} PositionSplits<T(!new)>(s: seq<T>, x: T, key: T -> Timestamp)
    requires Sorted(s, key)
    ensures forall i | 0 <= i < Position(s, x, key) :: Leq(key(s[i]), key(x))
    ensures forall i | Position(s, x, key) <= i < |s| :: Less(key(x), key(s[i]))
  {
    if s != [] {
      var n := |s| - 1;
      if Leq(key(s[n]), key(x)) {
        forall i | 0 <= i < |s| ensures Leq(key(s[i]), key(x)) {
          if i < n { Transitive(key(s[i]), key(s[n]), key(x)); }
        }
      } else {
        PositionSplits(s[..n], x, key);
      }
    }
  }

  lemma InsertKeepsSorted<T(!new)>(s: seq<T>, x: T, key: T -> Timestamp)
    requires Sorted(s, key)
    ensures Sorted(Insert(s, x, key), key)
  {
    PositionSplits(s, x, key);
    var p, r := Position(s, x, key), Insert(s, x, key);
    forall i, j | 0 <= i < j < |r| ensures Leq(key(r[i]), key(r[j])) {
      if i == p {
        Total(key(x), key(r[j]));
      }
      if i < p < j {
        assert Leq(key(s[i]), key(s[j - 1]));
      }
    }
  }

  lemma {:induction false} SortSorts<T(!new)>(s: seq<T>, key: T -> Timestamp)
    ensures Sorted(Sort(s, key), key)
  {
    if s != [] {
      SortSorts(s[..|s| - 1], key);
      InsertKeepsSorted(Sort(s[..|s| - 1], key), s[|s| - 1], key);
    }
  }

  lemma {:induction false} SortPermutes<T(!new)>(s: seq<T>, key: T -> Timestamp)
    ensures multiset(Sort(s, key)) == multiset(s)
  {
    if s != [] {
      var init := Sort(s[..|s| - 1], key);
      var x := s[|s| - 1];
      SortPermutes(s[..|s| - 1], key);
      assert s == s[..|s| - 1] + [x];
      assert init == init[..Position(init, x, key)] + init[Position(init, x, key)..];
    }
  }

  /** The elements of `s` with key `k`, in their order. */
  function WithKey<T>(s: seq<T>, k: Timestamp, key: T -> Timestamp): seq<T> {
    if s == [] then [] else WithKey(s[..|s| - 1], k, key) + if key(s[|s| - 1]) == k then [s[|s| - 1]] else []
  }

  lemma {:induction false} WithKeyConcat<T(!new)>(a: seq<T>, b: seq<T>, k: Timestamp, key: T -> Timestamp)
    ensures WithKey(a + b, k, key) == WithKey(a, k, key) + WithKey(b, k, key)
  {
    if b == [] {
      assert a + b == a;
    } else {
      assert (a + b)[..|a + b| - 1] == a + b[..|b| - 1];
      WithKeyConcat(a, b[..|b| - 1], k, key);
    }
  }

  lemma {:induction false} WithKeyNone<T(!new)>(s: seq<T>, k: Timestamp, key: T -> Timestamp)
    requires forall i | 0 <= i < |s| :: key(s[i]) != k
    ensures WithKey(s, k, key) == []
  {
    if s != [] {
      WithKeyNone(s[..|s| - 1], k, key);
    }
  }

  lemma {:induction false} WithKeyInsertAt<T(!new)>(s: seq<T>, p: nat, x: T, k: Timestamp, key: T -> Timestamp)
    requires p <= |s|
    ensures WithKey(s, k, key) == WithKey(s[..p], k, key) + WithKey(s[p..], k, key)
    ensures WithKey(InsertAt(s, p, x), k, key)
         == WithKey(s[..p], k, key) + (if key(x) == k then [x] else []) + WithKey(s[p..], k, key)
  {
    assert s == s[..p] + s[p..];
    WithKeyConcat(s[..p], s[p..], k, key);
    WithKeyConcat(s[..p], [x], k, key);
    WithKeyConcat(s[..p] + [x], s[p..], k, key);
    assert WithKey([x], k, key) == if key(x) == k then [x] else [] by {
      assert [x][..0] == [];
    }
  }

  lemma {:induction false} SortIsStable<T(!new)>(s: seq<T>, k: Timestamp, key: T -> Timestamp)
    ensures WithKey(Sort(s, key), k, key) == WithKey(s, k, key)
  {
    if s != [] {
      var init, x := Sort(s[..|s| - 1], key), s[|s| - 1];
      SortIsStable(s[..|s| - 1], k, key);
      SortSorts(s[..|s| - 1], key);
      InsertIsStable(init, x, k, key);
    }
  }

  lemma {:induction false} InsertIsStable<T(!new)>(s: seq<T>, x: T, k: Timestamp, key: T -> Timestamp)
    requires Sorted(s, key)
    ensures WithKey(Insert(s, x, key), k, key) == WithKey(s, k, key) + if key(x) == k then [x] else []
  {
    var p := Position(s, x, key);
    WithKeyInsertAt(s, p, x, k, key);
    PositionSplits(s, x, key);
    if key(x) == k {
      Reflexive(k);
      WithKeyNone(s[p..], k, key);
    }
  }

  ghost predicate SameByKey<T(!new)>(a: seq<T>, b: seq<T>, key: T -> Timestamp) {
    forall k :: WithKey(a, k, key) == WithKey(b, k, key)
  }

  lemma SameLast<T(!new)>(a: seq<T>, b: seq<T>, key: T -> Timestamp)
    requires a != [] && b != [] && Sorted(a, key) && Sorted(b, key) && SameByKey(a, b, key)
    ensures a[|a| - 1] == b[|b| - 1]
  {
    var k := key(a[|a| - 1]);
    LastKeyIsGreatest(a, b, key);
    LastKeyIsGreatest(b, a, key);
    AntiSymmetric(k, key(b[|b| - 1]));
    assert WithKey(a, k, key)[|WithKey(a, k, key)| - 1] == a[|a| - 1];
    assert WithKey(b, k, key)[|WithKey(b, k, key)| - 1] == b[|b| - 1];
  }

  /** Two sorted sequences that agree on every key are equal: a stable sort has only one result. */
  lemma {:induction false} StableSortIsUnique<T(!new)>(a: seq<T>, b: seq<T>, key: T -> Timestamp)
    requires Sorted(a, key) && Sorted(b, key) && SameByKey(a, b, key)
    ensures a == b
  {
    if a == [] || b == [] {
      EmptyByKey(a, b, key);
    } else {
      var a', b' := a[..|a| - 1], b[..|b| - 1];
      SameLast(a, b, key);
      forall k ensures WithKey(a', k, key) == WithKey(b', k, key) {
        WithoutLast(a, b, k, key);
      }
      StableSortIsUnique(a', b', key);
      assert a == a' + [a[|a| - 1]] && b == b' + [b[|b| - 1]];
    }
  }

  lemma WithoutLast<T(!new)>(a: seq<T>, b: seq<T>, k: Timestamp, key: T -> Timestamp)
    requires a != [] && b != [] && key(a[|a| - 1]) == key(b[|b| - 1]) && SameByKey(a, b, key)
    ensures WithKey(a[..|a| - 1], k, key) == WithKey(b[..|b| - 1], k, key)
  {
    var wa, wb := WithKey(a[..|a| - 1], k, key), WithKey(b[..|b| - 1], k, key);
    assert WithKey(a, k, key) == WithKey(b, k, key);
    if key(a[|a| - 1]) == k {
      assert wa + [a[|a| - 1]] == wb + [b[|b| - 1]];
      assert (wa + [a[|a| - 1]])[..|wa|] == wa && (wb + [b[|b| - 1]])[..|wb|] == wb;
    } else {
      assert wa + [] == wa && wb + [] == wb;
    }
  }

  lemma EmptyByKey<T(!new)>(a: seq<T>, b: seq<T>, key: T -> Timestamp)
    requires SameByKey(a, b, key)
    ensures a == [] <==> b == []
  {
    if a != [] {
      assert WithKey(a, key(a[|a| - 1]), key) == WithKey(b, key(a[|a| - 1]), key);
    }
    if b != [] {
      assert WithKey(a, key(b[|b| - 1]), key) == WithKey(b, key(b[|b| - 1]), key);
    }
  }

  lemma LastKeyIsGreatest<T(!new)>(a: seq<T>, b: seq<T>, key: T -> Timestamp)
    requires a != [] && b != [] && Sorted(b, key) && SameByKey(a, b, key)
    ensures Leq(key(a[|a| - 1]), key(b[|b| - 1]))
  {
    var k := key(a[|a| - 1]);
    assert WithKey(a, k, key) == WithKey(b, k, key) && WithKey(a, k, key) != [];
    var i := WithKeyOccurs(b, k, key);
    if i == |b| - 1 {
      Reflexive(k);
    }
  }

  lemma {:induction false} WithKeyOccurs<T(!new)>(s: seq<T>, k: Timestamp, key: T -> Timestamp) returns (i: nat)
    requires WithKey(s, k, key) != []
    ensures i < |s| && key(s[i]) == k
  {
    i := |s| - 1;
    if key(s[i]) != k {
      i := WithKeyOccurs(s[..i], k, key);
    }
  }

  // ---------------------------------------------------------------------------------------------
  // Sorting what is already sorted
  // ---------------------------------------------------------------------------------------------

  lemma {:induction false} SortOfSorted<T(!new)>(s: seq<T>, key: T -> Timestamp)
    requires Sorted(s, key)
    ensures Sort(s, key) == s
  {
    if s != [] {
      SortOfSorted(s[..|s| - 1], key);
      var n := |s| - 1;
      assert s == s[..n] + [s[n]];
      assert n > 0 ==> Leq(key(s[n - 1]), key(s[n]));
      assert Position(s[..n], s[n], key) == n;
    }
  }

  /** Sorting a sorted prefix again together with new elements is sorting everything. */
  lemma {:induction false} SortPrefixFirst<T(!new)>(a: seq<T>, b: seq<T>, key: T -> Timestamp)
    ensures Sort(Sort(a, key) + b, key) == Sort(a + b, key)
  {
    if b == [] {
      assert a + b == a && Sort(a, key) + b == Sort(a, key);
      SortSorts(a, key);
      SortOfSorted(Sort(a, key), key);
    } else {
      SortPrefixFirst(a, b[..|b| - 1], key);
      BeforeLast(a, b);
      BeforeLast(Sort(a, key), b);
      SortSnoc(a + b[..|b| - 1], b[|b| - 1], key);
      SortSnoc(Sort(a, key) + b[..|b| - 1], b[|b| - 1], key);
    }
  }

  lemma {:induction false} SortSnoc<T>(s: seq<T>, y: T, key: T -> Timestamp)
    ensures Sort(s + [y], key) == Insert(Sort(s, key), y, key)
  {
    assert (s + [y])[..|s|] == s;
  }

  lemma BeforeLast<T>(a: seq<T>, b: seq<T>)
    requires b != []
    ensures a + b == a + b[..|b| - 1] + [b[|b| - 1]]
  {
    assert b == b[..|b| - 1] + [b[|b| - 1]];
  }

  // ---------------------------------------------------------------------------------------------
  // Leaving one element out
  // ---------------------------------------------------------------------------------------------

  /** How many elements of `s` have a key up to (`atMost`) or from (`!atMost`) `k`. */
  function Count<T>(s: seq<T>, k: Timestamp, atMost: bool, key: T -> Timestamp): nat {
    if s == [] then 0
    else
      var last := key(s[|s| - 1]);
      Count(s[..|s| - 1], k, atMost, key) + if (if atMost then Leq(last, k) else Leq(k, last)) then 1 else 0
  }

  lemma {:induction false} CountAll<T(!new)>(s: seq<T>, k: Timestamp, atMost: bool, key: T -> Timestamp)
    requires forall i | 0 <= i < |s| :: if atMost then Leq(key(s[i]), k) else Leq(k, key(s[i]))
    ensures Count(s, k, atMost, key) == |s|
  {
    if s != [] {
      CountAll(s[..|s| - 1], k, atMost, key);
    }
  }

  lemma {:induction false} CountConcat<T(!new)>(a: seq<T>, b: seq<T>, k: Timestamp, atMost: bool, key: T -> Timestamp)
    ensures Count(a + b, k, atMost, key) == Count(a, k, atMost, key) + Count(b, k, atMost, key)
  {
    if b == [] {
      assert a + b == a;
    } else {
      assert (a + b)[..|a + b| - 1] == a + b[..|b| - 1];
      CountConcat(a, b[..|b| - 1], k, atMost, key);
    }
  }

  lemma {:induction false} CountSorted<T(!new)>(s: seq<T>, k: Timestamp, p: nat, key: T -> Timestamp)
    requires p <= |s|
    requires forall i | 0 <= i < p :: Leq(key(s[i]), k)
    requires forall i | p <= i < |s| :: Less(k, key(s[i]))
    ensures Count(s, k, true, key) == p
  {
    if s != [] {
      var n := |s| - 1;
      if p == |s| {
        CountSorted(s[..n], k, n, key);
      } else {
        CountSorted(s[..n], k, p, key);
      }
    }
  }

  lemma {:induction false} CountOfSort<T(!new)>(s: seq<T>, k: Timestamp, key: T -> Timestamp)
    ensures Count(Sort(s, key), k, true, key) == Count(s, k, true, key)
  {
    if s != [] {
      var init, x := Sort(s[..|s| - 1], key), s[|s| - 1];
      var p := Position(init, x, key);
      CountOfSort(s[..|s| - 1], k, key);
      assert init == init[..p] + init[p..];
      CountConcat(init[..p], init[p..], k, true, key);
      CountConcat(init[..p], [x], k, true, key);
      CountConcat(init[..p] + [x], init[p..], k, true, key);
      assert [x][..0] == [];
    }
  }

  /** Everything before place `p` is not newer than `x`, everything from there on is not older. */
  ghost predicate Splits<T(!new)>(u: seq<T>, p: nat, x: T, key: T -> Timestamp) {
    && p <= |u|
    && (forall i | 0 <= i < p :: Leq(key(u[i]), key(x)))
    && (forall i | p <= i < |u| :: Leq(key(x), key(u[i])))
  }

  /** With `x` left out, the sorted result is the same up to one place.  Before that place are at least
      the elements that precede `x` and are not newer; from it on at least the later ones that are not
      older. */
  lemma {:induction false} SortWithout<T(!new)>(a: seq<T>, x: T, b: seq<T>, key: T -> Timestamp) returns (p: nat)
    ensures Splits(Sort(a + b, key), p, x, key)
    ensures Sort(a + [x] + b, key) == InsertAt(Sort(a + b, key), p, x)
    ensures Count(a, key(x), true, key) <= p
    ensures Count(b, key(x), false, key) <= |a| + |b| - p
  {
    if b == [] {
      assert a + b == a && a + [x] + b == a + [x];
      p := SortWithoutLast(a, x, key);
    } else {
      var m := |b| - 1;
      var q := SortWithout(a, x, b[..m], key);
      BeforeLast(a + [x], b);
      BeforeLast(a, b);
      SortSnoc(a + [x] + b[..m], b[m], key);
      SortSnoc(a + b[..m], b[m], key);
      SortSorts(a + b[..m], key);
      p := InsertWithout(Sort(a + b[..m], key), q, x, b[m], key);
    }
  }

  lemma InsertWithout<T(!new)>(u: seq<T>, q: nat, x: T, y: T, key: T -> Timestamp) returns (p: nat)
    requires Sorted(u, key) && Splits(u, q, x, key)
    ensures p == (if Leq(key(x), key(y)) then q else q + 1) && Splits(Insert(u, y, key), p, x, key)
    ensures Insert(InsertAt(u, q, x), y, key) == InsertAt(Insert(u, y, key), p, x)
  {
    if Leq(key(x), key(y)) {
      p := q;
      InsertAfterX(u, q, x, y, key);
    } else {
      p := q + 1;
      InsertBeforeX(u, q, x, y, key);
    }
  }

  /** An element that comes after `k` elements that are not newer is not among the first `k`. */
  lemma {:induction false} FirstsWithout<T(!new)>(a: seq<T>, x: T, b: seq<T>, k: nat, key: T -> Timestamp)
    requires Count(a, key(x), true, key) >= k
    ensures k <= |a| + |b| && Sort(a + [x] + b, key)[..k] == Sort(a + b, key)[..k]
  {
    var p := SortWithout(a, x, b, key);
    InsertAtKeepsFirsts(Sort(a + b, key), p, x, k);
  }

  lemma InsertAtKeepsFirsts<T>(s: seq<T>, p: nat, x: T, k: nat)
    requires k <= p <= |s|
    ensures InsertAt(s, p, x)[..k] == s[..k]
  {
  }

  lemma SortWithoutLast<T(!new)>(a: seq<T>, x: T, key: T -> Timestamp) returns (p: nat)
    ensures Splits(Sort(a, key), p, x, key)
    ensures Sort(a + [x], key) == InsertAt(Sort(a, key), p, x)
    ensures Count(a, key(x), true, key) <= p
  {
    var u := Sort(a, key);
    assert (a + [x])[..|a|] == a;
    p := Position(u, x, key);
    SortSorts(a, key);
    PositionSplits(u, x, key);
    CountSorted(u, key(x), p, key);
    CountOfSort(a, key(x), key);
    forall i | p <= i < |u| ensures Leq(key(x), key(u[i])) {
      Total(key(x), key(u[i]));
    }
  }

  lemma InsertBetween<T>(a: seq<T>, b: seq<T>, p: nat, x: T)
    requires p == |a|
    ensures InsertAt(a + b, p, x) == a + [x] + b
  {
    assert (a + b)[..p] == a && (a + b)[p..] == b;
  }

  lemma InsertTwo<T>(a: seq<T>, b: seq<T>, c: seq<T>, x: T, y: T, q: nat, r: nat)
    requires q == |a| && r == |a + b|
    ensures InsertAt(InsertAt(a + b + c, q, x), r + 1, y) == a + [x] + b + [y] + c
    ensures InsertAt(InsertAt(a + b + c, r, y), q, x) == a + [x] + b + [y] + c
  {
    assert a + b + c == a + (b + c);
    InsertBetween(a, b + c, q, x);
    assert a + [x] + (b + c) == (a + [x] + b) + c;
    InsertBetween(a + [x] + b, c, r + 1, y);
    InsertBetween(a + b, c, r, y);
    assert a + b + [y] + c == a + (b + [y] + c);
    InsertBetween(a, b + [y] + c, q, x);
    assert a + [x] + (b + [y] + c) == a + [x] + b + [y] + c;
  }

  lemma InsertAtCommutes<T>(u: seq<T>, q: nat, x: T, r: nat, y: T)
    requires q <= |u| && r <= |u|
    ensures q <= r ==> InsertAt(InsertAt(u, q, x), r + 1, y) == InsertAt(InsertAt(u, r, y), q, x)
    ensures r <= q ==> InsertAt(InsertAt(u, q, x), r, y) == InsertAt(InsertAt(u, r, y), q + 1, x)
  {
    if q <= r {
      assert u == u[..q] + u[q..r] + u[r..];
      InsertTwo(u[..q], u[q..r], u[r..], x, y, q, r);
    }
    if r <= q {
      assert u == u[..r] + u[r..q] + u[q..];
      InsertTwo(u[..r], u[r..q], u[q..], y, x, r, q);
    }
  }

  lemma SplitKeepsSorted<T(!new)>(u: seq<T>, q: nat, x: T, key: T -> Timestamp)
    requires Sorted(u, key) && Splits(u, q, x, key)
    ensures Sorted(InsertAt(u, q, x), key)
  {
    var v := InsertAt(u, q, x);
    forall i, j | 0 <= i < j < |v| ensures Leq(key(v[i]), key(v[j])) {
      if i < q < j {
        Transitive(key(v[i]), key(x), key(v[j]));
      }
    }
  }

  lemma SplitsAfterInsertAt<T(!new)>(u: seq<T>, q: nat, x: T, r: nat, y: T, key: T -> Timestamp)
    requires Splits(u, q, x, key) && r <= |u|
    ensures q <= r && Leq(key(x), key(y)) ==> Splits(InsertAt(u, r, y), q, x, key)
    ensures r <= q && Leq(key(y), key(x)) ==> Splits(InsertAt(u, r, y), q + 1, x, key)
  {
  }

  /** Inserting a `y` that is not older than `x` into a sorted sequence with and without `x`. */
  lemma InsertAfterX<T(!new)>(u: seq<T>, q: nat, x: T, y: T, key: T -> Timestamp)
    requires Sorted(u, key) && Splits(u, q, x, key) && Leq(key(x), key(y))
    ensures Insert(InsertAt(u, q, x), y, key) == InsertAt(Insert(u, y, key), q, x)
    ensures Splits(Insert(u, y, key), q, x, key)
  {
    var v, r := InsertAt(u, q, x), Position(u, y, key);
    SplitKeepsSorted(u, q, x, key);
    PositionSplits(u, y, key);
    if r < q {
      assert Leq(key(u[r]), key(x));
      Transitive(key(u[r]), key(x), key(y));
      assert false;
    }
    PositionIs(v, y, r + 1, key);
    InsertAtCommutes(u, q, x, r, y);
    SplitsAfterInsertAt(u, q, x, r, y, key);
  }

  /** Inserting a `y` that is older than `x`. */
  lemma InsertBeforeX<T(!new)>(u: seq<T>, q: nat, x: T, y: T, key: T -> Timestamp)
    requires Sorted(u, key) && Splits(u, q, x, key) && Less(key(y), key(x))
    ensures Insert(InsertAt(u, q, x), y, key) == InsertAt(Insert(u, y, key), q + 1, x)
    ensures Splits(Insert(u, y, key), q + 1, x, key)
  {
    var v, r := InsertAt(u, q, x), Position(u, y, key);
    SplitKeepsSorted(u, q, x, key);
    PositionSplits(u, y, key);
    if r > q {
      assert Leq(key(x), key(u[q]));
      Transitive(key(x), key(u[q]), key(y));
      assert false;
    }
    PositionIs(v, y, r, key);
    InsertAtCommutes(u, q, x, r, y);
    Total(key(y), key(x));
    SplitsAfterInsertAt(u, q, x, r, y, key);
  }

  /** The position is the only place that splits the sequence in this way. */
  lemma {:induction false} PositionIs<T(!new)>(s: seq<T>, x: T, p: nat, key: T -> Timestamp)
    requires Sorted(s, key) && p <= |s|
    requires forall i | 0 <= i < p :: Leq(key(s[i]), key(x))
    requires forall i | p <= i < |s| :: Less(key(x), key(s[i]))
    ensures Position(s, x, key) == p
  {
    if p < |s| {
      PositionIs(s[..|s| - 1], x, p, key);
    }
  }
}
