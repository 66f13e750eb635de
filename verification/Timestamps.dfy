/** Timestamps are strings in one total order: lexicographic by code unit.  For timestamps of one fixed
    format this is also what byte order and `localeCompare` give. */
module Timestamps {
  type Timestamp = string

  predicate Leq(a: Timestamp, b: Timestamp) {
    || a == []
    || (b != [] && (a[0] < b[0] || (a[0] == b[0] && Leq(a[1..], b[1..]))))
  }

  predicate Less(a: Timestamp, b: Timestamp) {
    !Leq(b, a)
  }

  lemma {:induction false} Reflexive(a: Timestamp)
    ensures Leq(a, a)
  {
    if a != [] {
      Reflexive(a[1..]);
    }
  }

  lemma {:induction false} Total(a: Timestamp, b: Timestamp)
    ensures Leq(a, b) || Leq(b, a)
  {
    if a != [] && b != [] {
      Total(a[1..], b[1..]);
    }
  }

  lemma {:induction false} AntiSymmetric(a: Timestamp, b: Timestamp)
    requires Leq(a, b) && Leq(b, a)
    ensures a == b
  {
    if a != [] {
      AntiSymmetric(a[1..], b[1..]);
      assert a == [a[0]] + a[1..] && b == [b[0]] + b[1..];
    }
  }

  lemma {:induction false} Transitive(a: Timestamp, b: Timestamp, c: Timestamp)
    requires Leq(a, b) && Leq(b, c)
    ensures Leq(a, c)
  {
    if a != [] && a[0] == b[0] == c[0] {
      Transitive(a[1..], b[1..], c[1..]);
    }
  }

  /** Heads of one length decide first. */
  lemma {:induction false} HeadsFirst(a: string, b: string, m: string, n: string)
    requires |a| == |b|
    ensures Leq(a + m, b + n) <==> (if a != b then Leq(a, b) else Leq(m, n))
  {
    if a == [] {
      assert a + m == m && b + n == n;
    } else {
      assert (a + m)[1..] == a[1..] + m && (b + n)[1..] == b[1..] + n;
      assert a == [a[0]] + a[1..] && b == [b[0]] + b[1..];
      HeadsFirst(a[1..], b[1..], m, n);
    }
  }
}
