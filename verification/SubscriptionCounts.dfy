/** Reference counting of upstream subscriptions in the gateway.

    A `Ledger` adds to a table of counts what the callers hold (one wrapper per subscribe call) and what was
    announced upstream, so that the counts can be compared with the wrappers that are still in use. */
module SubscriptionCounts {
  import opened ReferenceCounts
  import Runs

  // ---------------------------------------------------------------------------------------------
  // Runs of subscribe and return calls
  // ---------------------------------------------------------------------------------------------

  datatype Wrapper = Wrapper(key: Key, returned: bool)
  datatype Signal = Signal(key: Key, on: bool)
  datatype Call = Subscribe(key: Key) | Return(wrapper: nat)
  datatype Ledger = Ledger(counts: Counts, wrappers: seq<Wrapper>, sent: seq<Signal>)

  const FRESH := Ledger(map[], [], [])

  /** One call.  `return` on a wrapper may be called any number of times and releases every time. */
  function Step(l: Ledger, call: Call): Ledger {
    match call
    case Subscribe(key) =>
      var (counts, first) := Retain(l.counts, key);
      Ledger(counts, l.wrappers + [Wrapper(key, false)], if first then l.sent + [Signal(key, true)] else l.sent)
    case Return(w) =>
      if w >= |l.wrappers| then l  // nobody holds such a wrapper
      else
        var key := l.wrappers[w].key;
        var (counts, last) := Release(l.counts, key);
        Ledger(counts, l.wrappers[w := Wrapper(key, true)], if last then l.sent + [Signal(key, false)] else l.sent)
  }

  function Play(calls: seq<Call>): Ledger {
    if calls == [] then FRESH else Step(Play(calls[..|calls| - 1]), calls[|calls| - 1])
  }

  function CountOf(l: Ledger, key: Key): nat {
    if key in l.counts then l.counts[key] else 0
  }

  /** The number of wrappers for `key` that have not been returned yet. */
  function Live(wrappers: seq<Wrapper>, key: Key): nat {
    if wrappers == [] then 0
    else
      var last := wrappers[|wrappers| - 1];
      Live(wrappers[..|wrappers| - 1], key) + if last.key == key && !last.returned then 1 else 0
  }

  ghost predicate Balanced(l: Ledger) {
    forall key :: CountOf(l, key) == Live(l.wrappers, key)
  }

  /** The guard a caller can check: returning twice is harmless only when nobody else holds the key. */
  ghost predicate Harmless(l: Ledger, call: Call) {
    (call.Return? && call.wrapper < |l.wrappers| && l.wrappers[call.wrapper].returned) ==>
      Live(l.wrappers, l.wrappers[call.wrapper].key) == 0
  }

  lemma {:induction false} LiveAfterReturn(wrappers: seq<Wrapper>, w: nat, key: Key)
    requires w < |wrappers|
    ensures var after := wrappers[w := Wrapper(wrappers[w].key, true)];
            Live(after, key) == Live(wrappers, key) - if wrappers[w].key == key && !wrappers[w].returned then 1 else 0
    ensures !wrappers[w].returned ==> Live(wrappers, wrappers[w].key) > 0
  {
    var n := |wrappers| - 1;
    var after := wrappers[w := Wrapper(wrappers[w].key, true)];
    if w == n {
      assert after[..n] == wrappers[..n];
    } else {
      LiveAfterReturn(wrappers[..n], w, key);
      assert after[..n] == wrappers[..n][w := Wrapper(wrappers[w].key, true)];
    }
  }

  /** One step keeps the counts equal to the live wrappers exactly when the call is harmless. */
  lemma {:induction false} StepBalance(l: Ledger, call: Call)
    requires NoZeroCounts(l.counts) && Balanced(l)
    ensures Balanced(Step(l, call)) <==> Harmless(l, call)
  {
    var after := Step(l, call);
    match call
    case Subscribe(k) =>
      forall key ensures CountOf(after, key) == Live(after.wrappers, key) {
        assert after.wrappers[..|l.wrappers|] == l.wrappers;
        assert CountOf(l, key) == Live(l.wrappers, key);
      }
    case Return(w) =>
      if w < |l.wrappers| {
        var k := l.wrappers[w].key;
        forall key
          ensures (key != k || !l.wrappers[w].returned || Live(l.wrappers, k) == 0) ==>
                  CountOf(after, key) == Live(after.wrappers, key)
        {
          LiveAfterReturn(l.wrappers, w, key);
          assert CountOf(l, key) == Live(l.wrappers, key);
        }
        LiveAfterReturn(l.wrappers, w, k);
        assert CountOf(l, k) == Live(l.wrappers, k);
        if l.wrappers[w].returned && Live(l.wrappers, k) > 0 {
          assert CountOf(after, k) != Live(after.wrappers, k);
        }
      }
  }

  lemma {:induction false} CountsNeverZero(calls: seq<Call>)
    ensures NoZeroCounts(Play(calls).counts)
  {
    if calls != [] {
      CountsNeverZero(calls[..|calls| - 1]);
    }
  }

  lemma PlayNext(calls: seq<Call>, n: nat)
    requires n < |calls|
    ensures Play(calls[..n + 1]) == Step(Play(calls[..n]), calls[n])
  {
    assert calls[..n + 1][..n] == calls[..n];
  }

  ghost predicate BalancedAt(calls: seq<Call>, n: nat) {
    n <= |calls| ==> Balanced(Play(calls[..n]))
  }

  ghost predicate HarmlessAt(calls: seq<Call>, n: nat) {
    n < |calls| ==> Harmless(Play(calls[..n]), calls[n])
  }

  lemma BalanceAfterCall(calls: seq<Call>, n: nat)
    requires n < |calls| && BalancedAt(calls, n)
    ensures BalancedAt(calls, n + 1) <==> HarmlessAt(calls, n)
  {
    PlayNext(calls, n);
    CountsNeverZero(calls[..n]);
    StepBalance(Play(calls[..n]), calls[n]);
  }

  /** Along a whole run the stored counts equal the live wrappers in every state if and only if every
      call of the run is harmless. */
  lemma CountsEqualLiveWrappers(calls: seq<Call>)
    ensures (forall n: nat | n <= |calls| :: BalancedAt(calls, n))
       <==> (forall n: nat | n < |calls| :: HarmlessAt(calls, n))
  {
    assert BalancedAt(calls, 0) by {
      assert calls[..0] == [];
    }
    forall n: nat | n < |calls| && BalancedAt(calls, n) ensures BalancedAt(calls, n + 1) <==> HarmlessAt(calls, n) {
      BalanceAfterCall(calls, n);
    }
    var good := (n: nat) => BalancedAt(calls, n);
    var allowed := (n: nat) => HarmlessAt(calls, n);
    Runs.GoodExactlyWhileAllowed(good, allowed, |calls|);
    forall n: nat ensures good(n) <==> BalancedAt(calls, n) {}
    forall n: nat ensures allowed(n) <==> HarmlessAt(calls, n) {}
  }

  predicate ReturnsOnce(calls: seq<Call>) {
    forall i, j | 0 <= i < j < |calls| && calls[i].Return? && calls[j].Return? :: calls[i].wrapper != calls[j].wrapper
  }

  /** A wrapper is marked as returned only by a `return` call on it. */
  lemma {:induction false} ReturnedByACall(calls: seq<Call>, w: nat)
    requires w < |Play(calls).wrappers| && Play(calls).wrappers[w].returned
    ensures exists i | 0 <= i < |calls| :: calls[i] == Return(w)
  {
    var m := |calls| - 1;
    var init := calls[..m];
    if calls[m] != Return(w) {
      ReturnedByACall(init, w);
      var i :| 0 <= i < m && init[i] == Return(w);
      assert calls[i] == Return(w);
    }
  }

  /** Conservation: if every wrapper is returned at most once, each key's stored count is the number of
      its wrappers still in use, and zero counts are never stored. */
  lemma {:induction false} ConservationOfReferences(calls: seq<Call>)
    requires ReturnsOnce(calls)
    ensures NoZeroCounts(Play(calls).counts)
    ensures forall key :: CountOf(Play(calls), key) == Live(Play(calls).wrappers, key)
  {
    CountsNeverZero(calls);
    forall n: nat | n < |calls| ensures HarmlessAt(calls, n) {
      if calls[n].Return? && calls[n].wrapper < |Play(calls[..n]).wrappers|
          && Play(calls[..n]).wrappers[calls[n].wrapper].returned {
        ReturnedByACall(calls[..n], calls[n].wrapper);
        assert false;
      }
    }
    CountsEqualLiveWrappers(calls);
    assert BalancedAt(calls, |calls|);
    assert calls[..|calls|] == calls;
  }

  /** Two subscribers of one key; the first returns twice, and the second is forgotten while in use. */
  lemma DoubleReturnForgetsASubscriber()
    ensures var l := Play([Subscribe("web"), Subscribe("web"), Return(0), Return(0)]);
            "web" !in l.counts && Live(l.wrappers, "web") == 1
  {
    var l := PlayFour(Subscribe("web"), Subscribe("web"), Return(0), Return(0));
    assert l.wrappers == [Wrapper("web", true), Wrapper("web", false)];
    assert l.wrappers[..1] == [Wrapper("web", true)];
    assert Live(l.wrappers[..1], "web") == 0;
  }

  lemma PlayFour(a: Call, b: Call, c: Call, d: Call) returns (l: Ledger)
    ensures l == Play([a, b, c, d]) == Step(Step(Step(Step(FRESH, a), b), c), d)
  {
    l := Play([a, b, c, d]);
    assert [a][..0] == [];
    assert Play([a]) == Step(FRESH, a);
    assert [a, b][..1] == [a];
    assert Play([a, b]) == Step(Play([a]), b);
    assert [a, b, c][..2] == [a, b];
    assert Play([a, b, c]) == Step(Play([a, b]), c);
    assert [a, b, c, d][..3] == [a, b, c];
  }

  // ---------------------------------------------------------------------------------------------
  // What is announced upstream
  // ---------------------------------------------------------------------------------------------

  /** The subscribe (true) and unsubscribe (false) announcements for one key, in order. */
  function SentFor(sent: seq<Signal>, key: Key): seq<bool> {
    if sent == [] then []
    else
      var last := sent[|sent| - 1];
      SentFor(sent[..|sent| - 1], key) + if last.key == key then [last.on] else []
  }

  /** In every run, whatever is returned how often: the announcements for a key strictly alternate,
      starting with subscribe, and the last one is a subscribe exactly while the key is counted. */
  lemma {:induction false} AnnouncementsAlternate(calls: seq<Call>, key: Key)
    ensures Alternates(SentFor(Play(calls).sent, key), key in Play(calls).counts)
  {
    if calls != [] {
      var m := |calls| - 1;
      AnnouncementsAlternate(calls[..m], key);
      CountsNeverZero(calls[..m]);
      StepAlternates(Play(calls[..m]), calls[m], key);
    }
  }

  ghost predicate Alternates(sent: seq<bool>, subscribed: bool) {
    && (forall i | 0 <= i < |sent| :: sent[i] == (i % 2 == 0))
    && (subscribed <==> |sent| % 2 == 1)
  }

  lemma {:induction false} SentForAppend(sent: seq<Signal>, signal: Signal, key: Key)
    ensures SentFor(sent + [signal], key) == SentFor(sent, key) + if signal.key == key then [signal.on] else []
  {
    assert (sent + [signal])[..|sent|] == sent;
  }

  lemma AlternatesAppend(sent: seq<bool>, subscribed: bool)
    requires Alternates(sent, subscribed)
    ensures Alternates(sent + [!subscribed], !subscribed)
  {
  }

  lemma {:induction false} StepAlternates(l: Ledger, call: Call, key: Key)
    requires NoZeroCounts(l.counts) && Alternates(SentFor(l.sent, key), key in l.counts)
    ensures var after := Step(l, call); Alternates(SentFor(after.sent, key), key in after.counts)
  {
    var before, after := SentFor(l.sent, key), Step(l, call);
    var k := if call.Subscribe? then call.key
             else if call.wrapper < |l.wrappers| then l.wrappers[call.wrapper].key
             else "";
    SentForAppend(l.sent, Signal(k, call.Subscribe?), key);
    AlternatesAppend(before, key in l.counts);
    if (key in after.counts) == (key in l.counts) {
      assert SentFor(after.sent, key) == before;
    } else {
      assert SentFor(after.sent, key) == before + [key !in l.counts];
    }
  }
}
