/** The client's log window: an online, trimmed and only sometimes sorted buffer, compared with sorting
    everything that was ever received. */
module LogWindow {
  import opened Sequences
  import opened Timestamps
  import opened StableSort
  import Runs

  datatype Log = Log(timestamp: Timestamp, text: string)

  function Stamp(log: Log): Timestamp {
    log.timestamp
  }

  /** The last `m` elements, or all if there are fewer. */
  function Last<T>(s: seq<T>, m: nat): seq<T> {
    if |s| <= m then s else s[|s| - m..]
  }

  /** `s.slice(-m)`.  With `m == 0` this is the whole array. */
  function SliceFromEnd<T>(s: seq<T>, m: int): seq<T> {
    if m > 0 then Last(s, m) else if -m <= |s| then s[-m..] else []
  }

  /** The window, the boundary of its newest batch, and what waits for the next animation frame. */
  datatype Window = Window(logs: seq<Log>, batchStart: nat, batch: seq<Log>, frame: bool)

  const EMPTY := Window([], 0, [], false)

  /** A batch line is older than the last line shown. */
  predicate OutOfOrder(logs: seq<Log>, batch: seq<Log>) {
    logs != [] && exists e <- batch :: Less(e.timestamp, logs[|logs| - 1].timestamp)
  }

  function Added(w: Window, log: Log): Window {
    w.(batch := w.batch + [log], frame := true)
  }

  function Flushed(w: Window, maxLines: int, sorting: bool): Window {
    if w.batch == [] then w.(frame := false)
    else
      var appended := w.logs + w.batch;
      var sorted := sorting && OutOfOrder(w.logs, w.batch);
      var next := if sorted then Sort(appended, Stamp) else appended;
      var start := if sorted then |next| else |w.logs|;
      if |next| > maxLines then
        var shifted := start - (|next| - maxLines);
        Window(SliceFromEnd(next, maxLines), if shifted < 0 then 0 else shifted, [], false)
      else Window(next, start, [], false)
  }

  // ---------------------------------------------------------------------------------------------
  // Last elements
  // ---------------------------------------------------------------------------------------------

  lemma LastOfTwo<T>(a: seq<T>, b: seq<T>, m: nat)
    ensures m <= |b| ==> Last(a + b, m) == Last(b, m)
    ensures m > |b| ==> Last(a + b, m) == Last(a, m - |b|) + b
  {
  }

  lemma LastOfLast<T>(a: seq<T>, m: nat, n: nat)
    requires n <= m
    ensures Last(Last(a, m), n) == Last(a, n)
  {
  }

  lemma LastOfConcat<T>(a: seq<T>, b: seq<T>, m: nat)
    ensures Last(a + b, m) == Last(Last(a, m) + b, m)
    ensures m <= |b| ==> Last(a + b, m) == Last(b, m)
    ensures m > |b| ==> Last(a + b, m) == Last(a, m - |b|) + b
  {
    LastOfTwo(a, b, m);
    LastOfTwo(Last(a, m), b, m);
    if m > |b| {
      LastOfLast(a, m, m - |b|);
    }
  }

  lemma LastOfRest<T>(s: seq<T>, m: nat)
    requires |s| > m
    ensures Last(s[1..], m) == Last(s, m)
  {
  }

  lemma LastOfInsertAt<T>(s: seq<T>, p: nat, x: T, m: nat)
    requires p + m <= |s|
    ensures Last(InsertAt(s, p, x), m) == Last(s, m)
  {
  }

  lemma InsertAtBehind<T>(h: seq<T>, s: seq<T>, p: nat, x: T)
    requires p <= |s|
    ensures InsertAt(h + s, |h| + p, x) == h + InsertAt(s, p, x)
  {
    assert (h + s)[..|h| + p] == h + s[..p];
    assert (h + s)[|h| + p..] == s[p..];
  }

  // ---------------------------------------------------------------------------------------------
  // Sorting mode
  // ---------------------------------------------------------------------------------------------

  /** The oldest of more than `m` sorted lines never reaches the last `m` again. */
  lemma {:induction false} DropOldest(h: seq<Log>, b: seq<Log>, m: nat)
    requires Sorted(h, Stamp) && |h| > m
    ensures Last(Sort(h[1..] + b, Stamp), m) == Last(Sort(h + b, Stamp), m)
  {
    var others := h[1..] + b;
    assert h + b == [] + [h[0]] + others && [] + others == others;
    var p := SortWithout([], h[0], others, Stamp);
    AtLeastTheSorted(h, b);
    LastOfInsertAt(Sort(others, Stamp), p, h[0], m);
  }

  /** Trimming before new lines arrive does not change the last `m` lines of the sorted whole. */
  lemma {:induction false} TrimBeforeSorting(h: seq<Log>, b: seq<Log>, m: nat)
    requires Sorted(h, Stamp)
    ensures Last(Sort(Last(h, m) + b, Stamp), m) == Last(Sort(h + b, Stamp), m)
    decreases |h|
  {
    if |h| > m {
      TrimBeforeSorting(h[1..], b, m);
      LastOfRest(h, m);
      DropOldest(h, b, m);
    }
  }

  lemma {:induction false} AtLeastTheSorted(h: seq<Log>, b: seq<Log>)
    requires Sorted(h, Stamp) && h != []
    ensures Count(h[1..] + b, h[0].timestamp, false, Stamp) >= |h| - 1
  {
    CountConcat(h[1..], b, h[0].timestamp, false, Stamp);
    CountAll(h[1..], h[0].timestamp, false, Stamp);
  }

  /** New lines that are not older than a sorted prefix are sorted behind it. */
  lemma {:induction false} SortBehind(h: seq<Log>, b: seq<Log>)
    requires Sorted(h, Stamp)
    requires forall x <- h, y <- b :: Leq(x.timestamp, y.timestamp)
    ensures Sort(h + b, Stamp) == h + Sort(b, Stamp)
    decreases |b|
  {
    if b == [] {
      assert h + b == h;
      SortOfSorted(h, Stamp);
    } else {
      var init, y := b[..|b| - 1], b[|b| - 1];
      SortBehind(h, init);
      assert h + b == h + init + [y] && b == init + [y];
      SortSnoc(h + init, y, Stamp);
      SortSnoc(init, y, Stamp);
      InsertBehind(h, Sort(init, Stamp), y);
    }
  }

  lemma {:induction false} PositionBehind(h: seq<Log>, s: seq<Log>, y: Log)
    requires forall x <- h :: Leq(x.timestamp, y.timestamp)
    ensures Position(h + s, y, Stamp) == |h| + Position(s, y, Stamp)
    decreases |s|
  {
    if s == [] {
      assert h + s == h;
      if h != [] {
        assert h[|h| - 1] in h;
      }
    } else {
      assert (h + s)[..|h + s| - 1] == h + s[..|s| - 1];
      PositionBehind(h, s[..|s| - 1], y);
    }
  }

  lemma InsertBehind(h: seq<Log>, s: seq<Log>, y: Log)
    requires forall x <- h :: Leq(x.timestamp, y.timestamp)
    ensures Insert(h + s, y, Stamp) == h + Insert(s, y, Stamp)
  {
    PositionBehind(h, s, y);
    InsertAtBehind(h, s, Position(s, y, Stamp), y);
  }

  /** Each of the last `m` lines of the batch is not older than any line of the batch before it. */
  predicate Settled(batch: seq<Log>, m: nat) {
    forall i, j | 0 <= i < j < |batch| && |batch| - m <= j :: Leq(batch[i].timestamp, batch[j].timestamp)
  }

  lemma HeadAndTail(batch: seq<Log>, n: nat, x: Log, y: Log)
    requires n <= |batch| && Settled(batch, |batch| - n) && x in batch[..n] && y in batch[n..]
    ensures Leq(x.timestamp, y.timestamp)
  {
    var i :| 0 <= i < n && batch[..n][i] == x;
    var j :| 0 <= j < |batch| - n && batch[n..][j] == y;
    assert batch[i] == x && batch[n + j] == y;
  }

  lemma HeadIsNotNewer(batch: seq<Log>, n: nat)
    requires n <= |batch| && Settled(batch, |batch| - n)
    ensures forall x <- Sort(batch[..n], Stamp), y <- batch[n..] :: Leq(x.timestamp, y.timestamp)
  {
    SortPermutes(batch[..n], Stamp);
    forall x <- Sort(batch[..n], Stamp), y <- batch[n..] ensures Leq(x.timestamp, y.timestamp) {
      assert x in multiset(batch[..n]);
      HeadAndTail(batch, n, x, y);
    }
  }

  lemma {:induction false} SettledKeepsTheTail(batch: seq<Log>, m: nat)
    requires Settled(batch, m)
    ensures Last(Sort(batch, Stamp), m) == Last(batch, m)
  {
    if |batch| <= m {
      SettledTailIsSorted(batch, 0);
      assert batch[0..] == batch;
      SortOfSorted(batch, Stamp);
    } else {
      var n := |batch| - m;
      SettledPair(batch, n);
    }
  }

  lemma {:induction false} SettledPair(batch: seq<Log>, n: nat)
    requires n <= |batch| && Settled(batch, |batch| - n)
    ensures Last(Sort(batch, Stamp), |batch| - n) == batch[n..]
  {
    HeadIsNotNewer(batch, n);
    SettledTailIsSorted(batch, n);
    SortedTailStays(batch[..n], batch[n..]);
    SplitAt(batch, n);
  }

  lemma SettledTailIsSorted(batch: seq<Log>, n: nat)
    requires n <= |batch| && forall i, j | 0 <= i < j < |batch| && n <= j :: Leq(batch[i].timestamp, batch[j].timestamp)
    ensures Sorted(batch[n..], Stamp)
  {
  }

  lemma {:induction false} SortedTailStays(head: seq<Log>, tail: seq<Log>)
    requires Sorted(tail, Stamp)
    requires forall x <- Sort(head, Stamp), y <- tail :: Leq(x.timestamp, y.timestamp)
    ensures Last(Sort(head + tail, Stamp), |tail|) == tail
  {
    SortPrefixFirst(head, tail, Stamp);
    SortSorts(head, Stamp);
    SortBehind(Sort(head, Stamp), tail);
    SortOfSorted(tail, Stamp);
  }

  lemma SameRestSameHead<T>(a: seq<T>, b: seq<T>, n: nat)
    requires |a| == |b| && n <= |a| && a[n..] == b[n..] && multiset(a) == multiset(b)
    ensures multiset(a[..n]) == multiset(b[..n])
  {
    assert a == a[..n] + a[n..] && b == b[..n] + b[n..];
    assert multiset(a) == multiset(a[..n]) + multiset(a[n..]);
    assert multiset(b) == multiset(b[..n]) + multiset(b[n..]);
    assert multiset(a[..n]) == multiset(a) - multiset(a[n..]);
    assert multiset(b[..n]) == multiset(b) - multiset(b[n..]);
  }

  lemma {:induction false} TailKeptOnlyWhenSettled(batch: seq<Log>, m: nat)
    requires Last(Sort(batch, Stamp), m) == Last(batch, m)
    ensures Settled(batch, m)
  {
    var r := Sort(batch, Stamp);
    SortSorts(batch, Stamp);
    SortPermutes(batch, Stamp);
    var n := if |batch| <= m then 0 else |batch| - m;
    SameRestSameHead(r, batch, n);
    forall i, j | 0 <= i < j < |batch| && n <= j ensures Leq(batch[i].timestamp, batch[j].timestamp) {
      assert batch[n..][j - n] == r[n..][j - n];
      var k := FindBefore(r, batch, n, i);
      assert Leq(Stamp(r[k]), Stamp(r[j]));
    }
  }

  lemma FindBefore(r: seq<Log>, batch: seq<Log>, n: nat, i: nat) returns (k: nat)
    requires |r| == |batch| && n <= |r| && multiset(r[..n]) == multiset(batch[..n]) && r[n..] == batch[n..] && i < |r|
    ensures k < |r| && r[k] == batch[i] && (if i < n then k < n else k == i)
  {
    k := i;
    if i < n {
      assert batch[..n][i] in multiset(r[..n]);
      k :| 0 <= k < n && r[..n][k] == batch[i];
    } else {
      assert batch[n..][i - n] == r[n..][i - n];
    }
  }

  /** The window shows the last `m` lines of everything in `history`, sorted. */
  predicate ShowsSorted(w: Window, history: seq<Log>, m: nat) {
    w.logs == Last(Sort(history, Stamp), m)
  }

  lemma OutOfOrderFlush(w: Window, history: seq<Log>, m: nat)
    requires ShowsSorted(w, history, m) && w.batch != [] && OutOfOrder(w.logs, w.batch) && m > 0
    ensures ShowsSorted(Flushed(w, m, true), history + w.batch, m)
  {
    SortSorts(history, Stamp);
    TrimBeforeSorting(Sort(history, Stamp), w.batch, m);
    SortPrefixFirst(history, w.batch, Stamp);
  }

  lemma NotNewerThanLast(h: seq<Log>, x: Log)
    requires Sorted(h, Stamp) && x in h
    ensures Leq(x.timestamp, h[|h| - 1].timestamp)
  {
    var i :| 0 <= i < |h| && h[i] == x;
    if i < |h| - 1 {
      assert Leq(Stamp(h[i]), Stamp(h[|h| - 1]));
    } else {
      Reflexive(x.timestamp);
    }
  }

  lemma LastsEndAlike(h: seq<Log>, m: nat)
    requires h != [] && m > 0
    ensures Last(h, m) != [] && Last(h, m)[|Last(h, m)| - 1] == h[|h| - 1]
  {
  }

  lemma InOrder(logs: seq<Log>, batch: seq<Log>, y: Log)
    requires logs != [] && !OutOfOrder(logs, batch) && y in batch
    ensures Leq(logs[|logs| - 1].timestamp, y.timestamp)
  {
    assert !Less(y.timestamp, logs[|logs| - 1].timestamp);
  }

  lemma {:induction false} NotOlderThanHistory(w: Window, history: seq<Log>, m: nat)
    requires ShowsSorted(w, history, m) && !OutOfOrder(w.logs, w.batch) && m > 0
    ensures forall x <- Sort(history, Stamp), y <- w.batch :: Leq(x.timestamp, y.timestamp)
  {
    var h := Sort(history, Stamp);
    SortSorts(history, Stamp);
    forall x <- h, y <- w.batch ensures Leq(x.timestamp, y.timestamp) {
      LastsEndAlike(h, m);
      NotNewerThanLast(h, x);
      InOrder(w.logs, w.batch, y);
      Transitive(x.timestamp, h[|h| - 1].timestamp, y.timestamp);
    }
  }

  lemma InOrderFlush(w: Window, history: seq<Log>, m: nat)
    requires ShowsSorted(w, history, m) && w.batch != [] && !OutOfOrder(w.logs, w.batch) && m > 0
    ensures ShowsSorted(Flushed(w, m, true), history + w.batch, m) <==> Settled(w.batch, m)
  {
    var h, b := Sort(history, Stamp), w.batch;
    SortSorts(history, Stamp);
    NotOlderThanHistory(w, history, m);
    SortPrefixFirst(history, b, Stamp);
    SortBehind(h, b);
    assert Flushed(w, m, true).logs == Last(w.logs + b, m);
    LastOfConcat(h, b, m);
    LastOfConcat(h, Sort(b, Stamp), m);
    SameTails(h, b, Sort(b, Stamp), m);
    if Settled(b, m) {
      SettledKeepsTheTail(b, m);
    }
    if Last(Sort(b, Stamp), m) == Last(b, m) {
      TailKeptOnlyWhenSettled(b, m);
    }
  }

  lemma SameTails(h: seq<Log>, b: seq<Log>, c: seq<Log>, m: nat)
    requires |b| == |c|
    ensures Last(h + b, m) == Last(h + c, m) <==> Last(b, m) == Last(c, m)
  {
    LastOfConcat(h, b, m);
    LastOfConcat(h, c, m);
    if m > |b| && Last(h + b, m) == Last(h + c, m) {
      var head := Last(h, m - |b|);
      assert (head + b)[|head|..] == b && (head + c)[|head|..] == c;
    }
  }

  /** A flush keeps the window right exactly when it sorts, or the batch is settled. */
  lemma FlushKeepsTheWindow(w: Window, history: seq<Log>, m: nat)
    requires ShowsSorted(w, history, m) && m > 0
    ensures ShowsSorted(Flushed(w, m, true), history + w.batch, m)
       <==> OutOfOrder(w.logs, w.batch) || Settled(w.batch, m)
  {
    if w.batch == [] {
      assert history + w.batch == history;
    } else if OutOfOrder(w.logs, w.batch) {
      OutOfOrderFlush(w, history, m);
    } else {
      InOrderFlush(w, history, m);
    }
  }

  // ---------------------------------------------------------------------------------------------
  // Runs
  // ---------------------------------------------------------------------------------------------

  datatype Event = Add(log: Log) | Frame | Clear

  function Step(w: Window, e: Event, maxLines: int, sorting: bool): Window {
    match e
    case Add(log) => Added(w, log)
    case Frame => if w.frame then Flushed(w, maxLines, sorting) else w  // no flush is scheduled
    case Clear => EMPTY
  }

  function Play(events: seq<Event>, maxLines: int, sorting: bool): Window {
    if events == [] then EMPTY
    else Step(Play(events[..|events| - 1], maxLines, sorting), events[|events| - 1], maxLines, sorting)
  }

  /** The lines that arrived since the last clear. */
  function Arrivals(events: seq<Event>): seq<Log> {
    if events == [] then []
    else
      var before := Arrivals(events[..|events| - 1]);
      match events[|events| - 1]
      case Add(log) => before + [log]
      case Frame => before
      case Clear => []
  }

  /** Those of them that arrived before the last frame. */
  function Received(events: seq<Event>): seq<Log> {
    if events == [] then []
    else
      match events[|events| - 1]
      case Add(_) => Received(events[..|events| - 1])
      case Frame => Arrivals(events)
      case Clear => []
  }

  /** Those that arrived after it. */
  function Waiting(events: seq<Event>): (waiting: seq<Log>)
    ensures Received(events) + waiting == Arrivals(events)
  {
    if events == [] then []
    else
      match events[|events| - 1]
      case Add(log) => Waiting(events[..|events| - 1]) + [log]
      case Frame => []
      case Clear => []
  }

  /** The last lines that a frame has received together. */
  function Newest(events: seq<Event>): seq<Log> {
    if events == [] then []
    else
      var init := events[..|events| - 1];
      match events[|events| - 1]
      case Add(_) => Newest(init)
      case Frame => if Waiting(init) == [] then Newest(init) else Waiting(init)
      case Clear => []
  }

  /** In every run the batch is what arrived since the last frame, and a flush is scheduled exactly when there is
      something to flush: no line is lost, and the first line after a flush schedules the next one. */
  lemma {:induction false} BatchIsWhatWaits(events: seq<Event>, maxLines: int, sorting: bool)
    ensures var w := Play(events, maxLines, sorting);
            w.batch == Waiting(events) && (w.frame <==> Waiting(events) != [])
  {
    if events != [] {
      BatchIsWhatWaits(events[..|events| - 1], maxLines, sorting);
    }
  }

  /** A frame turns what waits into what was received, and what the window makes of it is a flush. */
  lemma {:induction false} FrameFlushes(init: seq<Event>, maxLines: int, sorting: bool)
    ensures var w, events := Play(init, maxLines, sorting), init + [Frame];
            && Received(events) == Received(init) + Waiting(init)
            && Play(events, maxLines, sorting).logs == Flushed(w, maxLines, sorting).logs
            && (Waiting(init) == [] ==> Play(events, maxLines, sorting).logs == w.logs)
  {
    assert (init + [Frame])[..|init|] == init;
    BatchIsWhatWaits(init, maxLines, sorting);
  }

  ghost predicate RightAt(events: seq<Event>, m: nat, n: nat) {
    n <= |events| ==> ShowsSorted(Play(events[..n], m, true), Received(events[..n]), m)
  }

  /** What the flush that is about to happen needs: it sorts, or what arrived is settled. */
  predicate SoundAt(events: seq<Event>, m: nat, n: nat) {
    n < |events| && events[n] == Frame ==>
      OutOfOrder(Play(events[..n], m, true).logs, Waiting(events[..n])) || Settled(Waiting(events[..n]), m)
  }

  lemma StepKeepsTheWindow(events: seq<Event>, m: nat, n: nat)
    requires m > 0 && n < |events| && RightAt(events, m, n)
    ensures RightAt(events, m, n + 1) <==> SoundAt(events, m, n)
  {
    var init := events[..n];
    assert events[..n + 1] == init + [events[n]] && events[..n + 1][..n] == init;
    if events[n] == Frame {
      BatchIsWhatWaits(init, m, true);
      FrameFlushes(init, m, true);
      FlushKeepsTheWindow(Play(init, m, true), Received(init), m);
    } else if events[n] == Clear {
      assert Sort([], Stamp) == [];
    }
  }

  /** In sorting mode the window shows, in every state of a run, the last `m` lines of the stable sort of
      everything received since the last clear, if and only if every flush sorts or has settled arrivals. */
  lemma WindowIsTheSortedTail(events: seq<Event>, m: nat)
    requires m > 0
    ensures (forall n: nat | n <= |events| :: RightAt(events, m, n))
       <==> (forall n: nat | n < |events| :: SoundAt(events, m, n))
  {
    assert RightAt(events, m, 0) by {
      assert events[..0] == [];
    }
    forall n: nat | n < |events| && RightAt(events, m, n) ensures RightAt(events, m, n + 1) <==> SoundAt(events, m, n) {
      StepKeepsTheWindow(events, m, n);
    }
    var good := (n: nat) => RightAt(events, m, n);
    var allowed := (n: nat) => SoundAt(events, m, n);
    Runs.GoodExactlyWhileAllowed(good, allowed, |events|);
    forall n: nat ensures good(n) <==> RightAt(events, m, n) {}
    forall n: nat ensures allowed(n) <==> SoundAt(events, m, n) {}
  }

  ghost predicate SortedFlushAt(events: seq<Event>, n: nat) {
    n < |events| && events[n] == Frame ==> Sorted(Waiting(events[..n]), Stamp)
  }

  /** In particular when what arrives between frames is sorted in itself. */
  lemma {:induction false} SortedBatchesKeepTheWindow(events: seq<Event>, m: nat)
    requires m > 0 && forall n: nat | n < |events| :: SortedFlushAt(events, n)
    ensures Play(events, m, true).logs == Last(Sort(Received(events), Stamp), m)
  {
    forall n: nat | n < |events| ensures SoundAt(events, m, n) {
      assert SortedFlushAt(events, n);
    }
    WindowIsTheSortedTail(events, m);
    assert events[..|events|] == events && RightAt(events, m, |events|);
  }

  /** Without sorting the window shows the last `m` lines received, and from `batchStart` on exactly what is left
      of the newest ones. */
  lemma {:induction false} UnsortedWindowIsTheTail(events: seq<Event>, m: nat)
    requires m > 0
    ensures var w := Play(events, m, false);
            && w.logs == Last(Received(events), m)
            && w.batchStart <= |w.logs|
            && w.logs[w.batchStart..] == Last(Newest(events), m)
  {
    if events != [] {
      var init := events[..|events| - 1];
      UnsortedWindowIsTheTail(init, m);
      BatchIsWhatWaits(init, m, false);
      LastOfConcat(Received(init), Waiting(init), m);
    }
  }

  /** In both modes a flush that sorts leaves no newest lines to mark, and any other marks what is left of the batch. */
  lemma FlushMarksTheBatch(w: Window, m: nat, sorting: bool)
    requires m > 0 && w.batch != []
    ensures var r := Flushed(w, m, sorting);
            && r.batchStart <= |r.logs|
            && r.logs[r.batchStart..] == if sorting && OutOfOrder(w.logs, w.batch) then [] else Last(w.batch, m)
  {
  }

  /** With `maxLines == 0` nothing is ever trimmed. */
  lemma {:induction false} ZeroMaxLinesTrimsNothing(events: seq<Event>)
    ensures Play(events, 0, false).logs == Received(events)
  {
    if events != [] {
      var init := events[..|events| - 1];
      ZeroMaxLinesTrimsNothing(init);
      BatchIsWhatWaits(init, 0, false);
    }
  }

  lemma {:induction false} PlaySnoc(events: seq<Event>, e: Event, maxLines: int, sorting: bool)
    ensures Play(events + [e], maxLines, sorting) == Step(Play(events, maxLines, sorting), e, maxLines, sorting)
  {
    assert (events + [e])[..|events|] == events;
  }

  lemma {:induction false} TwoLinesAndAFrame(x: Log, y: Log, m: nat)
    requires m >= 2
    ensures Play([Add(x), Add(y), Frame], m, true).logs == [x, y]
  {
    assert [] + [Add(x)] == [Add(x)] && [Add(x)] + [Add(y)] == [Add(x), Add(y)];
    assert [Add(x), Add(y)] + [Frame] == [Add(x), Add(y), Frame];
    PlaySnoc([], Add(x), m, true);
    PlaySnoc([Add(x)], Add(y), m, true);
    PlaySnoc([Add(x), Add(y)], Frame, m, true);
  }

  /** The first batch is never sorted: two lines arriving out of order stay so. */
  lemma UnsettledFirstBatchStaysUnsorted()
    ensures var logs := Play([Add(Log("b", "")), Add(Log("a", "")), Frame], 5000, true).logs;
            logs == [Log("b", ""), Log("a", "")] && !Sorted(logs, Stamp)
  {
    var logs := [Log("b", ""), Log("a", "")];
    TwoLinesAndAFrame(logs[0], logs[1], 5000);
    assert !Leq(Stamp(logs[0]), Stamp(logs[1]));
  }

  // ---------------------------------------------------------------------------------------------
  // The hook as the object it is
  // ---------------------------------------------------------------------------------------------

  class LogBuffer {
    const maxLines: int
    const sortByTimestamp: bool
    var logs: seq<Log>
    var batch: seq<Log>
    var raf: nat          // animation frame handle, 0 when none is pending
    var batchStart: nat

    ghost function State(): Window
      reads this
    {
      Window(logs, batchStart, batch, raf != 0)
    }

    constructor (maxLines: int, sortByTimestamp: bool)
      ensures State() == EMPTY && this.maxLines == maxLines && this.sortByTimestamp == sortByTimestamp
    {
      this.maxLines, this.sortByTimestamp := maxLines, sortByTimestamp;
      logs, batch, raf, batchStart := [], [], 0, 0;
    }

    /** `handle` is what requestAnimationFrame returns, if it is called. */
    method AddLog(log: Log, handle: nat)
      requires handle > 0
      modifies this`batch, this`raf
      ensures State() == Added(old(State()), log)
    {
      batch := batch + [log];
      if raf == 0 {
        raf := handle;
      }
    }

    method FlushBatch()
      modifies this
      ensures State() == Flushed(old(State()), maxLines, sortByTimestamp)
    {
      raf := 0;
      var arrived := batch;
      if |arrived| == 0 {
        return;
      }
      batch := [];
      var prev := logs;
      batchStart := |prev|;
      var next := prev + arrived;
      if sortByTimestamp && |prev| > 0 && exists e <- arrived :: Less(e.timestamp, prev[|prev| - 1].timestamp) {
        next := Sort(next, Stamp);
        batchStart := |next|;
      }
      if |next| > maxLines {
        var shifted := batchStart - (|next| - maxLines);
        batchStart := if shifted < 0 then 0 else shifted;
        next := SliceFromEnd(next, maxLines);
      }
      logs := next;
    }

    method ClearLogs()
      modifies this
      ensures State() == EMPTY
    {
      batch := [];
      batchStart := 0;
      if raf != 0 {
        raf := 0;
      }
      logs := [];
    }
  }
}
