/** When paging loses matches: a page that ends in a tie, and files that break off. */
module LostMatches {
  import opened Options
  import opened Sequences
  import opened Timestamps
  import opened StableSort
  import opened LogLines
  import opened LogSearch
  import opened LogReader
  import opened LogHistory
  import opened ReadErrors
  import opened Paging
  import LogStats

  // ---------------------------------------------------------------------------------------------
  // How often a line comes
  // ---------------------------------------------------------------------------------------------

  function Times(s: seq<NodeLine>, x: NodeLine): nat {
    multiset(s)[x]
  }

  lemma {:induction false} TaggedTimes(lines: seq<LogLine>, name: string, x: NodeLine)
    ensures Times(Tagged(lines, name), x) == if x.node == name then multiset(lines)[x.line] else 0
  {
    if lines != [] {
      var n := |lines| - 1;
      var init, e := lines[..n], lines[n];
      TaggedTimes(init, name, x);
      TaggedSnoc(init, e, name);
      assert lines == init + [e];
    }
  }

  lemma {:induction false} FlatLast(lists: seq<seq<NodeLine>>, x: NodeLine)
    requires lists != []
    ensures Times(Flat(lists), x) == Times(Flat(lists[..|lists| - 1]), x) + Times(lists[|lists| - 1], x)
  {
  }

  lemma {:induction false} FlatTimes(a: seq<seq<NodeLine>>, b: seq<seq<NodeLine>>, x: NodeLine, k: nat)
    requires |a| == |b| && forall i | 0 <= i < |a| :: Times(a[i], x) <= Times(b[i], x)
    ensures Times(Flat(a), x) <= Times(Flat(b), x)
    ensures k < |a| && Times(a[k], x) < Times(b[k], x) ==> Times(Flat(a), x) < Times(Flat(b), x)
  {
    if a != [] {
      var n := |a| - 1;
      FlatTimes(a[..n], b[..n], x, k);
      FlatLast(a, x);
      FlatLast(b, x);
    }
  }

  lemma {:induction false} FirstsTimes(lists: seq<seq<NodeLine>>, k: nat, x: NodeLine)
    ensures Times(Flat(Firsts(lists, k)), x) <= Times(Flat(lists), x)
  {
    if lists != [] {
      var init, last := lists[..|lists| - 1], lists[|lists| - 1];
      FirstsTimes(init, k, x);
      FlatSnoc(Firsts(init, k), Take(last, k));
      TakeTimes(last, k, x);
    }
  }

  lemma TakeTimes(s: seq<NodeLine>, k: int, x: NodeLine)
    ensures Times(Take(s, k), x) <= Times(s, x)
  {
    assert s == Take(s, k) + s[|Take(s, k)|..];
  }

  // ---------------------------------------------------------------------------------------------
  // What a page can have
  // ---------------------------------------------------------------------------------------------

  /** What the nodes keep in a search with this cursor. */
  function KeptLists(h: History, cursor: Timestamp): seq<seq<NodeLine>> {
    AllHeard(h.nodes, h.name, h.params.(after := cursor), h.syntax)
  }

  lemma PageIsSorted(h: History, cursor: Timestamp)
    ensures Sorted(PageAfter(h, cursor).lines, Stamp)
  {
    SortSorts(Collected(Responses(h.nodes, h.params.(after := cursor), h.syntax), h.name), Stamp);
  }

  lemma PageTimes(h: History, cursor: Timestamp, x: NodeLine)
    requires h.params.limit > 0
    ensures Times(PageAfter(h, cursor).lines, x) <= Times(Flat(KeptLists(h, cursor)), x)
  {
    var params, lists := h.params.(after := cursor), KeptLists(h, cursor);
    var firsts := Flat(Firsts(lists, StreamerLimit(params.limit)));
    NodesAnswerExactly(h.nodes, h.name, params, h.syntax);
    MergeIsTheFirstOfFirsts(Responses(h.nodes, params, h.syntax), h.name, lists, params.limit);
    SortPermutes(firsts, Stamp);
    TakeTimes(Sort(firsts, Stamp), params.limit, x);
    FirstsTimes(lists, StreamerLimit(params.limit), x);
  }

  /** Whatever a node keeps, it lies after the cursor. */
  lemma KeptAreNewer(node: Node, params: SearchParams, cursor: Timestamp, syntax: Syntax)
    requires params.after == ""
    ensures forall l <- NodeMatches(node, params.(after := cursor), syntax) :: IsNewer(Stamp(l), cursor)
  {
    var p, q := Request(params), Request(params.(after := cursor));
    var files := Kept(node.files, q, syntax);
    LogStats.MatchesAreFilteredEntries(files, q, syntax);
    assert q == p.(after := cursor);
    FilterWithCursor(LogStats.AllEntries(files, syntax), node.name, p, cursor);
    NewerElements(Tagged(Filter(LogStats.AllEntries(files, syntax), p), node.name), cursor);
  }

  lemma {:induction false} InSomeList(lists: seq<seq<NodeLine>>, x: NodeLine) returns (i: nat)
    requires x in Flat(lists)
    ensures i < |lists| && x in lists[i]
  {
    var n := |lists| - 1;
    if x in lists[n] {
      i := n;
    } else {
      i := InSomeList(lists[..n], x);
    }
  }

  lemma PageIsNewer(h: History, cursor: Timestamp, x: NodeLine)
    requires h.params.limit > 0 && h.params.after == "" && x in PageAfter(h, cursor).lines
    ensures IsNewer(Stamp(x), cursor)
  {
    PageTimes(h, cursor, x);
    assert x in multiset(Flat(KeptLists(h, cursor)));
    var i := InSomeList(KeptLists(h, cursor), x);
    KeptAreNewer(Heard(h.nodes, h.name, SearchEndpoint)[i], h.params, cursor, h.syntax);
  }

  lemma NodeKeepsNoMore(node: Node, params: SearchParams, later: Timestamp, syntax: Syntax, x: NodeLine)
    requires params.after == ""
    ensures Times(NodeMatches(node, params.(after := later), syntax), x)
         <= Times(OpenedMatches(node, params, syntax), x)
  {
    var p, q := Request(params), Request(params.(after := later));
    assert q == p.(after := later);
    KeptAreOpened(node.files, p, later, syntax);
    TaggedTimes(AllMatches(Kept(node.files, q, syntax), q, syntax), node.name, x);
    TaggedTimes(AllMatches(Opened(node.files), p, syntax), node.name, x);
  }

  lemma PageIsOfTheWhole(h: History, cursor: Timestamp, x: NodeLine)
    requires h.params.limit > 0 && h.params.after == ""
    ensures Times(PageAfter(h, cursor).lines, x) <= Times(Whole(h), x)
  {
    var kept, lists, heard := KeptLists(h, cursor), Lists(h), Heard(h.nodes, h.name, SearchEndpoint);
    PageTimes(h, cursor, x);
    forall i | 0 <= i < |kept| ensures Times(kept[i], x) <= Times(lists[i], x) {
      NodeKeepsNoMore(heard[i], h.params, cursor, h.syntax, x);
    }
    FlatTimes(kept, lists, x, 0);
    SortPermutes(Flat(lists), Stamp);
  }

  // ---------------------------------------------------------------------------------------------
  // Dropped matches stay lost
  // ---------------------------------------------------------------------------------------------

  /** A page for this cursor or a later one has `x` less often than the whole. */
  ghost predicate Lost(h: History, cursor: Timestamp, x: NodeLine) {
    forall later: Timestamp | NotBefore(later, cursor) :: TimesOnPage(h, later, x) < Times(Whole(h), x)
  }

  ghost function TimesOnPage(h: History, cursor: Timestamp, x: NodeLine): nat {
    Times(PageAfter(h, cursor).lines, x)
  }

  lemma NodeLoses(node: Node, params: SearchParams, cursor: Timestamp, later: Timestamp, syntax: Syntax, x: LogLine)
    requires params.after == "" && NotBefore(later, cursor)
    requires Loses(node.files, Request(params), cursor, syntax, x)
    ensures Times(NodeMatches(node, params.(after := later), syntax), NodeLine(x, node.name))
          < Times(OpenedMatches(node, params, syntax), NodeLine(x, node.name))
  {
    var p, q := Request(params), Request(params.(after := later));
    assert q == p.(after := later);
    assert KeptTimes(node.files, p, later, syntax, x) < multiset(AllMatches(Opened(node.files), p, syntax))[x];
    TaggedTimes(AllMatches(Kept(node.files, q, syntax), q, syntax), node.name, NodeLine(x, node.name));
    TaggedTimes(AllMatches(Opened(node.files), p, syntax), node.name, NodeLine(x, node.name));
  }

  lemma PageLoses(h: History, heard: seq<Node>, k: nat, cursor: Timestamp, later: Timestamp, x: LogLine)
    requires h.params.limit > 0 && h.params.after == "" && NotBefore(later, cursor)
    requires heard == Heard(h.nodes, h.name, SearchEndpoint) && k < |heard|
    requires Loses(heard[k].files, Request(h.params), cursor, h.syntax, x)
    ensures TimesOnPage(h, later, NodeLine(x, heard[k].name)) < Times(Whole(h), NodeLine(x, heard[k].name))
  {
    var kept, lists, line := KeptLists(h, later), Lists(h), NodeLine(x, heard[k].name);
    PageTimes(h, later, line);
    forall i | 0 <= i < |kept| ensures Times(kept[i], line) <= Times(lists[i], line) {
      NodeKeepsNoMore(heard[i], h.params, later, h.syntax, line);
    }
    NodeLoses(heard[k], h.params, cursor, later, h.syntax, x);
    FlatTimes(kept, lists, line, k);
    SortPermutes(Flat(lists), Stamp);
  }

  /** If a request drops matches, then one of those after its cursor is lost for this page and all later ones. */
  lemma DroppedIsLost(h: History, cursor: Timestamp) returns (line: NodeLine)
    requires h.params.limit > 0 && h.params.after == "" && !Steady(h, cursor)
    ensures IsNewer(Stamp(line), cursor) && Lost(h, cursor, line)
  {
    var heard := Heard(h.nodes, h.name, SearchEndpoint);
    var node :| node in heard && DropsMatches(node.files, Request(h.params.(after := cursor)), h.syntax);
    var k :| 0 <= k < |heard| && heard[k] == node;
    assert Request(h.params.(after := cursor)) == Request(h.params).(after := cursor);
    var x := DroppedMatch(node.files, Request(h.params), cursor, h.syntax);
    line := NodeLine(x, node.name);
    forall later: Timestamp | NotBefore(later, cursor) ensures TimesOnPage(h, later, line) < Times(Whole(h), line) {
      PageLoses(h, heard, k, cursor, later, x);
    }
  }

  lemma LastIsLatest(lines: seq<NodeLine>, x: NodeLine)
    requires Sorted(lines, Stamp) && x in lines
    ensures Leq(Stamp(x), Stamp(lines[|lines| - 1]))
  {
    var i :| 0 <= i < |lines| && lines[i] == x;
    Reflexive(Stamp(x));
  }

  lemma LastRead(pages: seq<Page>, h: History)
    requires Reading(pages, h)
    ensures var before, page := pages[..|pages| - 1], pages[|pages| - 1];
            && page == PageAfter(h, NextCursor(before)) && Joined(pages) == Joined(before) + page.lines
            && (before != [] ==> Reading(before, h) && GoesOn(before))
  {
  }

  lemma {:induction false} LastIsNewer(h: History, cursor: Timestamp, last: NodeLine)
    requires h.params.limit > 0 && h.params.after == "" && last in PageAfter(h, cursor).lines && Stamp(last) != ""
    ensures Leq(cursor, Stamp(last))
  {
    PageIsNewer(h, cursor, last);
    Total(cursor, Stamp(last));
  }

  lemma {:induction false} CursorGrows(pages: seq<Page>, h: History)
    requires h.params.limit > 0 && h.params.after == "" && Reading(pages, h) && GoesOn(pages)
    ensures Leq(NextCursor(pages[..|pages| - 1]), NextCursor(pages))
  {
    var lines := pages[|pages| - 1].lines;
    LastRead(pages, h);
    CursorIs(pages, lines);
    LastIsNewer(h, NextCursor(pages[..|pages| - 1]), lines[|lines| - 1]);
  }

  lemma {:induction false} UpToTheLast(shown: seq<NodeLine>, lines: seq<NodeLine>, cursor: Timestamp, x: NodeLine)
    requires Sorted(lines, Stamp) && lines != [] && x in shown + lines
    requires (x in shown ==> Leq(Stamp(x), cursor)) && Leq(cursor, Stamp(lines[|lines| - 1]))
    ensures Leq(Stamp(x), Stamp(lines[|lines| - 1]))
  {
    if x in lines {
      LastIsLatest(lines, x);
    } else {
      Transitive(Stamp(x), cursor, Stamp(lines[|lines| - 1]));
    }
  }

  lemma {:induction false} OnePageFurther(pages: seq<Page>, h: History, x: NodeLine, cursor: Timestamp)
    requires h.params.limit > 0 && h.params.after == ""
    requires Reading(pages, h) && GoesOn(pages) && x in Joined(pages) && cursor == NextCursor(pages[..|pages| - 1])
    requires x in Joined(pages[..|pages| - 1]) ==> Leq(Stamp(x), cursor)
    ensures Leq(Stamp(x), NextCursor(pages))
  {
    LastRead(pages, h);
    PageIsSorted(h, cursor);
    CursorGrows(pages, h);
    UpToTheLast(Joined(pages[..|pages| - 1]), pages[|pages| - 1].lines, cursor, x);
  }

  /** The last line of a page that is gone on from is the latest shown so far. */
  lemma {:induction false} ShownUpTo(pages: seq<Page>, h: History, x: NodeLine)
    requires h.params.limit > 0 && h.params.after == ""
    requires Reading(pages, h) && GoesOn(pages) && x in Joined(pages)
    ensures Leq(Stamp(x), NextCursor(pages))
    decreases |pages|
  {
    var before := pages[..|pages| - 1];
    if x in Joined(before) {
      LastRead(pages, h);
      ShownUpTo(before, h, x);
    }
    OnePageFurther(pages, h, x, NextCursor(before));
  }

  lemma {:induction false} NewerIsNotShown(pages: seq<Page>, h: History, x: NodeLine)
    requires h.params.limit > 0 && h.params.after == ""
    requires pages == [] || (Reading(pages, h) && GoesOn(pages))
    requires Stamp(x) != "" && IsNewer(Stamp(x), NextCursor(pages))
    ensures x !in Joined(pages)
  {
    if x in Joined(pages) {
      ShownUpTo(pages, h, x);
      assert false;
    }
  }

  lemma {:induction false} CursorAdvances(pages: seq<Page>, h: History, cursor: Timestamp)
    requires h.params.limit > 0 && h.params.after == "" && Reading(pages, h) && GoesOn(pages)
    requires NotBefore(NextCursor(pages[..|pages| - 1]), cursor)
    ensures NotBefore(NextCursor(pages), cursor)
  {
    if cursor != "" {
      CursorGrows(pages, h);
      Transitive(cursor, NextCursor(pages[..|pages| - 1]), NextCursor(pages));
    }
  }

  lemma OnOnePage(shown: seq<NodeLine>, lines: seq<NodeLine>, x: NodeLine, times: nat)
    requires Times(shown, x) < times && Times(lines, x) < times && (x in lines ==> x !in shown)
    ensures Times(shown + lines, x) < times
  {
    assert x !in lines ==> multiset(lines)[x] == 0;
    assert x !in shown ==> multiset(shown)[x] == 0;
  }

  lemma LostOnPage(h: History, first: Timestamp, cursor: Timestamp, x: NodeLine)
    requires Lost(h, first, x) && NotBefore(cursor, first)
    ensures Times(PageAfter(h, cursor).lines, x) < Times(Whole(h), x)
  {
    assert TimesOnPage(h, cursor, x) < Times(Whole(h), x);
  }

  /** The pages have `x` too rarely, and the last of them was not asked for with an earlier cursor. */
  ghost predicate Missing(pages: seq<Page>, h: History, first: Timestamp, x: NodeLine)
    requires pages != []
  {
    Times(Joined(pages), x) < Times(Whole(h), x) && NotBefore(NextCursor(pages[..|pages| - 1]), first)
  }

  lemma {:induction false} MissingOnPage(pages: seq<Page>, h: History, first: Timestamp, x: NodeLine,
                                         shown: seq<NodeLine>)
    requires Reading(pages, h) && Lost(h, first, x) && shown == Joined(pages[..|pages| - 1])
    requires NotBefore(NextCursor(pages[..|pages| - 1]), first) && Times(shown, x) < Times(Whole(h), x)
    requires x in pages[|pages| - 1].lines ==> x !in shown
    ensures Missing(pages, h, first, x)
  {
    LastRead(pages, h);
    LostOnPage(h, first, NextCursor(pages[..|pages| - 1]), x);
    OnOnePage(shown, pages[|pages| - 1].lines, x, Times(Whole(h), x));
  }

  lemma {:induction false} MissingFirst(pages: seq<Page>, h: History, first: Timestamp, x: NodeLine)
    requires h.params.limit > 0 && h.params.after == "" && Reading(pages, h)
    requires first == NextCursor(pages[..|pages| - 1])
    requires Stamp(x) != "" && IsNewer(Stamp(x), first) && Lost(h, first, x)
    ensures Missing(pages, h, first, x)
  {
    ReflexiveCursor(first);
    LastRead(pages, h);
    NewerIsNotShown(pages[..|pages| - 1], h, x);
    LostOnPage(h, first, first, x);
    MissingOnPage(pages, h, first, x, Joined(pages[..|pages| - 1]));
  }

  lemma {:induction false} MissingNext(pages: seq<Page>, before: seq<Page>, h: History, first: Timestamp, x: NodeLine)
    requires h.params.limit > 0 && h.params.after == "" && Reading(pages, h)
    requires before == pages[..|pages| - 1] != [] && Missing(before, h, first, x)
    requires Stamp(x) != "" && Lost(h, first, x)
    ensures Missing(pages, h, first, x)
  {
    LastRead(pages, h);
    CursorAdvances(before, h, first);
    if x in pages[|pages| - 1].lines {
      PageIsNewer(h, NextCursor(before), x);
      NewerIsNotShown(before, h, x);
    }
    MissingOnPage(pages, h, first, x, Joined(before));
  }

  /** From the request on that loses it, a line never comes as often as it should. */
  lemma {:induction false} LostForGood(pages: seq<Page>, h: History, m: nat, first: Timestamp, x: NodeLine)
    requires h.params.limit > 0 && h.params.after == "" && Reading(pages, h)
    requires m < |pages| && first == NextCursor(pages[..m])
    requires Stamp(x) != "" && IsNewer(Stamp(x), first) && Lost(h, first, x)
    ensures Missing(pages, h, first, x)
    decreases |pages|
  {
    var before := pages[..|pages| - 1];
    if m == |pages| - 1 {
      MissingFirst(pages, h, first, x);
    } else {
      assert before[..m] == pages[..m];
      LastRead(pages, h);
      LostForGood(before, h, m, first, x);
      MissingNext(pages, before, h, first, x);
    }
  }

  lemma {:induction false} UnsteadyRequest(pages: seq<Page>, h: History) returns (m: nat)
    requires !SteadyReading(pages, h)
    ensures m < |pages| && !Steady(h, NextCursor(pages[..m]))
  {
    var n := |pages| - 1;
    if Steady(h, NextCursor(pages[..n])) {
      m := UnsteadyRequest(pages[..n], h);
      assert pages[..n][..m] == pages[..m];
    } else {
      m := n;
    }
  }

  lemma {:induction false} UnsteadyReadingLoses(pages: seq<Page>, h: History)
    requires h.params.limit > 0 && h.params.after == "" && Stamped(Whole(h))
    requires Reading(pages, h) && !SteadyReading(pages, h)
    ensures Joined(pages) != Whole(h)
  {
    var m := UnsteadyRequest(pages, h);
    var x := DroppedIsLost(h, NextCursor(pages[..m]));
    ReflexiveCursor(NextCursor(pages[..m]));
    LostOnPage(h, NextCursor(pages[..m]), NextCursor(pages[..m]), x);
    assert x in multiset(Whole(h));
    LostForGood(pages, h, m, NextCursor(pages[..m]), x);
  }

  lemma ReflexiveCursor(cursor: Timestamp)
    ensures NotBefore(cursor, cursor)
  {
    Reflexive(cursor);
  }

  // ---------------------------------------------------------------------------------------------
  // When reading is complete
  // ---------------------------------------------------------------------------------------------

  lemma {:induction false} StampedReading(pages: seq<Page>, s: seq<NodeLine>, limit: int)
    requires limit > 0 && ReadExactly(pages, s, limit) && Stamped(s) && !GoesOn(pages)
    ensures Joined(pages) == s <==> NoTieAtPageEnds(s, limit)
  {
    StampedHasNoUnstamped(s);
    ShownIsJoined(pages);
    assert s[0..] == s;
  }

  lemma {:induction false} StampedHasNoUnstamped(s: seq<NodeLine>)
    requires Stamped(s)
    ensures Unstamped(s) == 0
  {
    if s != [] {
      StampedHasNoUnstamped(s[..|s| - 1]);
    }
  }

  /** If all matches have timestamps, then reading to the end shows each of them once and in order exactly if no request
      dropped a file with matches after the cursor, and no page ended between two matches of the same timestamp. */
  lemma {:induction false} PagingOfStampedMatches(pages: seq<Page>, h: History)
    requires Pageable(h) && Reading(pages, h) && Stamped(Whole(h)) && !GoesOn(pages)
    ensures Joined(pages) == Whole(h) <==> SteadyReading(pages, h) && NoTieAtPageEnds(Whole(h), h.params.limit)
  {
    if SteadyReading(pages, h) {
      PagingIsCompleteExactly(pages, h);
      StampedReading(pages, Whole(h), h.params.limit);
    } else {
      UnsteadyReadingLoses(pages, h);
    }
  }

  /** So with distinct timestamps only read errors lose anything. */
  lemma {:induction false} PagingWithDistinctTimestamps(pages: seq<Page>, h: History)
    requires Pageable(h) && Reading(pages, h) && Stamped(Whole(h)) && !GoesOn(pages)
    requires var whole := Whole(h); forall i: nat, j: nat | i < j < |whole| :: Stamp(whole[i]) != Stamp(whole[j])
    ensures Joined(pages) == Whole(h) <==> SteadyReading(pages, h)
  {
    PagingOfStampedMatches(pages, h);
  }

  // ---------------------------------------------------------------------------------------------
  // Matches that are not shown
  // ---------------------------------------------------------------------------------------------

  lemma {:induction false} TiesAreSorted(s: seq<NodeLine>, k: Timestamp)
    requires forall i | 0 <= i < |s| :: Stamp(s[i]) == k
    ensures Sorted(s, Stamp) && Sort(s, Stamp) == s
  {
    Reflexive(k);
    SortOfSorted(s, Stamp);
  }

  lemma OneNodeIsHeard(node: Node)
    requires node.searches
    ensures Heard([node], "", SearchEndpoint) == [node]
  {
    assert [node][..0] == [] && Heard([node], "", SearchEndpoint) == [] + [node];
  }

  lemma ListOfOneNode(node: Node, params: SearchParams, syntax: Syntax)
    requires node.searches
    ensures Lists(History([node], "", params, syntax)) == [OpenedMatches(node, params, syntax)]
    ensures Flat(Lists(History([node], "", params, syntax))) == OpenedMatches(node, params, syntax)
  {
    var list := OpenedMatches(node, params, syntax);
    OneNodeIsHeard(node);
    FlatSnoc([], list);
    assert [] + [list] == [list] && [] + list == list;
  }

  lemma {:induction false} OpenedTicks(entry: LogLine, n: nat, node: Node, f: LogFile, params: SearchParams)
    requires LineOf(entry) != "" && MatchFilters(entry, params)
    requires f.opens && f.name == "app.log" && f.lines == Ticks(entry, n).lines
    requires node.name == "a" && node.files == [f]
    ensures OpenedMatches(node, params, Ticking(entry)) == Tagged(TickEntries(entry, n), "a")
  {
    var p, syntax := Request(params), Ticking(entry);
    TicksMatch(entry, n, p);
    assert Matches(f, p, syntax) == Matches(Ticks(entry, n), p, syntax);
    assert [f][..0] == [] && Opened([f]) == [] + [f];
    AllMatchesSnoc([], f, p, syntax);
    assert [] + [f] == [f] && [] + Matches(f, p, syntax) == Matches(f, p, syntax);
  }

  /** A node with such a log, which may break off. */
  function TickingHistory(entry: LogLine, n: nat, breaks: bool, params: SearchParams): History {
    History([Node("a", [Ticks(entry, n).(breaks := breaks)], true, true)], "", params, Ticking(entry))
  }

  lemma {:induction false} OneListIsPageable(h: History, list: seq<NodeLine>)
    requires 1 <= h.params.limit <= 500 && h.params.after == ""
    requires Lists(h) == [list] && Flat(Lists(h)) == list && Sorted(list, Stamp) && Sort(list, Stamp) == list
    ensures Pageable(h) && Whole(h) == list
  {
  }

  lemma {:induction false} ListOfTicks(entry: LogLine, n: nat, breaks: bool, params: SearchParams)
    requires LineOf(entry) != "" && MatchFilters(entry, params)
    ensures var h, list := TickingHistory(entry, n, breaks, params), Tagged(TickEntries(entry, n), "a");
            Lists(h) == [list] && Flat(Lists(h)) == list
  {
    var f := Ticks(entry, n).(breaks := breaks);
    var node := Node("a", [f], true, true);
    OpenedTicks(entry, n, node, f, params);
    ListOfOneNode(node, params, Ticking(entry));
  }

  lemma {:induction false} TicksAreSorted(entry: LogLine, n: nat)
    ensures var list := Tagged(TickEntries(entry, n), "a"); Sorted(list, Stamp) && Sort(list, Stamp) == list
  {
    TiesAreSorted(Tagged(TickEntries(entry, n), "a"), entry.timestamp);
  }

  lemma {:induction false} TicksArePageable(entry: LogLine, n: nat, breaks: bool, params: SearchParams)
    requires 1 <= params.limit <= 500 && params.after == ""
    requires LineOf(entry) != "" && MatchFilters(entry, params)
    ensures var h := TickingHistory(entry, n, breaks, params);
            Pageable(h) && Whole(h) == Tagged(TickEntries(entry, n), "a")
  {
    ListOfTicks(entry, n, breaks, params);
    TicksAreSorted(entry, n);
    OneListIsPageable(TickingHistory(entry, n, breaks, params), Tagged(TickEntries(entry, n), "a"));
  }

  lemma TicksAreSteady(entry: LogLine, n: nat, params: SearchParams, cursor: Timestamp)
    ensures Steady(TickingHistory(entry, n, false, params), cursor)
  {
    var h := TickingHistory(entry, n, false, params);
    OneNodeIsHeard(h.nodes[0]);
    UnbrokenFilesAreSteady(h, cursor);
  }

  lemma {:induction false} TwoPagesRead(h: History, line: NodeLine, first: Page, second: Page)
    requires first == PageAfter(h, "") == Page([line], true) && Stamp(line) != ""
    requires second == PageAfter(h, Stamp(line)) == Page([], false)
    ensures Reading([first, second], h) && !GoesOn([first, second]) && Joined([first, second]) == [line]
  {
    assert [first, second][..1] == [first] && [first][..0] == [];
    assert NextCursor([first]) == Stamp(line) && Reading([first], h);
    assert Joined([first]) == [] + first.lines && Joined([first, second]) == Joined([first]) + [];
  }

  lemma {:induction false} TwoPages(h: History, whole: seq<NodeLine>, k: Timestamp)
    requires Pageable(h) && h.params.limit == 1 && whole == Whole(h) && |whole| == 2 && Steady(h, "") && Steady(h, k)
    requires k != "" && forall i | 0 <= i < 2 :: Stamp(whole[i]) == k
    ensures var pages := [PageAfter(h, ""), PageAfter(h, k)];
            Reading(pages, h) && !GoesOn(pages) && |Joined(pages)| == 1
  {
    PagesAreOfTheWhole(h, "");
    PagesAreOfTheWhole(h, k);
    EmptyCursor(whole);
    NothingNewer(whole, k);
    assert whole[..1] == [whole[0]];
    TwoPagesRead(h, whole[0], PageAfter(h, ""), PageAfter(h, k));
  }

  const ONE_LINE_PAGES := SearchParams("", "", "", 1, false, t => true)

  /** One node with a log of two lines that are all like this entry, read in pages of one line. */
  function TwoTicks(entry: LogLine): History {
    TickingHistory(entry, 2, false, ONE_LINE_PAGES)
  }

  /** With one timestamp the second match is never shown. */
  lemma TieIsLost()
    ensures var h := TwoTicks(ENTRY);
            var pages := [PageAfter(h, ""), PageAfter(h, ENTRY.timestamp)];
            Reading(pages, h) && !GoesOn(pages) && |Joined(pages)| == 1 && |Whole(h)| == 2
  {
    var h := TwoTicks(ENTRY);
    TicksArePageable(ENTRY, 2, false, ONE_LINE_PAGES);
    TicksAreSteady(ENTRY, 2, ONE_LINE_PAGES, "");
    TicksAreSteady(ENTRY, 2, ONE_LINE_PAGES, ENTRY.timestamp);
    TwoPages(h, Tagged(TickEntries(ENTRY, 2), "a"), ENTRY.timestamp);
  }

  lemma {:induction false} OnePage(h: History, whole: seq<NodeLine>)
    requires Pageable(h) && h.params.limit == 1 && whole == Whole(h) && |whole| == 2 && Steady(h, "")
    requires forall i | 0 <= i < 2 :: Stamp(whole[i]) == ""
    ensures var pages := [PageAfter(h, "")];
            Reading(pages, h) && pages[0].hasMore && !GoesOn(pages) && |Joined(pages)| == 1
  {
    var page := PageAfter(h, "");
    PagesAreOfTheWhole(h, "");
    EmptyCursor(whole);
    assert page.lines == [whole[0]] && page.hasMore;
    assert [page][..0] == [] && Joined([page]) == [] + page.lines;
    assert Reading([page], h);
  }

  lemma {:induction false} TwoRawTicks(entry: LogLine, h: History)
    requires h == TwoTicks(entry) && entry.timestamp == "" && LineOf(entry) != "" && MatchFilters(entry, h.params)
    ensures Pageable(h) && h.params.limit == 1 && |Whole(h)| == 2 && Steady(h, "")
    ensures forall i | 0 <= i < 2 :: Stamp(Whole(h)[i]) == ""
  {
    TicksArePageable(entry, 2, false, ONE_LINE_PAGES);
    TicksAreSteady(entry, 2, ONE_LINE_PAGES, "");
  }

  lemma {:induction false} RawTicksHaveNoCursor(entry: LogLine, h: History)
    requires h == TwoTicks(entry) && entry.timestamp == "" && LineOf(entry) != "" && MatchFilters(entry, h.params)
    ensures var pages := [PageAfter(h, "")];
            Reading(pages, h) && pages[0].hasMore && !GoesOn(pages) && |Joined(pages)| == 1 && |Whole(h)| == 2
  {
    TwoRawTicks(entry, h);
    OnePage(h, Whole(h));
  }

  /** Without timestamps neither, although there is said to be more: there is no cursor to ask for it. */
  lemma RawLinesHaveNoCursor()
    ensures var h := TwoTicks(RAW);
            var pages := [PageAfter(h, "")];
            Reading(pages, h) && pages[0].hasMore && !GoesOn(pages) && |Joined(pages)| == 1 && |Whole(h)| == 2
  {
    RawTicksHaveNoCursor(RAW, TwoTicks(RAW));
  }

  lemma {:induction false} OneFileFails(f: LogFile, params: SearchParams, syntax: Syntax)
    requires f.breaks && RunsOut(f, params, Limit(params), syntax)
    ensures SearchFiles([f], params, syntax) == SearchResult([], false)
  {
    assert [f][..0] == [] && SearchFiles([], params, syntax) == SearchResult([], false);
  }

  /** A node whose only file breaks off before its matches fill a page: the page is empty. */
  lemma BrokenPage(h: History, node: Node, f: LogFile)
    requires h.nodes == [node] && h.name == "" && node.files == [f] && f.breaks && h.params.limit > 0
    requires RunsOut(f, Request(h.params.(after := "")), Limit(Request(h.params.(after := ""))), h.syntax)
    ensures PageAfter(h, "") == Page([], false)
  {
    var params := h.params.(after := "");
    var answers := Responses(h.nodes, params, h.syntax);
    OneFileFails(f, Request(params), h.syntax);
    assert answers[..0] == [] && |answers| == 1;
    CollectedNext(answers, 0, 1, "");
    assert answers[..1] == answers && Collected(answers, "") == [] + [] && !SomeHasMore([], "");
  }

  lemma OneEntry(e: LogLine)
    requires e.timestamp != ""
    ensures Group([e]) == [e] && Open([e]) == Some(e)
  {
    GroupSnoc([], e);
    assert [] + [e] == [e] && e in [e];
  }

  lemma {:induction false} OneMatch(e: LogLine, params: SearchParams)
    requires MatchFilters(e, params)
    ensures Filter([e], params) == [e]
  {
    FilterSnoc([], e, params);
    assert [] + [e] == [e];
  }

  lemma {:induction false} OneOpenEntry(f: LogFile, e: LogLine, params: SearchParams, syntax: Syntax)
    requires Texts(f.lines, f.name, syntax) == [e] && e.timestamp != "" && MatchFilters(e, params)
    ensures RunsOut(f, params, 1, syntax)
  {
    OneEntry(e);
    OneMatch(e, params);
  }

  lemma BrokenTickPage(entry: LogLine, params: SearchParams)
    requires entry.timestamp != "" && MatchFilters(entry, params) && params.limit == 1 && params.after == ""
    ensures PageAfter(TickingHistory(entry, 1, true, params), "") == Page([], false)
  {
    var f := Ticks(entry, 1).(breaks := true);
    TickTexts(entry, 1);
    assert TickEntries(entry, 1) == [Tick(entry, 0)];
    OneOpenEntry(f, Tick(entry, 0), params, Ticking(entry));
    assert Request(params.(after := "")) == params;
    BrokenPage(TickingHistory(entry, 1, true, params), Node("a", [f], true, true), f);
  }

  lemma {:induction false} EmptyPageEnds(h: History)
    requires PageAfter(h, "") == Page([], false)
    ensures Reading([PageAfter(h, "")], h) && !GoesOn([PageAfter(h, "")]) && Joined([PageAfter(h, "")]) == []
  {
    var page := Page([], false);
    assert [page][..0] == [] && Joined([page]) == [] + page.lines;
  }

  /** One node with a log of one line and then a read error, read in pages of one line: the match is on no page. */
  lemma BrokenFileIsLost()
    ensures var h := TickingHistory(ENTRY, 1, true, ONE_LINE_PAGES);
            var pages := [PageAfter(h, "")];
            Reading(pages, h) && !GoesOn(pages) && Joined(pages) == [] && |Whole(h)| == 1
  {
    TicksArePageable(ENTRY, 1, true, ONE_LINE_PAGES);
    BrokenTickPage(ENTRY, ONE_LINE_PAGES);
    EmptyPageEnds(TickingHistory(ENTRY, 1, true, ONE_LINE_PAGES));
  }

  lemma {:induction false} NothingNewer(s: seq<NodeLine>, cursor: Timestamp)
    requires cursor != "" && forall i | 0 <= i < |s| :: Stamp(s[i]) == cursor
    ensures Newer(s, cursor) == []
  {
    if s != [] {
      NothingNewer(s[..|s| - 1], cursor);
      Reflexive(cursor);
    }
  }
}
