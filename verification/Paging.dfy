/** Reading a search page by page, as the history view does: the next page asks for lines after the last
    timestamp of the page shown. */
module Paging {
  import opened Sequences
  import opened Timestamps
  import opened StableSort
  import opened LogLines
  import opened LogReader
  import opened LogHistory
  import opened ReadErrors
  import LogStats

  // ---------------------------------------------------------------------------------------------
  // Pages of one sorted list
  // ---------------------------------------------------------------------------------------------

  /** A line after the cursor, or without timestamp; the empty cursor stands for none. */
  predicate IsNewer(stamp: Timestamp, cursor: Timestamp) {
    cursor == "" || stamp == "" || Less(cursor, stamp)
  }

  /** The lines that a search with this cursor is about. */
  function Newer(s: seq<NodeLine>, cursor: Timestamp): seq<NodeLine> {
    if s == [] then []
    else
      var n := |s| - 1;
      Newer(s[..n], cursor) + if IsNewer(Stamp(s[n]), cursor) then [s[n]] else []
  }

  ghost predicate Stamped(s: seq<NodeLine>) {
    forall i | 0 <= i < |s| :: Stamp(s[i]) != ""
  }

  /** The number of lines that the cursor leaves behind. */
  function Behind(s: seq<NodeLine>, cursor: Timestamp): nat {
    if cursor == "" then 0 else Count(s, cursor, true, Stamp)
  }

  lemma {:induction false} NewerIsTheRest(s: seq<NodeLine>, cursor: Timestamp)
    requires Sorted(s, Stamp) && Stamped(s)
    ensures Behind(s, cursor) <= |s| && Newer(s, cursor) == s[Behind(s, cursor)..]
  {
    if s != [] {
      var n := |s| - 1;
      NewerIsTheRest(s[..n], cursor);
      assert s == s[..n] + [s[n]];
      if cursor != "" && Leq(Stamp(s[n]), cursor) {
        forall i | 0 <= i < n ensures Leq(Stamp(s[..n][i]), cursor) {
          Transitive(Stamp(s[i]), Stamp(s[n]), cursor);
        }
        CountAll(s[..n], cursor, true, Stamp);
      }
    }
  }

  /** A page that a search with this cursor may return. */
  ghost predicate PageOf(page: Page, s: seq<NodeLine>, cursor: Timestamp, limit: int) {
    && page.lines == Take(Newer(s, cursor), limit)
    && (page.hasMore ==> |page.lines| == limit)
    && (!page.hasMore ==> page.lines == Newer(s, cursor))
  }

  /** The cursor that follows these pages: the last timestamp shown. */
  function NextCursor(pages: seq<Page>): Timestamp {
    if pages == [] || pages[|pages| - 1].lines == [] then ""
    else
      var lines := pages[|pages| - 1].lines;
      Stamp(lines[|lines| - 1])
  }

  /** There is said to be more, and there is a cursor to ask for it. */
  predicate GoesOn(pages: seq<Page>) {
    pages != [] && pages[|pages| - 1].hasMore && NextCursor(pages) != ""
  }

  /** Pages read one after the other. */
  ghost predicate Run(pages: seq<Page>, s: seq<NodeLine>, limit: int) {
    && pages != []
    && var before, page := pages[..|pages| - 1], pages[|pages| - 1];
    && PageOf(page, s, NextCursor(before), limit)
    && (before != [] ==> Run(before, s, limit) && GoesOn(before))
  }

  function Joined(pages: seq<Page>): seq<NodeLine> {
    if pages == [] then [] else Joined(pages[..|pages| - 1]) + pages[|pages| - 1].lines
  }

  /** After `j` lines, in pages of `limit` lines, a page ends. */
  predicate PageEnd(j: nat, limit: int)
    requires limit > 0
  {
    j == 0 || (j >= limit && PageEnd(j - limit, limit))
  }

  /** No page ends between two lines of the same timestamp. */
  ghost predicate NoTieAtPageEnds(s: seq<NodeLine>, limit: int)
    requires limit > 0
  {
    forall j: nat | 0 < j < |s| && PageEnd(j, limit) :: Stamp(s[j - 1]) != Stamp(s[j])
  }

  lemma {:induction false} CountUpTo(s: seq<NodeLine>, i: nat)
    requires Sorted(s, Stamp) && i < |s|
    ensures Count(s, Stamp(s[i]), true, Stamp) > i
  {
    var k, before, after := Stamp(s[i]), s[..i + 1], s[i + 1..];
    assert s == before + after;
    forall j | 0 <= j < |before| ensures Leq(Stamp(before[j]), k) {
      Reflexive(k);
    }
    CountAll(before, k, true, Stamp);
    CountConcat(before, after, k, true, Stamp);
  }

  lemma FullPageAdvances(page: Page, s: seq<NodeLine>, cursor: Timestamp, limit: int)
    requires limit > 0 && Sorted(s, Stamp) && Stamped(s) && PageOf(page, s, cursor, limit) && page.hasMore
    ensures Behind(s, cursor) + limit <= |s| && page.lines == s[Behind(s, cursor)..Behind(s, cursor) + limit]
    ensures var last := Stamp(page.lines[limit - 1]); last != "" && Behind(s, last) >= Behind(s, cursor) + limit
  {
    var behind := Behind(s, cursor);
    NewerIsTheRest(s, cursor);
    FirstOfRest(s, behind, limit);
    CountUpTo(s, behind + limit - 1);
  }

  lemma FirstOfRest(s: seq<NodeLine>, behind: nat, limit: nat)
    requires 0 < limit && behind <= |s| && |Take(s[behind..], limit)| == limit
    ensures behind + limit <= |s| && Take(s[behind..], limit) == s[behind..behind + limit]
    ensures s[behind..behind + limit][limit - 1] == s[behind + limit - 1]
  {
  }

  /** Every page but the last brings the reader `limit` lines further, so reading comes to an end. */
  lemma {:induction false} PagesAdvance(pages: seq<Page>, s: seq<NodeLine>, limit: int)
    requires limit > 0 && Sorted(s, Stamp) && Stamped(s) && Run(pages, s, limit)
    ensures (|pages| - 1) * limit <= Behind(s, NextCursor(pages[..|pages| - 1])) <= |s|
    decreases |pages|
  {
    var before := pages[..|pages| - 1];
    NewerIsTheRest(s, NextCursor(before));
    if before != [] {
      PagesAdvance(before, s, limit);
      FullPageAdvances(before[|before| - 1], s, NextCursor(before[..|before| - 1]), limit);
      OneMore(|before|, limit);
    }
  }

  lemma OneMore(n: int, limit: int)
    ensures n * limit == (n - 1) * limit + limit
  {
  }

  // ---------------------------------------------------------------------------------------------
  // Complete reading
  // ---------------------------------------------------------------------------------------------

  /** Without a tie at the end of a page the next one starts where it ended. */
  lemma NextPageStartsThere(s: seq<NodeLine>, j: nat)
    requires Sorted(s, Stamp) && Stamped(s) && 0 < j <= |s| && (j < |s| ==> Stamp(s[j - 1]) != Stamp(s[j]))
    ensures Behind(s, Stamp(s[j - 1])) == j
  {
    var k := Stamp(s[j - 1]);
    Reflexive(k);
    forall i | j <= i < |s| ensures Less(k, Stamp(s[i])) {
      if Leq(Stamp(s[i]), k) {
        if i > j {
          Transitive(Stamp(s[j]), Stamp(s[i]), k);
        }
        AntiSymmetric(Stamp(s[j]), k);
      }
    }
    CountSorted(s, k, j, Stamp);
  }

  /** Without ties at page ends the pages before the last are the first lines, in whole pages. */
  lemma {:induction false} PagesFollowOn(pages: seq<Page>, s: seq<NodeLine>, limit: int)
    requires limit > 0 && Sorted(s, Stamp) && Stamped(s) && NoTieAtPageEnds(s, limit) && Run(pages, s, limit)
    ensures var before := pages[..|pages| - 1];
            && Joined(before) <= s && PageEnd(|Joined(before)|, limit)
            && Behind(s, NextCursor(before)) == |Joined(before)|
    decreases |pages|
  {
    var before := pages[..|pages| - 1];
    if before != [] {
      var n := |before| - 1;
      LastTwoPages(pages, s, limit);
      PagesFollowOn(before, s, limit);
      NextPageFollowsOn(Joined(before[..n]), before[n], s, NextCursor(before[..n]), limit);
    }
  }

  lemma {:induction false} NextPageFollowsOn(before: seq<NodeLine>, page: Page, s: seq<NodeLine>, cursor: Timestamp,
                                             limit: int)
    requires limit > 0 && Sorted(s, Stamp) && Stamped(s) && NoTieAtPageEnds(s, limit)
    requires before <= s && PageEnd(|before|, limit) && Behind(s, cursor) == |before|
    requires PageOf(page, s, cursor, limit) && page.hasMore
    ensures |page.lines| == limit && before + page.lines <= s && PageEnd(|before + page.lines|, limit)
    ensures Behind(s, Stamp(page.lines[limit - 1])) == |before + page.lines|
  {
    FullPageAdvances(page, s, cursor, limit);
    NextPageStartsThere(s, |before| + limit);
  }

  lemma {:induction false} PageEndsLieApart(a: nat, b: nat, limit: int)
    requires limit > 0 && PageEnd(a, limit) && PageEnd(b, limit) && a < b
    ensures a + limit <= b
    decreases a
  {
    if a > 0 {
      PageEndsLieApart(a - limit, b - limit, limit);
    }
  }

  lemma LastTwoPages(pages: seq<Page>, s: seq<NodeLine>, limit: int)
    requires limit > 0 && Run(pages, s, limit) && |pages| > 1
    ensures var before, page, n := pages[..|pages| - 1], pages[|pages| - 1], |pages| - 2;
            && Run(before, s, limit) && before[n].hasMore && PageOf(before[n], s, NextCursor(before[..n]), limit)
            && NextCursor(before) == Stamp(before[n].lines[limit - 1])
            && PageOf(page, s, Stamp(before[n].lines[limit - 1]), limit)
            && Joined(before) == Joined(before[..n]) + before[n].lines
            && Joined(pages) == Joined(before[..n]) + before[n].lines + page.lines
  {
  }

  /** Where read pages meet, the timestamps differ. */
  lemma {:induction false} PagesMeetWithoutTies(pages: seq<Page>, s: seq<NodeLine>, limit: int)
    requires limit > 0 && Sorted(s, Stamp) && Stamped(s) && Run(pages, s, limit)
    ensures PageEnd(|Joined(pages[..|pages| - 1])|, limit) && NoTieAtPageEnds(Joined(pages), limit)
    decreases |pages|
  {
    var before, page := pages[..|pages| - 1], pages[|pages| - 1];
    if before == [] {
      MeetWithoutTies([], page.lines, limit);
      assert Joined(pages) == [] + page.lines;
    } else {
      var n := |before| - 1;
      LastTwoPages(pages, s, limit);
      PagesMeetWithoutTies(before, s, limit);
      NextPageMeets(Joined(before[..n]), before[n], NextCursor(before[..n]), page, s, limit);
    }
  }

  lemma {:induction false} NextPageMeets(before: seq<NodeLine>, last: Page, cursor: Timestamp, page: Page,
                                         s: seq<NodeLine>, limit: int)
    requires limit > 0 && Sorted(s, Stamp) && Stamped(s)
    requires PageOf(last, s, cursor, limit) && last.hasMore
    requires PageOf(page, s, Stamp(last.lines[limit - 1]), limit)
    requires PageEnd(|before|, limit) && NoTieAtPageEnds(before + last.lines, limit)
    ensures PageEnd(|before + last.lines|, limit) && NoTieAtPageEnds(before + last.lines + page.lines, limit)
  {
    var next := Stamp(last.lines[limit - 1]);
    FullPageAdvances(last, s, cursor, limit);
    Reflexive(next);
    if page.lines != [] {
      FirstIsNewer(s, next);
    }
    MeetWithoutTies(before + last.lines, page.lines, limit);
  }

  lemma {:induction false} NewerElements(s: seq<NodeLine>, cursor: Timestamp)
    ensures forall l <- Newer(s, cursor) :: l in s && IsNewer(Stamp(l), cursor)
  {
    if s != [] {
      NewerElements(s[..|s| - 1], cursor);
    }
  }

  lemma {:induction false} FirstIsNewer(s: seq<NodeLine>, cursor: Timestamp)
    requires Stamped(s) && cursor != "" && Newer(s, cursor) != []
    ensures Less(cursor, Stamp(Newer(s, cursor)[0]))
  {
    NewerElements(s, cursor);
    assert Newer(s, cursor)[0] in Newer(s, cursor);
  }

  lemma {:induction false} MeetWithoutTies(before: seq<NodeLine>, last: seq<NodeLine>, limit: int)
    requires limit > 0 && PageEnd(|before|, limit) && |last| <= limit && NoTieAtPageEnds(before, limit)
    requires before != [] && last != [] ==> Stamp(before[|before| - 1]) != Stamp(last[0])
    ensures NoTieAtPageEnds(before + last, limit)
  {
    var s := before + last;
    forall j: nat | 0 < j < |s| && PageEnd(j, limit) ensures Stamp(s[j - 1]) != Stamp(s[j]) {
      if j > |before| {
        PageEndsLieApart(|before|, j, limit);
      }
    }
  }

  lemma {:induction false} LastPage(pages: seq<Page>, s: seq<NodeLine>, limit: int)
    requires Run(pages, s, limit) && !pages[|pages| - 1].hasMore
    ensures Joined(pages) == Joined(pages[..|pages| - 1]) + Newer(s, NextCursor(pages[..|pages| - 1]))
  {
  }

  lemma PrefixAndRest(a: seq<NodeLine>, s: seq<NodeLine>)
    requires a <= s
    ensures a + s[|a|..] == s
  {
  }

  lemma {:induction false} LastPageCompletes(pages: seq<Page>, s: seq<NodeLine>, limit: int)
    requires limit > 0 && Sorted(s, Stamp) && Stamped(s) && Run(pages, s, limit) && !pages[|pages| - 1].hasMore
    requires NoTieAtPageEnds(s, limit)
    ensures Joined(pages) == s
  {
    var before := pages[..|pages| - 1];
    PagesFollowOn(pages, s, limit);
    NewerIsTheRest(s, NextCursor(before));
    LastPage(pages, s, limit);
    PrefixAndRest(Joined(before), s);
  }

  /** Reading to the end shows every line once and in order exactly if no page ends between two lines of the
      same timestamp; otherwise the later of them are never shown. */
  lemma {:induction false} ReadingIsCompleteExactly(pages: seq<Page>, s: seq<NodeLine>, limit: int)
    requires limit > 0 && Sorted(s, Stamp) && Stamped(s) && Run(pages, s, limit) && !pages[|pages| - 1].hasMore
    ensures Joined(pages) == s <==> NoTieAtPageEnds(s, limit)
  {
    PagesMeetWithoutTies(pages, s, limit);
    if NoTieAtPageEnds(s, limit) {
      LastPageCompletes(pages, s, limit);
    }
  }

  // ---------------------------------------------------------------------------------------------
  // Lines without timestamp
  // ---------------------------------------------------------------------------------------------

  /** How many lines have no timestamp; in a sorted list they come first. */
  function Unstamped(s: seq<NodeLine>): (u: nat)
    ensures u <= |s|
  {
    if s == [] then 0 else Unstamped(s[..|s| - 1]) + if Stamp(s[|s| - 1]) == "" then 1 else 0
  }

  lemma {:induction false} UnstampedComeFirst(s: seq<NodeLine>)
    requires Sorted(s, Stamp)
    ensures forall i | 0 <= i < |s| :: Stamp(s[i]) == "" <==> i < Unstamped(s)
  {
    if s != [] {
      var n := |s| - 1;
      UnstampedComeFirst(s[..n]);
      if Stamp(s[n]) == "" {
        forall i | 0 <= i < n ensures Stamp(s[i]) == "" {
          assert Leq(Stamp(s[i]), Stamp(s[n]));
        }
        assert n > 0 ==> Stamp(s[..n][n - 1]) == "";
      }
    }
  }

  lemma {:induction false} UnstampedStay(s: seq<NodeLine>, cursor: Timestamp)
    requires forall i | 0 <= i < |s| :: Stamp(s[i]) == ""
    ensures Newer(s, cursor) == s
  {
    if s != [] {
      var init, last := s[..|s| - 1], s[|s| - 1];
      UnstampedStay(init, cursor);
      assert IsNewer(Stamp(last), cursor) && s == init + [last];
    }
  }

  lemma {:induction false} StampedTail(s: seq<NodeLine>, u: nat)
    requires Sorted(s, Stamp) && u == Unstamped(s)
    ensures Sorted(s[u..], Stamp) && Stamped(s[u..]) && s == s[..u] + s[u..]
    ensures forall i | 0 <= i < u :: Stamp(s[..u][i]) == ""
  {
    UnstampedComeFirst(s);
  }

  /** The cursor never excludes the lines without timestamp. */
  lemma {:induction false} NewerParts(s: seq<NodeLine>, u: nat, cursor: Timestamp)
    requires Sorted(s, Stamp) && u == Unstamped(s)
    ensures Newer(s, cursor) == s[..u] + Newer(s[u..], cursor)
  {
    StampedTail(s, u);
    UnstampedStay(s[..u], cursor);
    NewerConcat(s[..u], s[u..], cursor);
  }

  /** A page without its first `u` lines. */
  function Stripped(page: Page, u: nat): Page {
    Page(if u <= |page.lines| then page.lines[u..] else [], page.hasMore)
  }

  function StrippedAll(pages: seq<Page>, u: nat): seq<Page> {
    if pages == [] then [] else StrippedAll(pages[..|pages| - 1], u) + [Stripped(pages[|pages| - 1], u)]
  }

  /** Every page repeats the lines without timestamp; the rest of it is a shorter page of the other lines. */
  lemma {:induction false} StrippedPage(page: Page, s: seq<NodeLine>, u: nat, cursor: Timestamp, limit: int)
    requires Sorted(s, Stamp) && u == Unstamped(s) < limit && PageOf(page, s, cursor, limit)
    ensures s[..u] <= page.lines && PageOf(Stripped(page, u), s[u..], cursor, limit - u)
  {
    NewerParts(s, u, cursor);
    FirstsOfTwo(s[..u], Newer(s[u..], cursor), limit);
  }

  lemma FirstsOfTwo(a: seq<NodeLine>, b: seq<NodeLine>, limit: int)
    requires |a| < limit
    ensures Take(a + b, limit) == a + Take(b, limit - |a|)
  {
  }

  lemma {:induction false} StrippedSnoc(pages: seq<Page>, u: nat)
    requires pages != []
    ensures var stripped := StrippedAll(pages, u);
            && |stripped| == |StrippedAll(pages[..|pages| - 1], u)| + 1
            && stripped[..|stripped| - 1] == StrippedAll(pages[..|pages| - 1], u)
            && stripped[|stripped| - 1] == Stripped(pages[|pages| - 1], u)
  {
  }

  lemma CursorIs(pages: seq<Page>, lines: seq<NodeLine>)
    requires pages != [] && lines == pages[|pages| - 1].lines
    ensures NextCursor(pages) == if lines == [] then "" else Stamp(lines[|lines| - 1])
  {
  }

  lemma {:induction false} StrippedCursor(pages: seq<Page>, first: seq<NodeLine>)
    requires pages != [] && first <= pages[|pages| - 1].lines
    requires forall i | 0 <= i < |first| :: Stamp(first[i]) == ""
    ensures NextCursor(StrippedAll(pages, |first|)) == NextCursor(pages)
  {
    var lines := pages[|pages| - 1].lines;
    StrippedSnoc(pages, |first|);
    CursorIs(pages, lines);
    CursorIs(StrippedAll(pages, |first|), lines[|first|..]);
    LastOfStripped(lines, first);
  }

  lemma {:induction false} CursorOfStripped(pages: seq<Page>, s: seq<NodeLine>, u: nat)
    requires pages != [] && Sorted(s, Stamp) && u == Unstamped(s) && s[..u] <= pages[|pages| - 1].lines
    ensures NextCursor(StrippedAll(pages, u)) == NextCursor(pages)
  {
    UnstampedComeFirst(s);
    StrippedCursor(pages, s[..u]);
  }

  lemma LastOfStripped(lines: seq<NodeLine>, first: seq<NodeLine>)
    requires first <= lines && forall i | 0 <= i < |first| :: Stamp(first[i]) == ""
    ensures var rest := lines[|first|..];
            (if rest == [] then "" else Stamp(rest[|rest| - 1]))
            == (if lines == [] then "" else Stamp(lines[|lines| - 1]))
  {
    if |lines| == |first| {
      assert lines == first;
    }
  }

  /** What stripping makes of a run. */
  ghost predicate StrippedTo(pages: seq<Page>, s: seq<NodeLine>, u: nat, limit: int)
    requires u <= |s|
  {
    && Run(StrippedAll(pages, u), s[u..], limit - u) && |StrippedAll(pages, u)| == |pages|
    && NextCursor(StrippedAll(pages, u)) == NextCursor(pages)
    && forall page <- pages :: s[..u] <= page.lines
  }

  lemma {:induction false} StrippedFirst(page: Page, s: seq<NodeLine>, u: nat, limit: int)
    requires Sorted(s, Stamp) && u == Unstamped(s) < limit && PageOf(page, s, "", limit)
    ensures StrippedTo([page], s, u, limit)
  {
    StrippedPage(page, s, u, "", limit);
    CursorOfStripped([page], s, u);
    assert [page][..0] == [] && StrippedAll([page], u) == [] + [Stripped(page, u)];
  }

  lemma {:induction false} StrippedNext(before: seq<Page>, page: Page, s: seq<NodeLine>, u: nat, limit: int)
    requires Sorted(s, Stamp) && u == Unstamped(s) < limit && PageOf(page, s, NextCursor(before), limit)
    requires before != [] && GoesOn(before) && StrippedTo(before, s, u, limit)
    ensures StrippedTo(before + [page], s, u, limit)
  {
    var pages := before + [page];
    assert pages[..|before|] == before;
    StrippedPage(page, s, u, NextCursor(before), limit);
    CursorOfStripped(pages, s, u);
    StrippedSnoc(pages, u);
    StrippedSnoc(before, u);
  }

  /** So the pages of all lines are shorter pages of the lines with timestamp. */
  lemma {:induction false} StrippedRun(pages: seq<Page>, s: seq<NodeLine>, u: nat, limit: int)
    requires Sorted(s, Stamp) && u == Unstamped(s) < limit && Run(pages, s, limit)
    ensures Run(StrippedAll(pages, u), s[u..], limit - u) && |StrippedAll(pages, u)| == |pages|
    ensures NextCursor(StrippedAll(pages, u)) == NextCursor(pages)
    ensures forall page <- pages :: s[..u] <= page.lines
    decreases |pages|
  {
    var before, page := pages[..|pages| - 1], pages[|pages| - 1];
    assert pages == before + [page];
    if before == [] {
      StrippedFirst(page, s, u, limit);
    } else {
      StrippedRun(before, s, u, limit);
      StrippedNext(before, page, s, u, limit);
    }
  }

  /** What the pages show, with the lines without timestamp only once. */
  function Shown(pages: seq<Page>, u: nat): seq<NodeLine> {
    if pages == [] then []
    else if |pages| == 1 then pages[0].lines
    else Shown(pages[..|pages| - 1], u) + Stripped(pages[|pages| - 1], u).lines
  }

  lemma {:induction false} ShownAndStripped(pages: seq<Page>, first: seq<NodeLine>)
    requires pages != [] && forall page <- pages :: first <= page.lines
    ensures Shown(pages, |first|) == first + Joined(StrippedAll(pages, |first|))
  {
    var n, u := |pages| - 1, |first|;
    var page := pages[n];
    assert page in pages;
    StrippedSnoc(pages, u);
    if n == 0 {
      assert page.lines == first + page.lines[u..];
      assert Joined(StrippedAll(pages, u)) == [] + page.lines[u..];
    } else {
      ShownAndStripped(pages[..n], first);
      Associate(first, Joined(StrippedAll(pages[..n], u)), page.lines[u..]);
    }
  }

  /** Without such lines it is simply all that the pages have. */
  lemma {:induction false} ShownIsJoined(pages: seq<Page>)
    ensures Shown(pages, 0) == Joined(pages)
  {
    if |pages| == 1 {
      assert Joined(pages) == [] + pages[0].lines;
    } else if pages != [] {
      ShownIsJoined(pages[..|pages| - 1]);
    }
  }

  lemma {:induction false} FirstPageIsFull(page: Page, s: seq<NodeLine>, limit: int)
    requires 0 < limit <= Unstamped(s) && Sorted(s, Stamp) && PageOf(page, s, "", limit)
    ensures page.lines == s[..limit] && Stamp(page.lines[limit - 1]) == ""
  {
    EmptyCursor(s);
    UnstampedComeFirst(s);
  }

  /** If a page is full of lines without timestamp, reading ends there. */
  lemma {:induction false} NoSecondPage(pages: seq<Page>, s: seq<NodeLine>, limit: int)
    requires 0 < limit <= Unstamped(s) && Sorted(s, Stamp) && Run(pages, s, limit)
    ensures |pages| == 1 && pages[0].lines == s[..limit] && !GoesOn(pages)
    decreases |pages|
  {
    var before := pages[..|pages| - 1];
    if before != [] {
      NoSecondPage(before, s, limit);
    } else {
      FirstPageIsFull(pages[0], s, limit);
    }
  }

  lemma {:induction false} EmptyCursor(s: seq<NodeLine>)
    ensures Newer(s, "") == s
  {
    if s != [] {
      EmptyCursor(s[..|s| - 1]);
    }
  }

  /** When every line is shown: pages do not end in a tie, or the lines without timestamp leave no room for others
      and just fill the only page there is. */
  ghost predicate NothingIsLost(s: seq<NodeLine>, limit: int)
    requires limit > 0
  {
    var u := Unstamped(s);
    if u < limit then NoTieAtPageEnds(s[u..], limit - u) else |s| == limit
  }

  lemma {:induction false} EndOfStamped(pages: seq<Page>, s: seq<NodeLine>, limit: int)
    requires limit > 0 && Sorted(s, Stamp) && Stamped(s) && Run(pages, s, limit)
    ensures pages[|pages| - 1].hasMore <==> GoesOn(pages)
    ensures (|pages| - 1) * limit <= |s|
  {
    PagesAdvance(pages, s, limit);
    if pages[|pages| - 1].hasMore {
      FullPageAdvances(pages[|pages| - 1], s, NextCursor(pages[..|pages| - 1]), limit);
    }
  }

  /** Every page shows the first `u` lines, and each page before the last has room for `limit - u` of the others. */
  ghost predicate HasRoom(pages: seq<Page>, s: seq<NodeLine>, u: nat, limit: int)
    requires u <= |s|
  {
    (|pages| - 1) * (limit - u) <= |s| - u && forall page <- pages :: s[..u] <= page.lines
  }

  /** What the pages come to.  Lines without timestamp, `u` of them, come again on every page, which so has room for
      `limit - u` others; if there is no room, the first page is the only one.  When reading has come to its end,
      everything was shown exactly if nothing is lost. */
  ghost predicate ReadExactly(pages: seq<Page>, s: seq<NodeLine>, limit: int)
    requires limit > 0
  {
    var u := Unstamped(s);
    && (u < limit ==> HasRoom(pages, s, u, limit))
    && (limit <= u ==> |pages| == 1 && pages[0].lines == s[..limit])
    && (!GoesOn(pages) ==> (Shown(pages, u) == s <==> NothingIsLost(s, limit)))
  }

  lemma {:induction false} RoomForOthers(pages: seq<Page>, s: seq<NodeLine>, u: nat, limit: int)
    requires Sorted(s, Stamp) && Run(pages, s, limit) && u == Unstamped(s) < limit
    ensures HasRoom(pages, s, u, limit)
    ensures pages[|pages| - 1].hasMore <==> GoesOn(pages)
    ensures !GoesOn(pages) ==> (Shown(pages, u) == s <==> NoTieAtPageEnds(s[u..], limit - u))
  {
    var stripped := StrippedAll(pages, u);
    StampedTail(s, u);
    StrippedRun(pages, s, u, limit);
    StrippedSnoc(pages, u);
    EndOfStamped(stripped, s[u..], limit - u);
    if !GoesOn(pages) {
      ReadingIsCompleteExactly(stripped, s[u..], limit - u);
      ShownAndStripped(pages, s[..u]);
      SameTail(s[..u], Joined(stripped), s[u..]);
    }
  }

  lemma SameTail(a: seq<NodeLine>, b: seq<NodeLine>, c: seq<NodeLine>)
    ensures a + b == a + c <==> b == c
  {
    assert (a + b)[|a|..] == b && (a + c)[|a|..] == c;
  }

  lemma {:induction false} TiesLose(s: seq<NodeLine>, u: nat, limit: int)
    requires u == Unstamped(s) < limit
    ensures NothingIsLost(s, limit) <==> NoTieAtPageEnds(s[u..], limit - u)
  {
  }

  lemma {:induction false} ReadOthers(pages: seq<Page>, s: seq<NodeLine>, u: nat, limit: int)
    requires u == Unstamped(s) < limit && HasRoom(pages, s, u, limit)
    requires !GoesOn(pages) ==> (Shown(pages, u) == s <==> NothingIsLost(s, limit))
    ensures ReadExactly(pages, s, limit)
  {
  }

  lemma {:induction false} OthersAreRead(pages: seq<Page>, s: seq<NodeLine>, limit: int)
    requires Unstamped(s) < limit && Sorted(s, Stamp) && Run(pages, s, limit)
    ensures ReadExactly(pages, s, limit)
    ensures pages[|pages| - 1].hasMore ==> GoesOn(pages)
  {
    RoomForOthers(pages, s, Unstamped(s), limit);
    TiesLose(s, Unstamped(s), limit);
    ReadOthers(pages, s, Unstamped(s), limit);
  }

  lemma {:induction false} OnlyUnstampedAreRead(pages: seq<Page>, s: seq<NodeLine>, limit: int)
    requires 0 < limit <= Unstamped(s) && Sorted(s, Stamp) && Run(pages, s, limit)
    ensures ReadExactly(pages, s, limit) && !GoesOn(pages)
  {
    NoSecondPage(pages, s, limit);
  }

  /** Reading a sorted list to the end, whether its lines have timestamps or not. */
  lemma {:induction false} ReadingShowsAllExactly(pages: seq<Page>, s: seq<NodeLine>, limit: int)
    requires limit > 0 && Sorted(s, Stamp) && Run(pages, s, limit)
    ensures ReadExactly(pages, s, limit)
    ensures pages[|pages| - 1].hasMore ==> (GoesOn(pages) <==> Unstamped(s) < limit)
  {
    if Unstamped(s) < limit {
      OthersAreRead(pages, s, limit);
    } else {
      OnlyUnstampedAreRead(pages, s, limit);
    }
  }

  // ---------------------------------------------------------------------------------------------
  // Sorting and filtering commute with the cursor
  // ---------------------------------------------------------------------------------------------

  lemma {:induction false} NewerConcat(a: seq<NodeLine>, b: seq<NodeLine>, cursor: Timestamp)
    ensures Newer(a + b, cursor) == Newer(a, cursor) + Newer(b, cursor)
  {
    if b == [] {
      assert a + b == a;
    } else {
      assert (a + b)[..|a + b| - 1] == a + b[..|b| - 1];
      NewerConcat(a, b[..|b| - 1], cursor);
    }
  }

  lemma {:induction false} WithKeyOfNewer(s: seq<NodeLine>, k: Timestamp, cursor: Timestamp)
    ensures WithKey(Newer(s, cursor), k, Stamp) == if IsNewer(k, cursor) then WithKey(s, k, Stamp) else []
  {
    if s != [] {
      var n := |s| - 1;
      var init := Newer(s[..n], cursor);
      WithKeyOfNewer(s[..n], k, cursor);
      if IsNewer(Stamp(s[n]), cursor) {
        assert (init + [s[n]])[..|init|] == init;
      } else {
        assert init + [] == init;
      }
    }
  }

  lemma {:induction false} NewerIsSorted(s: seq<NodeLine>, cursor: Timestamp)
    requires Sorted(s, Stamp)
    ensures Sorted(Newer(s, cursor), Stamp)
  {
    if s != [] {
      var n := |s| - 1;
      NewerIsSorted(s[..n], cursor);
      NewerElements(s[..n], cursor);
      forall l | l in Newer(s[..n], cursor) ensures Leq(Stamp(l), Stamp(s[n])) {
        var i :| 0 <= i < n && s[i] == l;
      }
    }
  }

  lemma {:induction false} SortOfNewer(s: seq<NodeLine>, cursor: Timestamp)
    ensures Sort(Newer(s, cursor), Stamp) == Newer(Sort(s, Stamp), cursor)
  {
    var a, b := Sort(Newer(s, cursor), Stamp), Newer(Sort(s, Stamp), cursor);
    SortSorts(Newer(s, cursor), Stamp);
    SortSorts(s, Stamp);
    NewerIsSorted(Sort(s, Stamp), cursor);
    forall k ensures WithKey(a, k, Stamp) == WithKey(b, k, Stamp) {
      SortIsStable(Newer(s, cursor), k, Stamp);
      SortIsStable(s, k, Stamp);
      WithKeyOfNewer(s, k, cursor);
      WithKeyOfNewer(Sort(s, Stamp), k, cursor);
    }
    StableSortIsUnique(a, b, Stamp);
  }

  function AllNewer(lists: seq<seq<NodeLine>>, cursor: Timestamp): seq<seq<NodeLine>> {
    seq(|lists|, i requires 0 <= i < |lists| => Newer(lists[i], cursor))
  }

  lemma {:induction false} FlatOfNewer(lists: seq<seq<NodeLine>>, cursor: Timestamp)
    ensures Flat(AllNewer(lists, cursor)) == Newer(Flat(lists), cursor)
  {
    if lists != [] {
      var n := |lists| - 1;
      FlatOfNewer(lists[..n], cursor);
      assert AllNewer(lists, cursor)[..n] == AllNewer(lists[..n], cursor);
      NewerConcat(Flat(lists[..n]), lists[n], cursor);
    }
  }

  /** The filter with a cursor is the filter without, and then the lines after the cursor. */
  lemma {:induction false} FilterWithCursor(entries: seq<LogLine>, node: string, params: SearchParams,
                                            cursor: Timestamp)
    requires params.after == ""
    ensures Tagged(Filter(entries, params.(after := cursor)), node)
         == Newer(Tagged(Filter(entries, params), node), cursor)
  {
    if entries != [] {
      var n := |entries| - 1;
      var init, e := Filter(entries[..n], params), entries[n];
      FilterWithCursor(entries[..n], node, params, cursor);
      TaggedSnoc(init, e, node);
      TaggedSnoc(Filter(entries[..n], params.(after := cursor)), e, node);
      if MatchFilters(e, params) {
        NewerConcat(Tagged(init, node), [NodeLine(e, node)], cursor);
        assert [NodeLine(e, node)][..0] == [];
      }
    }
  }

  lemma TaggedSnoc(lines: seq<LogLine>, e: LogLine, node: string)
    ensures Tagged(lines + [e], node) == Tagged(lines, node) + [NodeLine(e, node)]
    ensures lines + [] == lines
  {
  }

  // ---------------------------------------------------------------------------------------------
  // The history view
  // ---------------------------------------------------------------------------------------------

  /** What the view searches; `name` is its node filter. */
  datatype History = History(nodes: seq<Node>, name: string, params: SearchParams, syntax: Syntax)

  /** What a node can read: the matches of its files up to their ends or read errors. */
  function OpenedMatches(node: Node, params: SearchParams, syntax: Syntax): seq<NodeLine> {
    Tagged(AllMatches(Opened(node.files), Request(params), syntax), node.name)
  }

  /** The matches of the nodes that are heard. */
  function Lists(h: History): seq<seq<NodeLine>> {
    var heard := Heard(h.nodes, h.name, SearchEndpoint);
    seq(|heard|, i requires 0 <= i < |heard| => OpenedMatches(heard[i], h.params, h.syntax))
  }

  /** Every node that is heard finds its matches in order. */
  ghost predicate Pageable(h: History) {
    1 <= h.params.limit <= 500 && h.params.after == "" && forall list <- Lists(h) :: Sorted(list, Stamp)
  }

  /** With this cursor no node drops a file that has matches. */
  predicate Steady(h: History, cursor: Timestamp) {
    forall node <- Heard(h.nodes, h.name, SearchEndpoint) ::
      !DropsMatches(node.files, Request(h.params.(after := cursor)), h.syntax)
  }

  /** No request for one of these pages meets such a node. */
  predicate SteadyReading(pages: seq<Page>, h: History) {
    pages == [] || (SteadyReading(pages[..|pages| - 1], h) && Steady(h, NextCursor(pages[..|pages| - 1])))
  }

  /** Without read errors this is so for all pages. */
  lemma UnbrokenFilesAreSteady(h: History, cursor: Timestamp)
    requires forall node <- Heard(h.nodes, h.name, SearchEndpoint) :: forall f <- node.files :: Unbroken(f)
    ensures Steady(h, cursor)
  {
    forall node <- Heard(h.nodes, h.name, SearchEndpoint)
      ensures !DropsMatches(node.files, Request(h.params.(after := cursor)), h.syntax)
    {
      UnbrokenIsSteady(node.files, Request(h.params.(after := cursor)), h.syntax);
    }
  }

  /** All these matches, in order. */
  function Whole(h: History): seq<NodeLine> {
    Sort(Flat(Lists(h)), Stamp)
  }

  /** What the gateway answers to a search with this cursor. */
  function PageAfter(h: History, cursor: Timestamp): Page {
    Merged(Responses(h.nodes, h.params.(after := cursor), h.syntax), h.name, h.params.limit)
  }

  /** The view asks for the first page without cursor, and for the next one while there is more and the last line
      shown has a timestamp. */
  ghost predicate Reading(pages: seq<Page>, h: History) {
    && pages != []
    && var before := pages[..|pages| - 1];
    && pages[|pages| - 1] == PageAfter(h, NextCursor(before))
    && (before != [] ==> Reading(before, h) && GoesOn(before))
  }

  lemma {:induction false} NodeAfterCursor(node: Node, params: SearchParams, cursor: Timestamp, syntax: Syntax)
    requires params.after == "" && !DropsMatches(node.files, Request(params.(after := cursor)), syntax)
    ensures NodeMatches(node, params.(after := cursor), syntax) == Newer(OpenedMatches(node, params, syntax), cursor)
  {
    var p, q := Request(params), Request(params.(after := cursor));
    var files := Opened(node.files);
    SteadySearch(node.files, q, syntax);
    LogStats.MatchesAreFilteredEntries(files, p, syntax);
    LogStats.MatchesAreFilteredEntries(files, q, syntax);
    assert q == p.(after := cursor);
    FilterWithCursor(LogStats.AllEntries(files, syntax), node.name, p, cursor);
  }

  lemma AllAfterCursor(h: History, cursor: Timestamp)
    requires Pageable(h) && Steady(h, cursor)
    ensures AllHeard(h.nodes, h.name, h.params.(after := cursor), h.syntax) == AllNewer(Lists(h), cursor)
  {
    var heard, lists := Heard(h.nodes, h.name, SearchEndpoint), Lists(h);
    forall i | 0 <= i < |heard|
      ensures NodeMatches(heard[i], h.params.(after := cursor), h.syntax) == Newer(lists[i], cursor)
    {
      assert heard[i] in heard;
      NodeAfterCursor(heard[i], h.params, cursor, h.syntax);
    }
  }

  lemma PagesAreOfTheWhole(h: History, cursor: Timestamp)
    requires Pageable(h) && Steady(h, cursor)
    ensures PageOf(PageAfter(h, cursor), Whole(h), cursor, h.params.limit)
  {
    var lists := Lists(h);
    AllAfterCursor(h, cursor);
    forall list | list in AllNewer(lists, cursor) ensures Sorted(list, Stamp) {
      var i :| 0 <= i < |lists| && list == Newer(lists[i], cursor);
      assert lists[i] in lists;
      NewerIsSorted(lists[i], cursor);
    }
    SearchFindsTheFirstMatches(h.nodes, h.name, h.params.(after := cursor), h.syntax);
    FlatOfNewer(lists, cursor);
    SortOfNewer(Flat(lists), cursor);
  }

  lemma {:induction false} ReadingIsARun(pages: seq<Page>, h: History)
    requires Pageable(h) && Reading(pages, h) && SteadyReading(pages, h)
    ensures Run(pages, Whole(h), h.params.limit)
    decreases |pages|
  {
    var before := pages[..|pages| - 1];
    PagesAreOfTheWhole(h, NextCursor(before));
    if before != [] {
      ReadingIsARun(before, h);
    }
  }

  /** If no request drops matches, then paging through the history ends, and has shown exactly all matches of all
      nodes heard, each once and in order, exactly if no page ended between two matches of the same timestamp, and
      matches without timestamp left room for the others on the pages. */
  lemma {:induction false} PagingIsCompleteExactly(pages: seq<Page>, h: History)
    requires Pageable(h) && Reading(pages, h) && SteadyReading(pages, h)
    ensures multiset(Whole(h)) == multiset(Flat(Lists(h))) && Sorted(Whole(h), Stamp)
    ensures ReadExactly(pages, Whole(h), h.params.limit)
  {
    SortSorts(Flat(Lists(h)), Stamp);
    SortPermutes(Flat(Lists(h)), Stamp);
    ReadingIsARun(pages, h);
    ReadingShowsAllExactly(pages, Whole(h), h.params.limit);
  }

  /** While there is more, the view has a cursor to go on with, exactly if not all of the page was without
      timestamps. */
  lemma {:induction false} ReadingGoesOnExactly(pages: seq<Page>, h: History)
    requires Pageable(h) && Reading(pages, h) && SteadyReading(pages, h) && pages[|pages| - 1].hasMore
    ensures GoesOn(pages) <==> Unstamped(Whole(h)) < h.params.limit
    ensures GoesOn(pages) ==> Reading(pages + [PageAfter(h, NextCursor(pages))], h)
  {
    var page := PageAfter(h, NextCursor(pages));
    SortSorts(Flat(Lists(h)), Stamp);
    ReadingIsARun(pages, h);
    ReadingShowsAllExactly(pages, Whole(h), h.params.limit);
    assert (pages + [page])[..|pages|] == pages;
  }
}
