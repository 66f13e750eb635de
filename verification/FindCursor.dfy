/** The find mode of the log search: counting matches line by line, and a cursor over all of them. */
module FindCursor {
  import opened Folding
  import opened Options
  import opened Sequences
  import Highlight

  datatype MatchInfo = MatchInfo(logIndex: nat, matchCount: nat)

  // ---------------------------------------------------------------------------------------------
  // Matches of one line
  // ---------------------------------------------------------------------------------------------

  /** The matches that a line is highlighted with. */
  function CountOf(text: string, query: string): nat {
    if query == [] then 0 else Highlight.Count(text, query)
  }

  /** The first place of `t` in `s` from `i` on, or -1. */
  function IndexOf(s: string, t: string, i: nat): (r: int)
    ensures r == -1 || (i <= r && OccursAt(s, t, r))
    ensures forall j: nat | i <= j && (r == -1 || j < r) :: !OccursAt(s, t, j)
    decreases |s| - i
  {
    if i + |t| > |s| then -1
    else if OccursAt(s, t, i) then i
    else IndexOf(s, t, i + 1)
  }

  lemma MatchesAreFolded(text: string, query: string, j: nat)
    requires j <= |text|
    ensures Highlight.MatchAt(text[j..], query)
       <==> OccursAt(Lower(text), Lower(query), j)
  {
    if j + |query| <= |text| {
      assert text[j..][..|query|] == text[j..j + |query|];
      assert Lower(text[j..j + |query|]) == Lower(text)[j..j + |query|];
    }
  }

  /** Without a match before `i` counting may go on there. */
  lemma {:induction false} SkipTo(text: string, query: string, pos: nat, i: nat)
    requires query != [] && pos <= i <= |text|
    requires forall j: nat | pos <= j < i :: !Highlight.MatchAt(text[j..], query)
    ensures Highlight.Count(text[pos..], query) == Highlight.Count(text[i..], query)
    decreases i - pos
  {
    if pos < i {
      assert text[pos..][1..] == text[pos + 1..];
      SkipTo(text, query, pos + 1, i);
    }
  }

  lemma {:induction false} NextMatch(text: string, query: string, pos: nat, i: int, next: int)
    requires query != [] && pos <= |text| && i == IndexOf(Lower(text), Lower(query), pos) && next == i + |query|
    ensures i == -1 ==> Highlight.Count(text[pos..], query) == 0
    ensures i != -1 ==> pos <= i < next <= |text|
                        && Highlight.Count(text[pos..], query) == 1 + Highlight.Count(text[next..], query)
  {
    var end := if i == -1 then |text| else i;
    forall j: nat | pos <= j < end ensures !Highlight.MatchAt(text[j..], query) {
      MatchesAreFolded(text, query, j);
    }
    SkipTo(text, query, pos, end);
    if i != -1 {
      MatchesAreFolded(text, query, i);
      assert text[i..][|query|..] == text[next..];
    }
  }

  /** Counts the matches in the folded text; these are the matches that highlighting marks. */
  method CountMatches(text: string, query: string) returns (count: nat)
    ensures count == CountOf(text, query)
  {
    count := 0;
    if query == [] {
      return;
    }
    var lowerText, lowerQuery := Lower(text), Lower(query);
    var pos := 0;
    assert text[0..] == text;
    while true
      invariant pos <= |text| && count + Highlight.Count(text[pos..], query) == Highlight.Count(text, query)
      decreases |text| - pos
    {
      var i := IndexOf(lowerText, lowerQuery, pos);
      var next := i + |lowerQuery|;
      NextMatch(text, query, pos, i, next);
      if i == -1 {
        return;
      }
      count := count + 1;
      pos := next;
    }
  }

  /** Text that is its own HTML and has no tags is marked as often as it is counted. */
  lemma {:induction false} CountsAgree(text: string, query: string)
    requires query != [] && '<' !in text
    ensures Highlight.AllCount(Highlight.Parts(text), query) == CountOf(text, query)
  {
    assert Highlight.Parts(text) == [text];
    assert Highlight.AllCount([text][1..], query) == 0;
  }

  // ---------------------------------------------------------------------------------------------
  // All lines
  // ---------------------------------------------------------------------------------------------

  function Counts(messages: seq<string>, query: string): seq<nat> {
    seq(|messages|, i requires 0 <= i < |messages| => CountOf(messages[i], query))
  }

  /** The lines with matches; the first count is that of line `base`. */
  function Matches(counts: seq<nat>, base: nat): seq<MatchInfo> {
    if counts == [] then []
    else (if counts[0] > 0 then [MatchInfo(base, counts[0])] else []) + Matches(counts[1..], base + 1)
  }

  function Total(matches: seq<MatchInfo>): nat {
    if matches == [] then 0 else matches[0].matchCount + Total(matches[1..])
  }

  /** The number of matches before a line. */
  function Offset(counts: seq<nat>, line: nat): nat
    requires line <= |counts|
  {
    if line == 0 then 0 else counts[0] + Offset(counts[1..], line - 1)
  }

  /** Line and position in the line of match number `index`. */
  function Locate(matches: seq<MatchInfo>, index: nat): (nat, nat)
    requires index < Total(matches)
  {
    var m := matches[0];
    if index < m.matchCount then (m.logIndex, index) else Locate(matches[1..], index - m.matchCount)
  }

  method FindMatches(messages: seq<string>, query: string) returns (matches: seq<MatchInfo>)
    ensures matches == Matches(Counts(messages, query), 0)
  {
    matches := [];
    var i := 0;
    ghost var counts := Counts(messages, query);
    ghost var todo := Matches(counts, 0);
    assert counts[0..] == counts;
    while i < |messages|
      invariant i <= |messages| && todo == Matches(counts[i..], i) && matches + todo == Matches(counts, 0)
    {
      var next := i + 1;
      var count := CountMatches(messages[i], query);
      assert counts[i..][1..] == counts[next..];
      todo := Matches(counts[next..], next);
      if count > 0 {
        matches := matches + [MatchInfo(i, count)];
      }
      i := next;
    }
  }

  lemma FirstLine(counts: seq<nat>, base: nat)
    requires counts != []
    ensures var matches, rest := Matches(counts, base), Matches(counts[1..], base + 1);
            if counts[0] == 0 then matches == rest
            else matches != [] && matches[0] == MatchInfo(base, counts[0]) && matches[1..] == rest
  {
    var rest := Matches(counts[1..], base + 1);
    assert [] + rest == rest;
  }

  lemma {:induction false} TotalIsTheSum(counts: seq<nat>, base: nat)
    ensures Total(Matches(counts, base)) == Offset(counts, |counts|)
  {
    if counts != [] {
      FirstLine(counts, base);
      TotalIsTheSum(counts[1..], base + 1);
    }
  }

  /** From a match to its place. */
  lemma {:induction false} LocatedPlace(counts: seq<nat>, base: nat, index: nat)
    requires index < Total(Matches(counts, base))
    ensures var (l, p) := Locate(Matches(counts, base), index);
            base <= l < base + |counts| && p < counts[l - base] && Offset(counts, l - base) + p == index
  {
    if counts != [] {
      FirstLine(counts, base);
      if index >= counts[0] {
        LocatedPlace(counts[1..], base + 1, index - counts[0]);
      }
    }
  }

  lemma {:induction false} LocateSkips(matches: seq<MatchInfo>, index: nat, further: nat)
    requires matches != [] && further == index + matches[0].matchCount && index < Total(matches[1..])
    ensures further < Total(matches) && Locate(matches, further) == Locate(matches[1..], index)
  {
  }

  lemma LocateInRest(counts: seq<nat>, base: nat, index: nat)
    requires counts != [] && index < Total(Matches(counts[1..], base + 1))
    ensures index + counts[0] < Total(Matches(counts, base))
    ensures Locate(Matches(counts, base), index + counts[0]) == Locate(Matches(counts[1..], base + 1), index)
  {
    FirstLine(counts, base);
    if counts[0] > 0 {
      LocateSkips(Matches(counts, base), index, index + counts[0]);
    }
  }

  /** From a place to its match. */
  lemma {:induction false} PlaceIsLocated(counts: seq<nat>, base: nat, line: nat, position: nat)
    requires line < |counts| && position < counts[line]
    ensures Offset(counts, line) + position < Total(Matches(counts, base))
    ensures Locate(Matches(counts, base), Offset(counts, line) + position) == (base + line, position)
  {
    if line == 0 {
      FirstLine(counts, base);
    } else {
      PlaceIsLocated(counts[1..], base + 1, line - 1, position);
      LocateInRest(counts, base, Offset(counts[1..], line - 1) + position);
    }
  }

  /** Every index of the cursor is a match of some line, namely the one that as many matches precede. */
  lemma {:induction false} EveryIndexHasAPlace(messages: seq<string>, query: string, index: nat)
    requires index < Total(Matches(Counts(messages, query), 0))
    ensures var counts := Counts(messages, query);
            var (l, p) := Locate(Matches(counts, 0), index);
            l < |messages| && p < CountOf(messages[l], query) && Offset(counts, l) + p == index
  {
    LocatedPlace(Counts(messages, query), 0, index);
  }

  /** Every match of every line has an index of the cursor; so places and indices correspond one to one. */
  lemma {:induction false} EveryPlaceHasAnIndex(messages: seq<string>, query: string, l: nat, p: nat)
    requires l < |messages| && p < CountOf(messages[l], query)
    ensures var counts := Counts(messages, query);
            && Offset(counts, l) + p < Total(Matches(counts, 0)) == Offset(counts, |counts|)
            && Locate(Matches(counts, 0), Offset(counts, l) + p) == (l, p)
  {
    PlaceIsLocated(Counts(messages, query), 0, l, p);
    TotalIsTheSum(Counts(messages, query), 0);
  }

  /** In a line that is its own HTML, highlighting makes the match under the cursor the current one, and no other. */
  lemma {:induction false} CurrentMatchIsMarked(messages: seq<string>, query: string, index: nat)
    requires query != [] && index < Total(Matches(Counts(messages, query), 0))
    ensures var (l, p) := Locate(Matches(Counts(messages, query), 0), index);
            && l < |messages|
            && ('<' !in messages[l] ==>
                  var flags := Highlight.Flags(Highlight.AllPieces(Highlight.Parts(messages[l]), query, 0, Some(p)));
                  p < |flags| && forall k: nat | k < |flags| :: flags[k] <==> k == p)
  {
    EveryIndexHasAPlace(messages, query, index);
    var (l, p) := Locate(Matches(Counts(messages, query), 0), index);
    Highlight.MarksAreNumbered(messages[l], query, Some(p));
    if '<' !in messages[l] {
      CountsAgree(messages[l], query);
    }
  }

  // ---------------------------------------------------------------------------------------------
  // The cursor
  // ---------------------------------------------------------------------------------------------

  function Clamped(index: nat, total: nat): nat {
    if total > 0 then (if index < total - 1 then index else total - 1) else 0
  }

  /** The line and the position in it where the cursor stands. */
  method CurrentMatch(matches: seq<MatchInfo>, total: nat, index: nat) returns (place: Option<(nat, nat)>)
    requires total == Total(matches)
    ensures place == if total == 0 then None else Some(Locate(matches, Clamped(index, total)))
  {
    place := None;
    if total == 0 || matches == [] {
      return;
    }
    var clamped := if index < total - 1 then index else total - 1;
    var remaining: nat, i := clamped, 0;
    assert matches[0..] == matches;
    while i < |matches|
      invariant i <= |matches| && remaining < Total(matches[i..])
      invariant Locate(matches[i..], remaining) == Locate(matches, clamped)
    {
      var m, next := matches[i], i + 1;
      assert matches[i..][0] == m && matches[i..][1..] == matches[next..];
      if remaining < m.matchCount {
        return Some((m.logIndex, remaining));
      }
      remaining, i := remaining - m.matchCount, next;
    }
    // The source has a fallback to the last match here.
    assert false;
  }

  function NextIndex(index: nat, total: nat): nat
    requires total > 0
  {
    (index + 1) % total
  }

  /** The remainder takes the sign of the dividend in the source; here that is never negative. */
  function PrevIndex(index: nat, total: nat): nat
    requires total > 0
  {
    (index - 1 + total) % total
  }

  class SearchState {
    var currentMatchIndex: nat

    constructor ()
      ensures currentMatchIndex == 0
    {
      currentMatchIndex := 0;
    }

    method Next(total: nat)
      modifies this
      ensures currentMatchIndex
           == if total == 0 then old(currentMatchIndex) else NextIndex(old(currentMatchIndex), total)
    {
      if total == 0 {
        return;
      }
      currentMatchIndex := (currentMatchIndex + 1) % total;
    }

    method Prev(total: nat)
      modifies this
      ensures currentMatchIndex
           == if total == 0 then old(currentMatchIndex) else PrevIndex(old(currentMatchIndex), total)
    {
      if total == 0 {
        return;
      }
      currentMatchIndex := (currentMatchIndex - 1 + total) % total;
    }
  }

  lemma Remainders(index: nat, total: nat)
    requires index < total
    ensures index % total == index && total % total == 0 && (index + total) % total == index
  {
  }

  lemma InRangeSteps(index: nat, total: nat)
    requires index < total
    ensures NextIndex(index, total) == if index == total - 1 then 0 else index + 1
    ensures PrevIndex(index, total) == if index == 0 then total - 1 else index - 1
  {
    Remainders(if index == total - 1 then 0 else index + 1, total);
    Remainders(if index == 0 then 0 else index - 1, total);
    Remainders(total - 1, total);
  }

  /** In range the two are inverse to each other. */
  lemma NextAndPrevAreInverse(index: nat, total: nat)
    requires index < total
    ensures NextIndex(index, total) < total && PrevIndex(NextIndex(index, total), total) == index
    ensures PrevIndex(index, total) < total && NextIndex(PrevIndex(index, total), total) == index
  {
    InRangeSteps(index, total);
    InRangeSteps(if index == total - 1 then 0 else index + 1, total);
    InRangeSteps(if index == 0 then total - 1 else index - 1, total);
  }

  function Steps(index: nat, total: nat, n: nat): nat
    requires total > 0
  {
    if n == 0 then index else NextIndex(Steps(index, total, n - 1), total)
  }

  /** Going on leads through all matches: to match `to` in as many steps as it lies ahead. */
  lemma {:induction false} NextReachesAll(index: nat, to: nat, total: nat)
    requires index < total && to < total
    ensures Steps(index, total, if to >= index then to - index else to - index + total) == to
    decreases if to >= index then to - index else to - index + total
  {
    if to != index {
      InRangeSteps(if to == 0 then total - 1 else to - 1, total);
      NextReachesAll(index, if to == 0 then total - 1 else to - 1, total);
    }
  }

  /** When matches disappear, the cursor shows the last one left, but keeps its index; the next step then leads
      to the first match, as it should, exactly if the index was in range or just fits. */
  lemma NextFromAStaleIndexExactly(index: nat, total: nat)
    requires total > 0
    ensures Clamped(NextIndex(index, total), total) == NextIndex(Clamped(index, total), total)
       <==> index < total || (index + 1) % total == 0
  {
    InRangeSteps(Clamped(index, total), total);
    assert 0 <= (index + 1) % total < total;
  }

  /** Index 4 of now three matches: the view shows the last one, and the next step stays there. */
  lemma StaleIndexStandsStill()
    ensures Clamped(4, 3) == 2 && NextIndex(2, 3) == 0 && Clamped(NextIndex(4, 3), 3) == 2
  {
  }
}
