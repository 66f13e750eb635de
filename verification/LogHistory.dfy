/** The gateway's search over all nodes: it asks every streamer, puts the answers together, sorts them stably
    by timestamp and cuts the result to the limit. */
module LogHistory {
  import opened Options
  import opened Sequences
  import opened Timestamps
  import opened StableSort
  import opened LogLines
  import opened LogReader
  import LogStats

  const STREAMER_DEFAULT := 100
  const STREAMER_MAXIMUM := 500

  datatype NodeLine = NodeLine(line: LogLine, node: string)

  /** The settled request to one streamer. */
  datatype Answer = Rejected | Fulfilled(node: string, lines: seq<LogLine>, hasMore: bool)

  datatype Page = Page(lines: seq<NodeLine>, hasMore: bool)

  function Stamp(l: NodeLine): Timestamp {
    l.line.timestamp
  }

  /** The limit that a streamer works with. */
  function StreamerLimit(limit: int): (r: int)
    ensures 1 <= r <= 500
    ensures r == limit || (limit <= 0 && r == 100) || (limit > 500 && r == 500)
  {
    if limit <= 0 then STREAMER_DEFAULT else if limit > STREAMER_MAXIMUM then STREAMER_MAXIMUM else limit
  }

  predicate Accepted(a: Answer, node: string) {
    a.Fulfilled? && (node == "" || a.node == node)
  }

  function Tagged(lines: seq<LogLine>, node: string): seq<NodeLine> {
    seq(|lines|, i requires 0 <= i < |lines| => NodeLine(lines[i], node))
  }

  /** The lines of the accepted answers, one answer after the other. */
  function Collected(answers: seq<Answer>, node: string): seq<NodeLine> {
    if answers == [] then []
    else
      var a := answers[|answers| - 1];
      Collected(answers[..|answers| - 1], node) + if Accepted(a, node) then Tagged(a.lines, a.node) else []
  }

  predicate SomeHasMore(answers: seq<Answer>, node: string) {
    exists a <- answers :: Accepted(a, node) && a.hasMore
  }

  /** The leading part of a sequence as the library's `slice(0, n)` takes it; a negative `n` counts from the end. */
  function Slice<T>(s: seq<T>, n: int): seq<T> {
    if n >= 0 then Take(s, n) else Take(s, |s| + n)
  }

  function Merged(answers: seq<Answer>, node: string, limit: int): Page {
    var all := Sort(Collected(answers, node), Stamp);
    if |all| > limit then Page(Slice(all, limit), true) else Page(all, SomeHasMore(answers, node))
  }

  method Search(answers: seq<Answer>, node: string, limit: Option<int>) returns (page: Page)
    ensures page == Merged(answers, node, if limit.Some? then limit.value else 100)
  {
    var allLines: seq<NodeLine> := [];
    var hasMore := false;
    var i := 0;
    while i < |answers|
      invariant i <= |answers|
      invariant allLines == Collected(answers[..i], node)
      invariant hasMore <==> SomeHasMore(answers[..i], node)
    {
      var data, next := answers[i], i + 1;
      CollectedNext(answers, i, next, node);
      if data.Fulfilled? && (node == "" || data.node == node) {
        allLines := allLines + Tagged(data.lines, data.node);
        if data.hasMore {
          hasMore := true;
        }
      }
      i := next;
    }
    assert answers[..i] == answers;
    allLines := Sort(allLines, Stamp);
    var n := if limit.Some? then limit.value else 100;
    if |allLines| > n {
      allLines := Slice(allLines, n);
      hasMore := true;
    }
    page := Page(allLines, hasMore);
  }

  lemma {:induction false} CollectedNext(answers: seq<Answer>, i: nat, next: nat, node: string)
    requires next == i + 1 <= |answers|
    ensures Collected(answers[..next], node)
         == Collected(answers[..i], node)
            + if Accepted(answers[i], node) then Tagged(answers[i].lines, answers[i].node) else []
    ensures SomeHasMore(answers[..next], node)
       <==> SomeHasMore(answers[..i], node) || (Accepted(answers[i], node) && answers[i].hasMore)
  {
    assert answers[..next] == answers[..i] + [answers[i]];
    assert answers[..next][..i] == answers[..i];
    assert answers[i] in answers[..next];
    if SomeHasMore(answers[..i], node) {
      var a :| a in answers[..i] && Accepted(a, node) && a.hasMore;
      assert a in answers[..next];
    }
  }

  // ---------------------------------------------------------------------------------------------
  // The merge of the first lines of all nodes is the first lines of everything
  // ---------------------------------------------------------------------------------------------

  /** In a sorted list only the first `k` lines can be among the first `k` of everything. */
  lemma {:induction false} DropTail(before: seq<NodeLine>, list: seq<NodeLine>, after: seq<NodeLine>, k: nat)
    requires Sorted(list, Stamp)
    ensures Take(Sort(before + list + after, Stamp), k) == Take(Sort(before + Take(list, k) + after, Stamp), k)
    decreases |list|
  {
    if |list| > k {
      DropLast(before, list, after, k);
      DropTail(before, list[..|list| - 1], after, k);
      assert Take(list[..|list| - 1], k) == Take(list, k);
    }
  }

  lemma {:induction false} DropLast(before: seq<NodeLine>, list: seq<NodeLine>, after: seq<NodeLine>, k: nat)
    requires Sorted(list, Stamp) && |list| > k
    ensures Take(Sort(before + list + after, Stamp), k) == Take(Sort(before + list[..|list| - 1] + after, Stamp), k)
  {
    var init, x := list[..|list| - 1], list[|list| - 1];
    LastLineIsLate(before, list, k);
    FirstsWithout(before + init, x, after, k, Stamp);
    LastLineLast(before, list, after);
  }

  lemma LastLineLast(before: seq<NodeLine>, list: seq<NodeLine>, after: seq<NodeLine>)
    requires list != []
    ensures before + list[..|list| - 1] + [list[|list| - 1]] + after == before + list + after
  {
    assert list == list[..|list| - 1] + [list[|list| - 1]];
  }

  lemma LastLineIsLate(before: seq<NodeLine>, list: seq<NodeLine>, k: nat)
    requires Sorted(list, Stamp) && |list| > k
    ensures Count(before + list[..|list| - 1], Stamp(list[|list| - 1]), true, Stamp) >= k
  {
    var n := |list| - 1;
    CountConcat(before, list[..n], Stamp(list[n]), true, Stamp);
    CountAll(list[..n], Stamp(list[n]), true, Stamp);
  }

  function Flat(lists: seq<seq<NodeLine>>): seq<NodeLine> {
    if lists == [] then [] else Flat(lists[..|lists| - 1]) + lists[|lists| - 1]
  }

  function Firsts(lists: seq<seq<NodeLine>>, k: nat): seq<seq<NodeLine>> {
    if lists == [] then [] else Firsts(lists[..|lists| - 1], k) + [Take(lists[|lists| - 1], k)]
  }

  lemma {:induction false} FirstsSuffice(lists: seq<seq<NodeLine>>, after: seq<NodeLine>, k: nat)
    requires forall l <- lists :: Sorted(l, Stamp)
    ensures Take(Sort(Flat(lists) + after, Stamp), k) == Take(Sort(Flat(Firsts(lists, k)) + after, Stamp), k)
    decreases |lists|
  {
    if lists != [] {
      var init, last := lists[..|lists| - 1], lists[|lists| - 1];
      var first := Take(last, k);
      DropTail(Flat(init), last, after, k);
      Associate(Flat(init), first, after);
      FirstsSuffice(init, first + after, k);
      Associate(Flat(Firsts(init, k)), first, after);
      FlatSnoc(Firsts(init, k), first);
    }
  }

  lemma {:induction false} FlatSnoc(lists: seq<seq<NodeLine>>, list: seq<NodeLine>)
    ensures Flat(lists + [list]) == Flat(lists) + list
  {
    assert (lists + [list])[..|lists|] == lists;
  }

  // ---------------------------------------------------------------------------------------------
  // The gateway's page
  // ---------------------------------------------------------------------------------------------

  /** What the accepted streamers answer from: the full list of matches of each. */
  ghost predicate AnswersFrom(answers: seq<Answer>, node: string, lists: seq<seq<NodeLine>>, k: int)
    decreases |answers|
  {
    if answers == [] then lists == []
    else
      var n, a := |answers| - 1, answers[|answers| - 1];
      if !Accepted(a, node) then AnswersFrom(answers[..n], node, lists, k)
      else
        && lists != []
        && AnswersFrom(answers[..n], node, lists[..|lists| - 1], k)
        && AnswersExactly(a, lists[|lists| - 1], k)
  }

  /** The first `k` lines; without `hasMore` these are all, and with it they are `k`. */
  ghost predicate AnswersExactly(a: Answer, list: seq<NodeLine>, k: int)
    requires a.Fulfilled?
  {
    && Tagged(a.lines, a.node) == Take(list, k)
    && (a.hasMore ==> |a.lines| == k)
    && (!a.hasMore ==> Tagged(a.lines, a.node) == list)
  }

  lemma {:induction false} CollectedFirsts(answers: seq<Answer>, node: string, lists: seq<seq<NodeLine>>, k: nat)
    requires AnswersFrom(answers, node, lists, k)
    ensures Collected(answers, node) == Flat(Firsts(lists, k))
    ensures !SomeHasMore(answers, node) ==> Collected(answers, node) == Flat(lists)
    ensures SomeHasMore(answers, node) ==> |Collected(answers, node)| >= k
    decreases |answers|
  {
    if answers != [] {
      var n := |answers| - 1;
      CollectedNext(answers, n, n + 1, node);
      assert answers[..n + 1] == answers;
      if Accepted(answers[n], node) {
        var init, last := lists[..|lists| - 1], lists[|lists| - 1];
        CollectedFirsts(answers[..n], node, init, k);
        FlatSnoc(Firsts(init, k), Take(last, k));
      } else {
        CollectedFirsts(answers[..n], node, lists, k);
      }
    }
  }

  /** If every node's matches are in order, the page starts with the lines with which a stable sort of all
      matches of all nodes starts, up to the limit and to what a streamer returns at most. */
  lemma {:induction false} MergeStartsAsTheWhole(answers: seq<Answer>, node: string, lists: seq<seq<NodeLine>>,
                                                 limit: int)
    requires limit > 0 && AnswersFrom(answers, node, lists, StreamerLimit(limit))
    requires forall l <- lists :: Sorted(l, Stamp)
    ensures var k := StreamerLimit(limit);
            Take(Merged(answers, node, limit).lines, k) == Take(Sort(Flat(lists), Stamp), k)
  {
    var k := StreamerLimit(limit);
    CollectedFirsts(answers, node, lists, k);
    FirstsSuffice(lists, [], k);
    assert Flat(lists) + [] == Flat(lists) && Flat(Firsts(lists, k)) + [] == Flat(Firsts(lists, k));
    TakeOfPage(answers, node, limit, k);
  }

  lemma {:induction false} TakeOfPage(answers: seq<Answer>, node: string, limit: int, k: nat)
    requires 0 <= k <= limit
    ensures Take(Merged(answers, node, limit).lines, k) == Take(Sort(Collected(answers, node), Stamp), k)
  {
  }

  /** Whatever the limit, and in whatever order the nodes found their lines: the page is the first lines of what the
      streamers return, which is the first lines of every node, stably sorted. */
  lemma {:induction false} MergeIsTheFirstOfFirsts(answers: seq<Answer>, node: string, lists: seq<seq<NodeLine>>,
                                                   limit: int)
    requires limit > 0 && AnswersFrom(answers, node, lists, StreamerLimit(limit))
    ensures Merged(answers, node, limit).lines == Take(Sort(Flat(Firsts(lists, StreamerLimit(limit))), Stamp), limit)
  {
    CollectedFirsts(answers, node, lists, StreamerLimit(limit));
  }

  /** With a limit that streamers accept, the page is the first `limit` lines of everything. */
  lemma {:induction false} MergeIsTheFirstOfAll(answers: seq<Answer>, node: string, lists: seq<seq<NodeLine>>,
                                                limit: int)
    requires 1 <= limit <= 500 && AnswersFrom(answers, node, lists, limit) && forall l <- lists :: Sorted(l, Stamp)
    ensures Merged(answers, node, limit).lines == Take(Sort(Flat(lists), Stamp), limit)
  {
    MergeStartsAsTheWhole(answers, node, lists, limit);
  }

  /** Without `hasMore` nothing was left out, in whatever order the nodes found their lines. */
  lemma {:induction false} NoMoreMeansAll(answers: seq<Answer>, node: string, lists: seq<seq<NodeLine>>, limit: int)
    requires limit > 0 && AnswersFrom(answers, node, lists, StreamerLimit(limit))
    requires !Merged(answers, node, limit).hasMore
    ensures Merged(answers, node, limit).lines == Sort(Flat(lists), Stamp)
  {
    CollectedFirsts(answers, node, lists, StreamerLimit(limit));
  }

  /** With `hasMore` the page is full. */
  lemma {:induction false} MoreMeansFull(answers: seq<Answer>, node: string, lists: seq<seq<NodeLine>>, limit: int)
    requires 1 <= limit <= 500 && AnswersFrom(answers, node, lists, limit)
    requires Merged(answers, node, limit).hasMore
    ensures |Merged(answers, node, limit).lines| == limit
  {
    CollectedFirsts(answers, node, lists, limit);
  }

  lemma {:induction false} FirstsLength(lists: seq<seq<NodeLine>>, k: nat)
    ensures |Flat(Firsts(lists, k))| <= |Flat(lists)|
    ensures |Flat(Firsts(lists, k))| == |Flat(lists)| <==> forall l <- lists :: |l| <= k
  {
    if lists != [] {
      var init, last := lists[..|lists| - 1], lists[|lists| - 1];
      assert lists == init + [last];
      FirstsLength(init, k);
      FlatSnoc(Firsts(init, k), Take(last, k));
    }
  }

  /** `hasMore` says the truth for any positive limit, unless there is no more and yet a streamer said there was. */
  lemma {:induction false} PageHasMoreIsHonestExactly(answers: seq<Answer>, node: string, lists: seq<seq<NodeLine>>,
                                                      limit: int)
    requires limit > 0 && AnswersFrom(answers, node, lists, StreamerLimit(limit))
    ensures var total := |Flat(lists)|;
            (Merged(answers, node, limit).hasMore <==> total > limit)
            <==> total > limit || forall a <- answers :: a.Fulfilled? && (node == "" || a.node == node) ==> !a.hasMore
  {
    CollectedFirsts(answers, node, lists, StreamerLimit(limit));
    FirstsLength(lists, StreamerLimit(limit));
  }

  /** A negative limit leaves out that many lines at the end. */
  lemma {:induction false} NegativeLimitCutsTheEnd(answers: seq<Answer>, node: string, limit: int)
    requires limit < 0
    ensures var sorted := Sort(Collected(answers, node), Stamp);
            Merged(answers, node, limit) == Page(if |sorted| > -limit then sorted[..|sorted| + limit] else [], true)
  {
  }

  /** A page is as long as it should be exactly if the streamers, each of which returns at most 500 lines,
      return enough lines together, or return all they have. */
  lemma {:induction false} PageLengthExactly(answers: seq<Answer>, node: string, lists: seq<seq<NodeLine>>, limit: int)
    requires limit > 0 && AnswersFrom(answers, node, lists, StreamerLimit(limit))
    ensures var k, total := StreamerLimit(limit), |Flat(lists)|;
            |Merged(answers, node, limit).lines| == (if total < limit then total else limit)
            <==> limit <= |Flat(Firsts(lists, k))| || forall l <- lists :: |l| <= k
  {
    CollectedFirsts(answers, node, lists, StreamerLimit(limit));
    FirstsLength(lists, StreamerLimit(limit));
  }

  // ---------------------------------------------------------------------------------------------
  // Lines that are cut off
  // ---------------------------------------------------------------------------------------------

  /** What the streamers leave out. */
  function Rests(lists: seq<seq<NodeLine>>, k: nat): seq<seq<NodeLine>> {
    if lists == [] then []
    else
      var last := lists[|lists| - 1];
      Rests(lists[..|lists| - 1], k) + [last[|Take(last, k)|..]]
  }

  lemma {:induction false} RestsSnoc(lists: seq<seq<NodeLine>>, last: seq<NodeLine>, k: nat)
    ensures Flat(Rests(lists + [last], k)) == Flat(Rests(lists, k)) + last[|Take(last, k)|..]
  {
    assert (lists + [last])[..|lists|] == lists;
    FlatSnoc(Rests(lists, k), last[|Take(last, k)|..]);
  }

  predicate Absent(lines: seq<NodeLine>, from: seq<NodeLine>) {
    forall x <- lines :: x !in from
  }

  lemma AbsentParts(a: seq<NodeLine>, b: seq<NodeLine>, from: seq<NodeLine>)
    ensures Absent(a + b, from) <==> Absent(a, from) && Absent(b, from)
  {
    assert forall x :: x in a + b <==> x in a || x in b;
  }

  lemma InsertedAmongFirsts(s: seq<NodeLine>, p: nat, x: NodeLine, limit: nat)
    requires p <= |s|
    ensures p < limit ==> x in Take(InsertAt(s, p, x), limit)
    ensures limit <= p ==> Take(InsertAt(s, p, x), limit) == Take(s, limit)
  {
    assert InsertAt(s, p, x)[p] == x;
  }

  /** A line that is not among the first `limit` can be left out. */
  lemma {:induction false} DropAbsent(before: seq<NodeLine>, x: NodeLine, after: seq<NodeLine>, limit: nat)
    requires x !in Take(Sort(before + [x] + after, Stamp), limit)
    ensures Take(Sort(before + [x] + after, Stamp), limit) == Take(Sort(before + after, Stamp), limit)
  {
    var p := SortWithout(before, x, after, Stamp);
    InsertedAmongFirsts(Sort(before + after, Stamp), p, x, limit);
  }

  lemma {:induction false} DropAbsentTail(before: seq<NodeLine>, first: seq<NodeLine>, rest: seq<NodeLine>,
                                          after: seq<NodeLine>, limit: nat)
    requires Absent(rest, Take(Sort(before + (first + rest) + after, Stamp), limit))
    ensures Take(Sort(before + (first + rest) + after, Stamp), limit)
         == Take(Sort(before + first + after, Stamp), limit)
    decreases |rest|
  {
    if rest == [] {
      assert first + rest == first;
    } else {
      var init, x := rest[..|rest| - 1], rest[|rest| - 1];
      assert rest == init + [x] && first + rest == (first + init) + [x];
      AbsentParts(init, [x], Take(Sort(before + (first + rest) + after, Stamp), limit));
      Associate(before, first + init, [x]);
      assert x in [x];
      DropAbsent(before + (first + init), x, after, limit);
      DropAbsentTail(before, first, init, after, limit);
    }
  }

  lemma {:induction false} FirstsSufficeFor(lists: seq<seq<NodeLine>>, after: seq<NodeLine>, k: nat, limit: nat)
    requires Absent(Flat(Rests(lists, k)), Take(Sort(Flat(lists) + after, Stamp), limit))
    ensures Take(Sort(Flat(lists) + after, Stamp), limit)
         == Take(Sort(Flat(Firsts(lists, k)) + after, Stamp), limit)
    decreases |lists|
  {
    if lists != [] {
      var init, last := lists[..|lists| - 1], lists[|lists| - 1];
      var first := Take(last, k);
      var rest := last[|first|..];
      assert lists == init + [last] && last == first + rest;
      RestsSnoc(init, last, k);
      AbsentParts(Flat(Rests(init, k)), rest, Take(Sort(Flat(lists) + after, Stamp), limit));
      DropAbsentTail(Flat(init), first, rest, after, limit);
      Associate(Flat(init), first, after);
      FirstsSufficeFor(init, first + after, k, limit);
      Associate(Flat(Firsts(init, k)), first, after);
      FlatSnoc(Firsts(init, k), first);
    }
  }

  lemma {:induction false} SortedFrom(s: seq<NodeLine>, x: NodeLine, limit: nat)
    requires x in Take(Sort(s, Stamp), limit)
    ensures x in s
  {
    SortPermutes(s, Stamp);
    assert x in multiset(Sort(s, Stamp));
  }

  /** Whatever the limit, and in whatever order the nodes found their lines: the page is the first `limit` lines of
      everything, exactly if no line that the streamers cut off belongs to these; provided that such a line is not
      the same as one that was returned. */
  lemma {:induction false} PageIsOfTheWholeExactly(answers: seq<Answer>, node: string, lists: seq<seq<NodeLine>>,
                                                   limit: int)
    requires limit > 0 && AnswersFrom(answers, node, lists, StreamerLimit(limit))
    requires Absent(Flat(Rests(lists, StreamerLimit(limit))), Flat(Firsts(lists, StreamerLimit(limit))))
    ensures Merged(answers, node, limit).lines == Take(Sort(Flat(lists), Stamp), limit)
       <==> Absent(Flat(Rests(lists, StreamerLimit(limit))), Take(Sort(Flat(lists), Stamp), limit))
  {
    var k, whole := StreamerLimit(limit), Take(Sort(Flat(lists), Stamp), limit);
    var firsts, rests := Flat(Firsts(lists, k)), Flat(Rests(lists, k));
    MergeIsTheFirstOfFirsts(answers, node, lists, limit);
    if Absent(rests, whole) {
      assert Flat(lists) + [] == Flat(lists) && firsts + [] == firsts;
      FirstsSufficeFor(lists, [], k, limit);
    } else if whole == Take(Sort(firsts, Stamp), limit) {
      var x :| x in rests && x in whole;
      SortedFrom(firsts, x, limit);
    }
  }

  // ---------------------------------------------------------------------------------------------
  // The streamers
  // ---------------------------------------------------------------------------------------------

  /** A node; `searches` and `counts` say whether it answers requests for a search and for statistics. */
  datatype Node = Node(name: string, files: seq<LogFile>, searches: bool, counts: bool)

  datatype Endpoint = SearchEndpoint | StatsEndpoint

  predicate Answers(node: Node, endpoint: Endpoint) {
    match endpoint
    case SearchEndpoint => node.searches
    case StatsEndpoint => node.counts
  }

  /** The node answers and the node filter lets it through; the empty name stands for no filter. */
  predicate IsHeard(node: Node, name: string, endpoint: Endpoint) {
    Answers(node, endpoint) && (name == "" || node.name == name)
  }

  function Heard(nodes: seq<Node>, name: string, endpoint: Endpoint): seq<Node> {
    if nodes == [] then []
    else
      var node := nodes[|nodes| - 1];
      Heard(nodes[..|nodes| - 1], name, endpoint) + if IsHeard(node, name, endpoint) then [node] else []
  }

  /** The request to a streamer: its limit is the one that the streamer works with. */
  function Request(params: SearchParams): SearchParams {
    params.(limit := StreamerLimit(params.limit))
  }

  function Respond(node: Node, params: SearchParams, syntax: Syntax): Answer {
    if !node.searches then Rejected
    else
      var r := SearchFiles(node.files, Request(params), syntax);
      Fulfilled(node.name, r.lines, r.hasMore)
  }

  /** All matches that a node can read. */
  function NodeMatches(node: Node, params: SearchParams, syntax: Syntax): seq<NodeLine> {
    Tagged(AllMatches(Kept(node.files, Request(params), syntax), Request(params), syntax), node.name)
  }

  lemma StreamersAnswerExactly(node: Node, params: SearchParams, syntax: Syntax)
    requires node.searches
    ensures AnswersExactly(Respond(node, params, syntax), NodeMatches(node, params, syntax),
                           StreamerLimit(params.limit))
  {
    var p := Request(params);
    SearchAnswers(node.files, p, syntax);
    TaggedTake(AllMatches(Kept(node.files, p, syntax), p, syntax), StreamerLimit(params.limit), node.name);
  }

  lemma TaggedTake(lines: seq<LogLine>, k: nat, node: string)
    ensures Tagged(Take(lines, k), node) == Take(Tagged(lines, node), k)
  {
  }

  function Responses(nodes: seq<Node>, params: SearchParams, syntax: Syntax): seq<Answer> {
    seq(|nodes|, i requires 0 <= i < |nodes| => Respond(nodes[i], params, syntax))
  }

  function MatchesOf(nodes: seq<Node>, params: SearchParams, syntax: Syntax): seq<seq<NodeLine>> {
    seq(|nodes|, i requires 0 <= i < |nodes| => NodeMatches(nodes[i], params, syntax))
  }

  lemma MatchesOfSnoc(nodes: seq<Node>, node: Node, params: SearchParams, syntax: Syntax)
    ensures MatchesOf(nodes + [node], params, syntax)
         == MatchesOf(nodes, params, syntax) + [NodeMatches(node, params, syntax)]
  {
  }

  /** The matches that a search with this node filter is about. */
  function AllHeard(nodes: seq<Node>, name: string, params: SearchParams, syntax: Syntax): seq<seq<NodeLine>> {
    MatchesOf(Heard(nodes, name, SearchEndpoint), params, syntax)
  }

  lemma {:induction false} NodesAnswerExactly(nodes: seq<Node>, name: string, params: SearchParams, syntax: Syntax)
    ensures AnswersFrom(Responses(nodes, params, syntax), name, AllHeard(nodes, name, params, syntax),
                        StreamerLimit(params.limit))
  {
    if nodes != [] {
      var n := |nodes| - 1;
      var answers, heard := Responses(nodes, params, syntax), Heard(nodes[..n], name, SearchEndpoint);
      NodesAnswerExactly(nodes[..n], name, params, syntax);
      assert answers[..n] == Responses(nodes[..n], params, syntax);
      if Accepted(answers[n], name) {
        StreamersAnswerExactly(nodes[n], params, syntax);
        MatchesOfSnoc(heard, nodes[n], params, syntax);
      } else {
        assert heard + [] == heard;
      }
    }
  }

  lemma {:induction false} CollectedFrom(nodes: seq<Node>, name: string, params: SearchParams, syntax: Syntax,
                                         l: NodeLine) returns (i: nat)
    requires l in Collected(Responses(nodes, params, syntax), name)
    ensures i < |nodes| && nodes[i].searches && nodes[i].name == l.node && (name == "" || l.node == name)
    ensures l.line in SearchFiles(nodes[i].files, Request(params), syntax).lines
  {
    var n := |nodes| - 1;
    var answers := Responses(nodes, params, syntax);
    assert answers[..n] == Responses(nodes[..n], params, syntax);
    if l in Collected(answers[..n], name) {
      i := CollectedFrom(nodes[..n], name, params, syntax, l);
    } else {
      i := n;
      assert l in Tagged(answers[n].lines, answers[n].node);
    }
  }

  lemma SliceElement(s: seq<NodeLine>, n: int, l: NodeLine)
    requires l in Slice(s, n)
    ensures l in s
  {
  }

  lemma {:induction false} PageIsCollected(answers: seq<Answer>, name: string, limit: int, l: NodeLine)
    requires l in Merged(answers, name, limit).lines
    ensures l in Collected(answers, name)
  {
    var sorted := Sort(Collected(answers, name), Stamp);
    if |sorted| > limit {
      SliceElement(sorted, limit, l);
    }
    SortPermutes(Collected(answers, name), Stamp);
    assert l in multiset(sorted);
  }

  /** Every line on the page names a node that was heard, and comes from its search. */
  lemma LinesNameTheirNode(nodes: seq<Node>, name: string, params: SearchParams, syntax: Syntax, limit: int,
                           l: NodeLine) returns (i: nat)
    requires l in Merged(Responses(nodes, params, syntax), name, limit).lines
    ensures i < |nodes| && nodes[i].searches && nodes[i].name == l.node && (name == "" || l.node == name)
    ensures l.line in SearchFiles(nodes[i].files, Request(params), syntax).lines
  {
    PageIsCollected(Responses(nodes, params, syntax), name, limit, l);
    i := CollectedFrom(nodes, name, params, syntax, l);
  }

  /** From files to page: the loop over lines, the loop over files, the merge and the cut together return the
      first `limit` of all matches of all nodes that are heard, stably sorted, and `hasMore` is missing only if
      that is all. */
  lemma SearchFindsTheFirstMatches(nodes: seq<Node>, name: string, params: SearchParams, syntax: Syntax)
    requires 1 <= params.limit <= 500
    requires forall l <- AllHeard(nodes, name, params, syntax) :: Sorted(l, Stamp)
    ensures var page := Merged(Responses(nodes, params, syntax), name, params.limit);
            var all := Sort(Flat(AllHeard(nodes, name, params, syntax)), Stamp);
            && page.lines == Take(all, params.limit)
            && (page.hasMore ==> |page.lines| == params.limit)
            && (!page.hasMore ==> page.lines == all)
  {
    var answers, lists := Responses(nodes, params, syntax), AllHeard(nodes, name, params, syntax);
    NodesAnswerExactly(nodes, name, params, syntax);
    MergeIsTheFirstOfAll(answers, name, lists, params.limit);
    if Merged(answers, name, params.limit).hasMore {
      MoreMeansFull(answers, name, lists, params.limit);
    } else {
      NoMoreMeansAll(answers, name, lists, params.limit);
    }
  }

  lemma OneNode(node: Node, params: SearchParams, syntax: Syntax)
    requires node.searches
    ensures AllHeard([node], "", params, syntax) == [NodeMatches(node, params, syntax)]
    ensures Flat(AllHeard([node], "", params, syntax)) == NodeMatches(node, params, syntax)
  {
    assert [node][..0] == [] && Heard([node], "", SearchEndpoint) == [] + [node];
    var list := NodeMatches(node, params, syntax);
    FlatSnoc([], list);
    assert [] + [list] == [list] && [] + list == list;
  }

  /** A node with one log of `n` ticks. */
  function TickingNode(entry: LogLine, n: nat): Node {
    Node("a", [Ticks(entry, n)], true, true)
  }

  lemma OneFile(node: Node, f: LogFile, params: SearchParams, syntax: Syntax)
    requires node.files == [f] && Readable(f)
    ensures NodeMatches(node, params, syntax) == Tagged(Matches(f, Request(params), syntax), node.name)
  {
    ReadableFilesAreKept([f], Request(params), syntax);
    AllMatchesSnoc([], f, Request(params), syntax);
    assert [] + [f] == [f] && [] + Matches(f, Request(params), syntax) == Matches(f, Request(params), syntax);
  }

  lemma {:induction false} TicksOfNode(entry: LogLine, n: nat, params: SearchParams)
    requires LineOf(entry) != "" && MatchFilters(entry, params)
    ensures NodeMatches(TickingNode(entry, n), params, Ticking(entry)) == Tagged(TickEntries(entry, n), "a")
  {
    OneFile(TickingNode(entry, n), Ticks(entry, n), params, Ticking(entry));
    TicksMatch(entry, n, Request(params));
  }

  lemma {:induction false} OneLongList(answers: seq<Answer>, list: seq<NodeLine>)
    requires AnswersFrom(answers, "", [list], 500) && |list| == 501
    ensures var page := Merged(answers, "", 501); |page.lines| == 500 && page.hasMore
  {
    CollectedFirsts(answers, "", [list], 500);
    FlatSnoc([], Take(list, 500));
    FlatSnoc([], list);
    assert [list][..0] == [] && [] + [Take(list, 500)] == [Take(list, 500)] && [] + [list] == [list];
    if !Merged(answers, "", 501).hasMore {
      NoMoreMeansAll(answers, "", [list], 501);
    }
  }

  /** One node with 501 matches, all of which are asked for: one is missing. */
  lemma LimitAboveTheMaximum()
    ensures var params := SearchParams("", "", "", 501, false, t => true);
            var page := Merged(Responses([TickingNode(ENTRY, 501)], params, Ticking(ENTRY)), "", 501);
            && |page.lines| == 500 && page.hasMore
            && |Flat(AllHeard([TickingNode(ENTRY, 501)], "", params, Ticking(ENTRY)))| == 501
  {
    var params := SearchParams("", "", "", 501, false, t => true);
    TicksOfNode(ENTRY, 501, params);
    OneNode(TickingNode(ENTRY, 501), params, Ticking(ENTRY));
    NodesAnswerExactly([TickingNode(ENTRY, 501)], "", params, Ticking(ENTRY));
    OneLongList(Responses([TickingNode(ENTRY, 501)], params, Ticking(ENTRY)),
                NodeMatches(TickingNode(ENTRY, 501), params, Ticking(ENTRY)));
  }

  // ---------------------------------------------------------------------------------------------
  // The summary
  // ---------------------------------------------------------------------------------------------

  datatype StatsAnswer = StatsRejected | StatsFulfilled(node: string, counts: LogStats.Counts, fileCount: nat)

  datatype Summary = Summary(totalLines: nat, errorCount: nat, warnCount: nat, infoCount: nat, fileCount: nat)

  function Added(s: Summary, c: LogStats.Counts, fileCount: nat): Summary {
    Summary(s.totalLines + c.total, s.errorCount + c.errors, s.warnCount + c.warns, s.infoCount + c.infos,
            s.fileCount + fileCount)
  }

  function Summed(answers: seq<StatsAnswer>, node: string): Summary {
    if answers == [] then Summary(0, 0, 0, 0, 0)
    else
      var s, a := Summed(answers[..|answers| - 1], node), answers[|answers| - 1];
      if a.StatsFulfilled? && (node == "" || a.node == node) then Added(s, a.counts, a.fileCount) else s
  }

  method MergeStats(answers: seq<StatsAnswer>, node: string) returns (s: Summary)
    ensures s == Summed(answers, node)
  {
    s := Summary(0, 0, 0, 0, 0);
    var i := 0;
    while i < |answers|
      invariant i <= |answers| && s == Summed(answers[..i], node)
    {
      var a, next := answers[i], i + 1;
      assert answers[..next][..i] == answers[..i];
      if a.StatsFulfilled? && (node == "" || a.node == node) {
        s := Added(s, a.counts, a.fileCount);
      }
      i := next;
    }
    assert answers[..i] == answers;
  }

  function StatsResponse(node: Node, params: SearchParams, syntax: Syntax): StatsAnswer {
    if !node.counts then StatsRejected
    else StatsFulfilled(node.name, LogStats.CountedFiles(node.files, params, syntax), |node.files|)
  }

  function StatsResponses(nodes: seq<Node>, params: SearchParams, syntax: Syntax): seq<StatsAnswer> {
    seq(|nodes|, i requires 0 <= i < |nodes| => StatsResponse(nodes[i], params, syntax))
  }

  /** A number of every node, added up. */
  function SumOver(nodes: seq<Node>, number: Node -> nat): nat {
    if nodes == [] then 0 else SumOver(nodes[..|nodes| - 1], number) + number(nodes[|nodes| - 1])
  }

  /** The summary of these nodes. */
  function SummaryOf(nodes: seq<Node>, params: SearchParams, syntax: Syntax): Summary {
    if nodes == [] then Summary(0, 0, 0, 0, 0)
    else
      var node := nodes[|nodes| - 1];
      Added(SummaryOf(nodes[..|nodes| - 1], params, syntax), LogStats.CountedFiles(node.files, params, syntax),
            |node.files|)
  }

  lemma {:induction false} SummaryOfSnoc(nodes: seq<Node>, node: Node, params: SearchParams, syntax: Syntax)
    ensures SummaryOf(nodes + [node], params, syntax)
         == Added(SummaryOf(nodes, params, syntax), LogStats.CountedFiles(node.files, params, syntax), |node.files|)
    ensures nodes + [] == nodes
  {
    assert (nodes + [node])[..|nodes|] == nodes;
  }

  lemma {:induction false} SummedNext(init: seq<Node>, node: Node, name: string, params: SearchParams, syntax: Syntax)
    ensures var before := Summed(StatsResponses(init, params, syntax), name);
            Summed(StatsResponses(init + [node], params, syntax), name)
            == if !IsHeard(node, name, StatsEndpoint) then before
               else Added(before, LogStats.CountedFiles(node.files, params, syntax), |node.files|)
  {
    assert StatsResponses(init + [node], params, syntax)[..|init|] == StatsResponses(init, params, syntax);
  }

  lemma {:induction false} HeardNext(init: seq<Node>, node: Node, name: string, endpoint: Endpoint)
    ensures Heard(init + [node], name, endpoint)
         == Heard(init, name, endpoint) + if IsHeard(node, name, endpoint) then [node] else []
  {
    assert (init + [node])[..|init|] == init;
  }

  /** The merged summary is that of the nodes that are heard. */
  lemma {:induction false} SummaryOfTheHeard(nodes: seq<Node>, name: string, params: SearchParams, syntax: Syntax)
    ensures Summed(StatsResponses(nodes, params, syntax), name)
         == SummaryOf(Heard(nodes, name, StatsEndpoint), params, syntax)
  {
    if nodes != [] {
      var init, node := nodes[..|nodes| - 1], nodes[|nodes| - 1];
      assert nodes == init + [node];
      SummaryOfTheHeard(init, name, params, syntax);
      SummedNext(init, node, name, params, syntax);
      HeardNext(init, node, name, StatsEndpoint);
      SummaryOfSnoc(Heard(init, name, StatsEndpoint), node, params, syntax);
    }
  }

  /** Each number of a summary is a sum over the nodes. */
  lemma {:induction false} NumbersAddUp(nodes: seq<Node>, params: SearchParams, syntax: Syntax, totals: Node -> nat,
                                        errors: Node -> nat, warns: Node -> nat, infos: Node -> nat,
                                        files: Node -> nat)
    requires forall i | 0 <= i < |nodes| ::
               var c := LogStats.CountedFiles(nodes[i].files, params, syntax);
               && totals(nodes[i]) == c.total && errors(nodes[i]) == c.errors && warns(nodes[i]) == c.warns
               && infos(nodes[i]) == c.infos && files(nodes[i]) == |nodes[i].files|
    ensures SummaryOf(nodes, params, syntax)
         == Summary(SumOver(nodes, totals), SumOver(nodes, errors), SumOver(nodes, warns), SumOver(nodes, infos),
                    SumOver(nodes, files))
  {
    if nodes != [] {
      NumbersAddUp(nodes[..|nodes| - 1], params, syntax, totals, errors, warns, infos, files);
    }
  }

  /** The merged summary has the sums of what the nodes count, each under its name. */
  lemma {:induction false} SummaryAddsUp(nodes: seq<Node>, name: string, params: SearchParams, syntax: Syntax)
    ensures var s, heard := Summed(StatsResponses(nodes, params, syntax), name), Heard(nodes, name, StatsEndpoint);
            && s.totalLines == SumOver(heard, (n: Node) => LogStats.CountedFiles(n.files, params, syntax).total)
            && s.errorCount == SumOver(heard, (n: Node) => LogStats.CountedFiles(n.files, params, syntax).errors)
            && s.warnCount == SumOver(heard, (n: Node) => LogStats.CountedFiles(n.files, params, syntax).warns)
            && s.infoCount == SumOver(heard, (n: Node) => LogStats.CountedFiles(n.files, params, syntax).infos)
            && s.fileCount == SumOver(heard, (n: Node) => |n.files|)
  {
    SummaryOfTheHeard(nodes, name, params, syntax);
    NumbersAddUp(Heard(nodes, name, StatsEndpoint), params, syntax,
                 (n: Node) => LogStats.CountedFiles(n.files, params, syntax).total,
                 (n: Node) => LogStats.CountedFiles(n.files, params, syntax).errors,
                 (n: Node) => LogStats.CountedFiles(n.files, params, syntax).warns,
                 (n: Node) => LogStats.CountedFiles(n.files, params, syntax).infos,
                 (n: Node) => |n.files|);
  }

  lemma {:induction false} NodeTotal(node: Node, params: SearchParams, syntax: Syntax)
    requires forall f <- node.files :: Unbroken(f)
    ensures LogStats.CountedFiles(node.files, params, syntax).total
         == |NodeMatches(node, LogStats.OfLevel(params, ""), syntax)|
  {
    var p, files := LogStats.OfLevel(params, ""), Opened(node.files);
    OpenedFilesAreKept(node.files, Request(p), syntax);
    LogStats.OpenedFilesCount(node.files, params, syntax);
    LogStats.StatsMatchSearch(files, params, syntax);
    LogStats.MatchesAreFilteredEntries(files, p, syntax);
    LogStats.MatchesAreFilteredEntries(files, Request(p), syntax);
    LogStats.LimitDoesNotFilter(LogStats.AllEntries(files, syntax), p, StreamerLimit(p.limit));
  }

  lemma {:induction false} HeardAreNodes(nodes: seq<Node>, name: string, endpoint: Endpoint)
    ensures forall node <- Heard(nodes, name, endpoint) :: node in nodes
  {
    if nodes != [] {
      HeardAreNodes(nodes[..|nodes| - 1], name, endpoint);
    }
  }

  lemma OneMoreNode(nodes: seq<Node>, node: Node, params: SearchParams, syntax: Syntax)
    ensures Flat(MatchesOf(nodes + [node], params, syntax))
         == Flat(MatchesOf(nodes, params, syntax)) + NodeMatches(node, params, syntax)
  {
    MatchesOfSnoc(nodes, node, params, syntax);
    FlatSnoc(MatchesOf(nodes, params, syntax), NodeMatches(node, params, syntax));
  }

  lemma {:induction false} LengthsAddUp(nodes: seq<Node>, params: SearchParams, syntax: Syntax, number: Node -> nat)
    requires forall i | 0 <= i < |nodes| :: |NodeMatches(nodes[i], params, syntax)| == number(nodes[i])
    ensures |Flat(MatchesOf(nodes, params, syntax))| == SumOver(nodes, number)
  {
    if nodes != [] {
      var n := |nodes| - 1;
      LengthsAddUp(nodes[..n], params, syntax, number);
      OneMoreNode(nodes[..n], nodes[n], params, syntax);
      InitAndLast(nodes);
    }
  }

  lemma {:induction false} TotalsAddUp(nodes: seq<Node>, params: SearchParams, syntax: Syntax)
    requires forall node <- nodes :: forall f <- node.files :: Unbroken(f)
    ensures |Flat(MatchesOf(nodes, LogStats.OfLevel(params, ""), syntax))|
         == SumOver(nodes, (n: Node) => LogStats.CountedFiles(n.files, params, syntax).total)
  {
    forall i | 0 <= i < |nodes|
      ensures |NodeMatches(nodes[i], LogStats.OfLevel(params, ""), syntax)|
           == LogStats.CountedFiles(nodes[i].files, params, syntax).total
    {
      assert nodes[i] in nodes;
      NodeTotal(nodes[i], params, syntax);
    }
    LengthsAddUp(nodes, LogStats.OfLevel(params, ""), syntax,
                 (n: Node) => LogStats.CountedFiles(n.files, params, syntax).total);
  }

  /** Without read errors the summary's total is the number of lines that a search of the nodes heard has without
      level, keyword and cursor. */
  lemma {:induction false} SummaryCountsTheSearch(nodes: seq<Node>, name: string, params: SearchParams, syntax: Syntax)
    requires forall node <- nodes :: forall f <- node.files :: Unbroken(f)
    ensures Summed(StatsResponses(nodes, params, syntax), name).totalLines
         == |Flat(MatchesOf(Heard(nodes, name, StatsEndpoint), LogStats.OfLevel(params, ""), syntax))|
  {
    SummaryAddsUp(nodes, name, params, syntax);
    HeardAreNodes(nodes, name, StatsEndpoint);
    TotalsAddUp(Heard(nodes, name, StatsEndpoint), params, syntax);
  }
}
