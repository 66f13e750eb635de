/** Log lines, search parameters and the filters of the log reader. */
module LogLines {
  import opened Folding
  import opened Options
  import opened Sequences
  import opened Timestamps

  datatype LogLine = LogLine(timestamp: Timestamp, level: string, source: string, message: string, metadata: string,
                             file: string, lineNo: nat)

  /** `timed` says that a from or to time is given; `within` is then the check of a non-empty timestamp. */
  datatype SearchParams = SearchParams(level: string, keyword: string, after: Timestamp, limit: int,
                                       timed: bool, within: Timestamp -> bool)

  /** How lines are read: which are blank, and how a parser that was chosen by its first line parses one.
      A parsed line without timestamp is a raw or a continuation line. */
  datatype Syntax = Syntax(blank: string -> bool, parse: (string, string) -> LogLine)

  /** A log file: whether it opens, its lines up to the end or up to a read error, and whether it has one. */
  datatype LogFile = LogFile(name: string, opens: bool, lines: seq<string>, breaks: bool)

  predicate Contains(s: string, t: string) {
    exists i: nat | i <= |s| :: OccursAt(s, t, i)
  }

  predicate MatchTimeRange(timestamp: Timestamp, params: SearchParams) {
    if !params.timed then true else timestamp != "" && params.within(timestamp)
  }

  predicate MatchFilters(line: LogLine, params: SearchParams) {
    if params.level != "" && !EqualFold(line.level, params.level) then false
    else if params.keyword != "" && !Contains(Lower(line.message), Lower(params.keyword))
            && !Contains(Lower(line.source), Lower(params.keyword))
            && !Contains(Lower(line.metadata), Lower(params.keyword))
    then false
    else if params.after != "" && line.timestamp != "" && Leq(line.timestamp, params.after) then false
    else MatchTimeRange(line.timestamp, params)
  }

  // ---------------------------------------------------------------------------------------------
  // What a file contains
  // ---------------------------------------------------------------------------------------------

  /** The first line with text, which chooses the parser. */
  function FirstText(lines: seq<string>, syntax: Syntax): Option<string> {
    if lines == [] then None
    else
      var n := |lines| - 1;
      match FirstText(lines[..n], syntax)
      case Some(first) => Some(first)
      case None => if syntax.blank(lines[n]) then None else Some(lines[n])
  }

  function Parsed(lines: seq<string>, i: nat, name: string, syntax: Syntax): LogLine
    requires i < |lines|
  {
    var first := FirstText(lines[..i], syntax);
    syntax.parse(if first.Some? then first.value else lines[i], lines[i]).(file := name, lineNo := i + 1)
  }

  /** The parsed lines with text. */
  function Texts(lines: seq<string>, name: string, syntax: Syntax): seq<LogLine> {
    if lines == [] then []
    else
      var n := |lines| - 1;
      Texts(lines[..n], name, syntax) + if syntax.blank(lines[n]) then [] else [Parsed(lines, n, name, syntax)]
  }

  /** Some line carries a timestamp, so that later lines without one continue an entry. */
  predicate Seen(texts: seq<LogLine>) {
    exists t <- texts :: t.timestamp != ""
  }

  function Continued(entry: LogLine, line: LogLine): LogLine {
    entry.(message := entry.message + "\n" + line.message)
  }

  /** The entries: a line with timestamp starts one, a line without continues the last one, and before the
      first timestamp every line is an entry of its own. */
  function Group(texts: seq<LogLine>): (entries: seq<LogLine>)
    ensures texts != [] ==> entries != []
  {
    if texts == [] then []
    else
      var init, line := texts[..|texts| - 1], texts[|texts| - 1];
      var entries := Group(init);
      if line.timestamp == "" && Seen(init) then entries[..|entries| - 1] + [Continued(entries[|entries| - 1], line)]
      else entries + [line]
  }

  function Filter(entries: seq<LogLine>, params: SearchParams): seq<LogLine> {
    if entries == [] then []
    else
      var n := |entries| - 1;
      Filter(entries[..n], params) + if MatchFilters(entries[n], params) then [entries[n]] else []
  }

  function Entries(f: LogFile, syntax: Syntax): seq<LogLine> {
    Group(Texts(f.lines, f.name, syntax))
  }

  /** What a search in the file is about: the entries that pass the filters. */
  function Matches(f: LogFile, params: SearchParams, syntax: Syntax): seq<LogLine> {
    Filter(Entries(f, syntax), params)
  }

  // ---------------------------------------------------------------------------------------------
  // Growing files
  // ---------------------------------------------------------------------------------------------

  lemma {:induction false} FilterConcat(a: seq<LogLine>, b: seq<LogLine>, params: SearchParams)
    ensures Filter(a + b, params) == Filter(a, params) + Filter(b, params)
  {
    if b == [] {
      assert a + b == a;
    } else {
      assert (a + b)[..|a + b| - 1] == a + b[..|b| - 1];
      FilterConcat(a, b[..|b| - 1], params);
    }
  }

  lemma {:induction false} FilterSnoc(a: seq<LogLine>, e: LogLine, params: SearchParams)
    ensures Filter(a + [e], params) == Filter(a, params) + if MatchFilters(e, params) then [e] else []
  {
    assert (a + [e])[..|a|] == a;
  }

  lemma {:induction false} GroupSnoc(texts: seq<LogLine>, line: LogLine)
    ensures var entries := Group(texts);
            Group(texts + [line]) == if line.timestamp == "" && Seen(texts) && entries != []
                                     then entries[..|entries| - 1] + [Continued(entries[|entries| - 1], line)]
                                     else entries + [line]
    ensures Seen(texts + [line]) <==> Seen(texts) || line.timestamp != ""
  {
    assert (texts + [line])[..|texts|] == texts;
    if Seen(texts) {
      var t :| t in texts && t.timestamp != "";
      assert t in texts + [line];
    }
    assert (texts + [line])[|texts|] == line;
  }

  function Text(lines: seq<LogLine>): string {
    if lines == [] then "" else Text(lines[..|lines| - 1]) + lines[|lines| - 1].message + "\n"
  }

  function Stamps(lines: seq<LogLine>): seq<Timestamp> {
    if lines == [] then []
    else
      var last := lines[|lines| - 1].timestamp;
      Stamps(lines[..|lines| - 1]) + if last == "" then [] else [last]
  }

  lemma {:induction false} GroupingKeepsText(texts: seq<LogLine>)
    ensures Text(Group(texts)) == Text(texts) && Stamps(Group(texts)) == Stamps(texts)
  {
    if texts != [] {
      var init, line := texts[..|texts| - 1], texts[|texts| - 1];
      var entries := Group(init);
      GroupingKeepsText(init);
      if line.timestamp == "" && Seen(init) {
        ContinuedKeepsEverything(entries, line);
      } else {
        assert (entries + [line])[..|entries|] == entries;
      }
    }
  }

  /** Once an entry has a timestamp, the later ones have, and without any timestamp every line is an entry. */
  ghost predicate StampedLast(texts: seq<LogLine>, entries: seq<LogLine>) {
    && (Seen(texts) ==> entries != [] && entries[|entries| - 1].timestamp != "")
    && (forall i: nat, j: nat | i < j < |entries| :: entries[i].timestamp != "" ==> entries[j].timestamp != "")
    && (!Seen(texts) ==> entries == texts)
  }

  lemma StampedLastAfter(texts: seq<LogLine>, entries: seq<LogLine>, line: LogLine)
    requires StampedLast(texts, entries) && (Seen(texts + [line]) <==> Seen(texts) || line.timestamp != "")
    ensures StampedLast(texts + [line],
                        if line.timestamp == "" && Seen(texts) && entries != []
                        then entries[..|entries| - 1] + [Continued(entries[|entries| - 1], line)]
                        else entries + [line])
  {
    if !Seen(texts) {
      UnseenUnstamped(texts);
    }
  }

  lemma {:induction false} StampedComeLast(texts: seq<LogLine>)
    ensures StampedLast(texts, Group(texts))
  {
    if texts != [] {
      var init, line := texts[..|texts| - 1], texts[|texts| - 1];
      assert texts == init + [line];
      StampedComeLast(init);
      GroupSnoc(init, line);
      StampedLastAfter(init, Group(init), line);
    }
  }

  /** Grouping loses no text and no timestamp, and entries without timestamp can only come first. */
  lemma {:induction false} GroupingKeepsEverything(texts: seq<LogLine>)
    ensures Text(Group(texts)) == Text(texts) && Stamps(Group(texts)) == Stamps(texts)
    ensures Seen(texts) ==> Group(texts)[|Group(texts)| - 1].timestamp != ""
    ensures forall i: nat, j: nat | i < j < |Group(texts)| ::
              Group(texts)[i].timestamp != "" ==> Group(texts)[j].timestamp != ""
    ensures !Seen(texts) ==> Group(texts) == texts
  {
    GroupingKeepsText(texts);
    StampedComeLast(texts);
  }

  lemma UnseenUnstamped(texts: seq<LogLine>)
    requires !Seen(texts)
    ensures forall i | 0 <= i < |texts| :: texts[i].timestamp == ""
  {
    forall i | 0 <= i < |texts| ensures texts[i].timestamp == "" {
      assert texts[i] in texts;
    }
  }

  lemma ContinuedKeepsEverything(entries: seq<LogLine>, line: LogLine)
    requires entries != [] && line.timestamp == ""
    ensures var n := |entries| - 1;
            var continued := entries[..n] + [Continued(entries[n], line)];
            Text(continued) == Text(entries) + line.message + "\n" && Stamps(continued) == Stamps(entries)
  {
    var n := |entries| - 1;
    var continued := entries[..n] + [Continued(entries[n], line)];
    assert continued[..n] == entries[..n];
    assert Text(continued) == Text(entries[..n]) + (entries[n].message + "\n" + line.message) + "\n";
  }

  /** The last entry, which a later line may continue. */
  function Open(texts: seq<LogLine>): Option<LogLine> {
    var entries := Group(texts);
    if Seen(texts) && entries != [] then Some(entries[|entries| - 1]) else None
  }

  /** The entries that no later line can change. */
  function Settled(texts: seq<LogLine>): seq<LogLine> {
    var entries := Group(texts);
    if Seen(texts) && entries != [] then entries[..|entries| - 1] else entries
  }

  lemma {:induction false} SettledAndOpen(texts: seq<LogLine>)
    ensures Group(texts) == Settled(texts) + if Open(texts).Some? then [Open(texts).value] else []
    ensures Open(texts).Some? <==> Seen(texts)
  {
  }

  /** A line with timestamp settles the open entry and opens one; a line without continues the open entry, if
      there is one, and is an entry of its own otherwise. */
  lemma {:induction false} ReadText(texts: seq<LogLine>, line: LogLine)
    ensures var more, open := texts + [line], Open(texts);
            if line.timestamp != "" then Settled(more) == Group(texts) && Open(more) == Some(line)
            else if open.Some? then Settled(more) == Settled(texts) && Open(more) == Some(Continued(open.value, line))
            else Settled(more) == Settled(texts) + [line] && Open(more) == None
  {
    GroupSnoc(texts, line);
  }

  lemma {:induction false} SettledInGroup(texts: seq<LogLine>)
    ensures Settled(texts) <= Group(texts)
  {
  }

  lemma SettledStaysOnce(texts: seq<LogLine>, line: LogLine)
    ensures Settled(texts) <= Settled(texts + [line])
    ensures Seen(texts) ==> Seen(texts + [line])
  {
    GroupSnoc(texts, line);
  }

  lemma PrefixOfPrefix(a: seq<LogLine>, b: seq<LogLine>, c: seq<LogLine>)
    requires a <= b && b <= c
    ensures a <= c
  {
  }

  lemma LastLast(a: seq<LogLine>, b: seq<LogLine>)
    requires b != []
    ensures a + b == a + b[..|b| - 1] + [b[|b| - 1]]
  {
  }

  /** They are still there, in front, when lines are added. */
  lemma {:induction false} SettledStays(texts: seq<LogLine>, more: seq<LogLine>)
    ensures Settled(texts) <= Settled(texts + more)
    ensures Seen(texts) ==> Seen(texts + more)
  {
    if more == [] {
      assert texts + more == texts;
    } else {
      var n := |more| - 1;
      var before := texts + more[..n];
      SettledStays(texts, more[..n]);
      LastLast(texts, more);
      SettledStaysOnce(before, more[n]);
      PrefixOfPrefix(Settled(texts), Settled(before), Settled(before + [more[n]]));
    }
  }

  lemma {:induction false} TextsGrow(lines: seq<string>, i: nat, name: string, syntax: Syntax)
    requires i <= |lines|
    ensures Texts(lines[..i], name, syntax) <= Texts(lines, name, syntax)
    decreases |lines|
  {
    if i == |lines| {
      assert lines[..i] == lines;
    } else {
      var n := |lines| - 1;
      TextsGrow(lines[..n], i, name, syntax);
      assert lines[..n][..i] == lines[..i];
    }
  }

  lemma {:induction false} FilterOfPrefix(a: seq<LogLine>, b: seq<LogLine>, params: SearchParams)
    requires a <= b
    ensures Filter(a, params) <= Filter(b, params)
  {
    assert b == a + b[|a|..];
    FilterConcat(a, b[|a|..], params);
  }
}
