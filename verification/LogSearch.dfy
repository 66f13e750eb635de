/** Searching log files: the streaming loop over one file and the loop over files. */
module LogSearch {
  import opened Options
  import opened Sequences
  import opened LogLines

  datatype FileResult = Failed | Found(lines: seq<LogLine>, hasMore: bool)

  // ---------------------------------------------------------------------------------------------
  // One file
  // ---------------------------------------------------------------------------------------------

  /** The file's last line is a raw line that matches, and no line carries a timestamp. */
  predicate RawMatchEndsFile(f: LogFile, params: SearchParams, syntax: Syntax) {
    var texts := Texts(f.lines, f.name, syntax);
    && !Seen(texts) && texts != [] && !syntax.blank(f.lines[|f.lines| - 1])
    && MatchFilters(texts[|texts| - 1], params)
  }

  /** The entry that is still open at the end of the file matches. */
  predicate OpenEntryMatches(f: LogFile, params: SearchParams, syntax: Syntax) {
    var open := Open(Texts(f.lines, f.name, syntax));
    open.Some? && MatchFilters(open.value, params)
  }

  /** The loop reads up to the end of the file, and so runs into its read error. */
  predicate RunsOut(f: LogFile, params: SearchParams, limit: int, syntax: Syntax) {
    var matches := Matches(f, params, syntax);
    |matches| < limit || (|matches| == limit && OpenEntryMatches(f, params, syntax))
  }

  /** What searching a file means: the first `limit` matches.  `hasMore` is set when more matches follow, and
      also with exactly `limit` matches, unless the last of them is a raw line that ends the file. */
  function FileSearch(f: LogFile, params: SearchParams, limit: int, syntax: Syntax): FileResult {
    var matches := Matches(f, params, syntax);
    if !f.opens || (f.breaks && RunsOut(f, params, limit, syntax)) then Failed
    else Found(Take(matches, limit),
               |matches| > limit || (|matches| == limit && !RawMatchEndsFile(f, params, syntax)))
  }

  lemma {:induction false} FirstTextNext(lines: seq<string>, i: nat, next: nat, syntax: Syntax)
    requires next == i + 1 <= |lines|
    ensures FirstText(lines[..next], syntax)
         == match FirstText(lines[..i], syntax)
            case Some(first) => Some(first)
            case None => if syntax.blank(lines[i]) then None else Some(lines[i])
  {
    assert lines[..next][..i] == lines[..i];
  }

  lemma {:induction false} TextsNext(lines: seq<string>, i: nat, next: nat, name: string, syntax: Syntax)
    requires next == i + 1 <= |lines|
    ensures Texts(lines[..next], name, syntax)
         == Texts(lines[..i], name, syntax) + if syntax.blank(lines[i]) then [] else [Parsed(lines, i, name, syntax)]
  {
    assert lines[..next][..i] == lines[..i] && lines[..next][..next] == lines[..next];
  }

  /** The settled entries of the lines read so far are a prefix of the file's entries. */
  lemma {:induction false} SettledMatchesStay(f: LogFile, i: nat, params: SearchParams, syntax: Syntax)
    requires i <= |f.lines|
    ensures var texts := Texts(f.lines[..i], f.name, syntax);
            && Filter(Settled(texts), params) <= Matches(f, params, syntax)
            && (Seen(texts) ==> Seen(Texts(f.lines, f.name, syntax)))
            && Settled(texts) <= Settled(Texts(f.lines, f.name, syntax))
  {
    var texts, all := Texts(f.lines[..i], f.name, syntax), Texts(f.lines, f.name, syntax);
    TextsGrow(f.lines, i, f.name, syntax);
    assert all == texts + all[|texts|..];
    SettledStays(texts, all[|texts|..]);
    SettledInGroup(all);
    PrefixOfPrefix(Settled(texts), Settled(all), Group(all));
    FilterOfPrefix(Settled(texts), Group(all), params);
  }

  /** The open entry joins the matches, if it passes the filters. */
  function Flushed(lines: seq<LogLine>, current: Option<LogLine>, params: SearchParams): seq<LogLine> {
    if current.Some? && MatchFilters(current.value, params) then lines + [current.value] else lines
  }

  lemma {:induction false} FilterOpen(texts: seq<LogLine>, params: SearchParams)
    ensures Filter(Group(texts), params) == Flushed(Filter(Settled(texts), params), Open(texts), params)
  {
    SettledAndOpen(texts);
    var open := Open(texts);
    if open.Some? {
      FilterSnoc(Settled(texts), open.value, params);
    }
  }

  lemma {:induction false} OpenEntryAtTheEnd(f: LogFile, params: SearchParams, syntax: Syntax)
    ensures |Matches(f, params, syntax)|
         == |Filter(Settled(Texts(f.lines, f.name, syntax)), params)|
            + if OpenEntryMatches(f, params, syntax) then 1 else 0
  {
    FilterOpen(Texts(f.lines, f.name, syntax), params);
  }

  /** Enough matches when an entry starts: the loop may stop. */
  lemma {:induction false} EnoughAtEntry(f: LogFile, i: nat, params: SearchParams, limit: int, syntax: Syntax)
    requires f.opens && i <= |f.lines| && limit > 0
    requires var texts := Texts(f.lines[..i], f.name, syntax);
             Seen(texts) && |Filter(Settled(texts), params)| == limit
    ensures FileSearch(f, params, limit, syntax)
            == Found(Filter(Settled(Texts(f.lines[..i], f.name, syntax)), params), true)
  {
    SettledMatchesStay(f, i, params, syntax);
    NotRunOut(f, i, params, limit, syntax);
  }

  /** Enough matches with a raw line: the loop may stop. */
  lemma {:induction false} EnoughAtRawLine(f: LogFile, i: nat, params: SearchParams, limit: int, syntax: Syntax)
    requires f.opens && i < |f.lines| && limit > 0 && !syntax.blank(f.lines[i])
    requires var texts := Texts(f.lines[..i + 1], f.name, syntax);
             && !Seen(texts) && |Filter(Settled(texts), params)| == limit
             && texts != [] && MatchFilters(texts[|texts| - 1], params)
    ensures FileSearch(f, params, limit, syntax)
         == Found(Filter(Settled(Texts(f.lines[..i + 1], f.name, syntax)), params), i + 1 < |f.lines|)
  {
    if i + 1 == |f.lines| {
      assert f.lines[..i + 1] == f.lines;
      EnoughAtLastLine(f, params, limit, syntax);
    } else {
      EnoughWithinTheFile(f, i + 1, params, limit, syntax);
    }
  }

  lemma {:induction false} EnoughAtLastLine(f: LogFile, params: SearchParams, limit: int, syntax: Syntax)
    requires f.opens && limit > 0 && RawMatchEndsFile(f, params, syntax)
    requires |Filter(Settled(Texts(f.lines, f.name, syntax)), params)| == limit
    ensures FileSearch(f, params, limit, syntax)
            == Found(Filter(Settled(Texts(f.lines, f.name, syntax)), params), false)
  {
  }

  /** Enough matches with lines left: the file has more matches, or they are not ended by a raw line. */
  lemma {:induction false} EnoughWithinTheFile(f: LogFile, i: nat, params: SearchParams, limit: int, syntax: Syntax)
    requires f.opens && i < |f.lines| && limit > 0
    requires |Filter(Settled(Texts(f.lines[..i], f.name, syntax)), params)| == limit
    ensures FileSearch(f, params, limit, syntax)
            == Found(Filter(Settled(Texts(f.lines[..i], f.name, syntax)), params), true)
  {
    NotRunOut(f, i, params, limit, syntax);
    if RawMatchEndsFile(f, params, syntax) {
      RawMatchIsOneMore(f, i, params, syntax);
    }
    FullPage(f, Filter(Settled(Texts(f.lines[..i], f.name, syntax)), params), params, limit, syntax);
  }

  lemma FullPage(f: LogFile, found: seq<LogLine>, params: SearchParams, limit: int, syntax: Syntax)
    requires f.opens && found <= Matches(f, params, syntax) && limit == |found| > 0
             && !RunsOut(f, params, limit, syntax)
    requires RawMatchEndsFile(f, params, syntax) ==> |Matches(f, params, syntax)| > limit
    ensures FileSearch(f, params, limit, syntax) == Found(found, true)
  {
  }

  lemma {:induction false} NotRunOut(f: LogFile, i: nat, params: SearchParams, limit: int, syntax: Syntax)
    requires i <= |f.lines| && limit > 0
    requires |Filter(Settled(Texts(f.lines[..i], f.name, syntax)), params)| == limit
    ensures Filter(Settled(Texts(f.lines[..i], f.name, syntax)), params) <= Matches(f, params, syntax)
    ensures !RunsOut(f, params, limit, syntax)
  {
    SettledMatchesStay(f, i, params, syntax);
    FilterOfPrefix(Settled(Texts(f.lines[..i], f.name, syntax)), Settled(Texts(f.lines, f.name, syntax)), params);
    OpenEntryAtTheEnd(f, params, syntax);
  }

  /** A raw match that ends the file is one more match than in any shorter part. */
  lemma {:induction false} RawMatchIsOneMore(f: LogFile, i: nat, params: SearchParams, syntax: Syntax)
    requires i < |f.lines| && RawMatchEndsFile(f, params, syntax)
    ensures |Matches(f, params, syntax)| > |Filter(Settled(Texts(f.lines[..i], f.name, syntax)), params)|
  {
    var shorter := f.(lines := f.lines[..|f.lines| - 1]);
    LastRawMatch(f, shorter, params, syntax);
    FewerBefore(shorter, i, params, syntax);
    assert shorter.lines[..i] == f.lines[..i];
  }

  lemma {:induction false} LastRawMatch(f: LogFile, shorter: LogFile, params: SearchParams, syntax: Syntax)
    requires RawMatchEndsFile(f, params, syntax) && shorter == f.(lines := f.lines[..|f.lines| - 1])
    ensures |Matches(f, params, syntax)| == |Matches(shorter, params, syntax)| + 1
  {
    LastRawLine(f, params, syntax);
  }

  lemma {:induction false} FewerBefore(f: LogFile, i: nat, params: SearchParams, syntax: Syntax)
    requires i <= |f.lines|
    ensures |Filter(Settled(Texts(f.lines[..i], f.name, syntax)), params)| <= |Matches(f, params, syntax)|
  {
    SettledMatchesStay(f, i, params, syntax);
  }

  lemma {:induction false} LastRawLine(f: LogFile, params: SearchParams, syntax: Syntax)
    requires RawMatchEndsFile(f, params, syntax)
    ensures |Matches(f, params, syntax)| == |Filter(Group(Texts(f.lines[..|f.lines| - 1], f.name, syntax)), params)| + 1
  {
    var n := |f.lines| - 1;
    var init, line := Texts(f.lines[..n], f.name, syntax), Parsed(f.lines, n, f.name, syntax);
    assert Texts(f.lines, f.name, syntax) == init + [line];
    GroupSnoc(init, line);
    FilterSnoc(Group(init), line, params);
  }

  // ---------------------------------------------------------------------------------------------
  // The loop
  // ---------------------------------------------------------------------------------------------

  /** What the loop holds: the chosen parser, the matches so far, and the open entry. */
  datatype Holdings = Holdings(parser: Option<string>, lines: seq<LogLine>, current: Option<LogLine>)

  function Read(held: Holdings, line: string, lineNo: nat, name: string, params: SearchParams,
                syntax: Syntax): Holdings {
    if syntax.blank(line) then held
    else
      var first := if held.parser.Some? then held.parser.value else line;
      var parsed := syntax.parse(first, line).(file := name, lineNo := lineNo);
      if parsed.timestamp != "" then Holdings(Some(first), Flushed(held.lines, held.current, params), Some(parsed))
      else if held.current.Some? then Holdings(Some(first), held.lines, Some(Continued(held.current.value, parsed)))
      else Holdings(Some(first), held.lines + if MatchFilters(parsed, params) then [parsed] else [], None)
  }

  function HoldingsAt(f: LogFile, i: nat, params: SearchParams, syntax: Syntax): Holdings
    requires i <= |f.lines|
  {
    if i == 0 then Holdings(None, [], None)
    else Read(HoldingsAt(f, i - 1, params, syntax), f.lines[i - 1], i, f.name, params, syntax)
  }

  /** The matches among the settled entries of the lines read, and the open entry. */
  function HoldingsOf(lines: seq<string>, name: string, params: SearchParams, syntax: Syntax): Holdings {
    var texts := Texts(lines, name, syntax);
    Holdings(FirstText(lines, syntax), Filter(Settled(texts), params), Open(texts))
  }

  lemma HoldingsStep(lines: seq<string>, n: nat, i: nat, name: string, params: SearchParams, syntax: Syntax)
    requires i == n + 1 <= |lines|
    ensures HoldingsOf(lines[..i], name, params, syntax)
         == Read(HoldingsOf(lines[..n], name, params, syntax), lines[n], i, name, params, syntax)
  {
    FirstTextNext(lines, n, i, syntax);
    TextsNext(lines, n, i, name, syntax);
    var texts := Texts(lines[..n], name, syntax);
    if syntax.blank(lines[n]) {
      assert texts + [] == texts;
    } else {
      ReadMatches(texts, Parsed(lines, n, name, syntax), params);
    }
  }

  lemma {:induction false} HoldingsAre(f: LogFile, i: nat, params: SearchParams, syntax: Syntax)
    requires i <= |f.lines|
    ensures HoldingsAt(f, i, params, syntax) == HoldingsOf(f.lines[..i], f.name, params, syntax)
  {
    if i > 0 {
      var n: nat := i - 1;
      HoldingsAre(f, n, params, syntax);
      HoldingsNext(f, n, i, params, syntax);
      HoldingsStep(f.lines, n, i, f.name, params, syntax);
    }
  }

  lemma {:induction false} ReadMatches(texts: seq<LogLine>, line: LogLine, params: SearchParams)
    ensures Filter(Settled(texts + [line]), params)
         == (if line.timestamp != "" then Flushed(Filter(Settled(texts), params), Open(texts), params)
             else Filter(Settled(texts), params)
                  + if Open(texts).None? && MatchFilters(line, params) then [line] else [])
    ensures Open(texts + [line])
         == if line.timestamp != "" then Some(line)
            else if Open(texts).Some? then Some(Continued(Open(texts).value, line))
            else None
  {
    ReadText(texts, line);
    FilterOpen(texts, params);
    FilterSnoc(Settled(texts), line, params);
  }

  lemma {:induction false} HoldingsNext(f: LogFile, i: nat, next: nat, params: SearchParams, syntax: Syntax)
    requires next == i + 1 <= |f.lines|
    ensures HoldingsAt(f, next, params, syntax)
         == Read(HoldingsAt(f, i, params, syntax), f.lines[i], next, f.name, params, syntax)
  {
  }

  lemma {:induction false} StopAtEntry(f: LogFile, i: nat, lines: seq<LogLine>, params: SearchParams, limit: int,
                                       syntax: Syntax)
    requires f.opens && i <= |f.lines| && limit == |lines| > 0
    requires var held := HoldingsAt(f, i, params, syntax); held.lines == lines && held.current.Some?
    ensures FileSearch(f, params, limit, syntax) == Found(lines, true)
  {
    HoldingsAre(f, i, params, syntax);
    EnoughAtEntry(f, i, params, limit, syntax);
  }

  lemma {:induction false} StopAtRawLine(f: LogFile, i: nat, next: nat, lines: seq<LogLine>, params: SearchParams,
                                         limit: int, syntax: Syntax)
    requires f.opens && next == i + 1 <= |f.lines| && limit == |lines| > 0
    requires var held := HoldingsAt(f, next, params, syntax); held.lines == lines && held.current.None?
    requires |HoldingsAt(f, i, params, syntax).lines| < limit
    ensures FileSearch(f, params, limit, syntax) == Found(lines, next < |f.lines|)
  {
    HoldingsAre(f, i, params, syntax);
    HoldingsAre(f, next, params, syntax);
    TextsNext(f.lines, i, next, f.name, syntax);
    ReadMatches(Texts(f.lines[..i], f.name, syntax), Parsed(f.lines, i, f.name, syntax), params);
    SettledAndOpen(Texts(f.lines[..next], f.name, syntax));
    EnoughAtRawLine(f, i, params, limit, syntax);
  }

  /** The loop has read the whole file. */
  lemma {:induction false} AtTheEnd(f: LogFile, params: SearchParams, limit: int, syntax: Syntax)
    requires f.opens && |HoldingsAt(f, |f.lines|, params, syntax).lines| < limit
    ensures var held := HoldingsAt(f, |f.lines|, params, syntax);
            var all := Flushed(held.lines, held.current, params);
            && |all| <= limit
            && FileSearch(f, params, limit, syntax) == if f.breaks then Failed else Found(all, |all| == limit)
  {
    HoldingsAre(f, |f.lines|, params, syntax);
    assert f.lines[..|f.lines|] == f.lines;
    FilterOpen(Texts(f.lines, f.name, syntax), params);
    OpenEntryAtTheEnd(f, params, syntax);
  }

  /** The streaming search of one file. */
  method SearchFile(f: LogFile, params: SearchParams, limit: int, syntax: Syntax) returns (r: FileResult)
    requires limit > 0
    ensures r == FileSearch(f, params, limit, syntax)
  {
    if !f.opens {
      return Failed;
    }
    var lines: seq<LogLine> := [];
    var parser: Option<string> := None;
    var current: Option<LogLine> := None;
    var i := 0;
    while i < |f.lines|
      invariant i <= |f.lines| && |lines| < limit
      invariant HoldingsAt(f, i, params, syntax) == Holdings(parser, lines, current)
    {
      var line, next := f.lines[i], i + 1;
      HoldingsNext(f, i, next, params, syntax);
      if !syntax.blank(line) {
        if parser.None? {
          parser := Some(line);
        }
        var parsed := syntax.parse(parser.value, line).(file := f.name, lineNo := next);
        if parsed.timestamp != "" {
          lines := Flushed(lines, current, params);
          if |lines| >= limit {
            StopAtEntry(f, next, lines, params, limit, syntax);
            return Found(lines, true);
          }
          current := Some(parsed);
        } else if current.Some? {
          current := Some(Continued(current.value, parsed));
        } else if MatchFilters(parsed, params) {
          lines := lines + [parsed];
          if |lines| >= limit {
            StopAtRawLine(f, i, next, lines, params, limit, syntax);
            return Found(lines, next < |f.lines|);
          }
        }
      }
      i := next;
    }
    AtTheEnd(f, params, limit, syntax);
    lines := Flushed(lines, current, params);
    if f.breaks {
      return Failed;
    }
    if |lines| >= limit {
      return Found(lines[..limit], true);
    }
    return Found(lines, false);
  }
}
