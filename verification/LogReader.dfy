/** Searching the files of an application: the loop over files, and what its answer means. */
module LogReader {
  import opened Sequences
  import opened LogLines
  import opened LogSearch

  const DEFAULT_LIMIT := 100

  datatype SearchResult = SearchResult(lines: seq<LogLine>, hasMore: bool)

  function Limit(params: SearchParams): (limit: int)
    ensures limit > 0
  {
    if params.limit <= 0 then DEFAULT_LIMIT else params.limit
  }

  predicate Readable(f: LogFile) {
    f.opens && !f.breaks
  }

  /** The matches of the files, one file after the other. */
  function AllMatches(files: seq<LogFile>, params: SearchParams, syntax: Syntax): seq<LogLine> {
    if files == [] then []
    else AllMatches(files[..|files| - 1], params, syntax) + Matches(files[|files| - 1], params, syntax)
  }

  lemma {:induction false} AllMatchesSnoc(files: seq<LogFile>, f: LogFile, params: SearchParams, syntax: Syntax)
    ensures AllMatches(files + [f], params, syntax) == AllMatches(files, params, syntax) + Matches(f, params, syntax)
  {
    assert (files + [f])[..|files|] == files;
  }

  /** What one more file adds to a result. */
  function WithFile(r: SearchResult, f: LogFile, params: SearchParams, syntax: Syntax): SearchResult {
    if |r.lines| >= Limit(params) then r.(hasMore := true)
    else
      match FileSearch(f, params, Limit(params) - |r.lines|, syntax)
      case Failed => r
      case Found(lines, more) => SearchResult(r.lines + lines, r.hasMore || more)
  }

  function SearchFiles(files: seq<LogFile>, params: SearchParams, syntax: Syntax): SearchResult {
    if files == [] then SearchResult([], false)
    else WithFile(SearchFiles(files[..|files| - 1], params, syntax), files[|files| - 1], params, syntax)
  }

  /** The search cannot open the file, or runs into its read error. */
  predicate Fails(r: SearchResult, f: LogFile, params: SearchParams, syntax: Syntax) {
    !f.opens || (|r.lines| < Limit(params) && FileSearch(f, params, Limit(params) - |r.lines|, syntax) == Failed)
  }

  /** The files that are not dropped. */
  function Kept(files: seq<LogFile>, params: SearchParams, syntax: Syntax): seq<LogFile> {
    if files == [] then []
    else
      var r, f := SearchFiles(files[..|files| - 1], params, syntax), files[|files| - 1];
      Kept(files[..|files| - 1], params, syntax) + if Fails(r, f, params, syntax) then [] else [f]
  }

  /** The first `limit` of all these matches; without `hasMore` there are no others, and with it the page is full. */
  ghost predicate Exact(r: SearchResult, all: seq<LogLine>, limit: int) {
    && r.lines == Take(all, limit)
    && (r.hasMore ==> |r.lines| == limit)
    && (!r.hasMore ==> r.lines == all)
  }

  /** A search of one file returns its first matches. */
  lemma FileSearchIsExact(f: LogFile, params: SearchParams, limit: int, syntax: Syntax)
    requires limit > 0
    ensures match FileSearch(f, params, limit, syntax)
            case Failed => !Readable(f)
            case Found(lines, more) => Exact(SearchResult(lines, more), Matches(f, params, syntax), limit)
  {
  }

  lemma {:induction false} FullPage(r: SearchResult, kept: seq<LogFile>, f: LogFile, params: SearchParams,
                                    syntax: Syntax)
    requires Exact(r, AllMatches(kept, params, syntax), Limit(params)) && |r.lines| >= Limit(params)
    ensures Exact(r.(hasMore := true), AllMatches(kept, params, syntax), Limit(params))
    ensures Exact(r.(hasMore := true), AllMatches(kept + [f], params, syntax), Limit(params))
  {
    AllMatchesSnoc(kept, f, params, syntax);
    TakePlus(AllMatches(kept, params, syntax), Matches(f, params, syntax), Limit(params));
  }

  lemma TakePlus(a: seq<LogLine>, b: seq<LogLine>, limit: int)
    requires |Take(a, limit)| >= limit
    ensures Take(a + b, limit) == Take(a, limit)
  {
  }

  lemma {:induction false} FoundFile(r: SearchResult, kept: seq<LogFile>, f: LogFile, params: SearchParams,
                                     syntax: Syntax, limit: int, lines: seq<LogLine>, more: bool)
    requires limit == Limit(params) > |r.lines| && Exact(r, AllMatches(kept, params, syntax), limit)
    requires FileSearch(f, params, limit - |r.lines|, syntax) == Found(lines, more)
    ensures Exact(SearchResult(r.lines + lines, r.hasMore || more), AllMatches(kept + [f], params, syntax), limit)
  {
    FileSearchIsExact(f, params, limit - |r.lines|, syntax);
    AllMatchesSnoc(kept, f, params, syntax);
    ExactInARow(r, AllMatches(kept, params, syntax), lines, more, Matches(f, params, syntax), limit);
  }

  /** The file is kept unless it fails, and the result stays exact. */
  ghost predicate OneMore(r: SearchResult, kept: seq<LogFile>, f: LogFile, params: SearchParams, syntax: Syntax) {
    Exact(WithFile(r, f, params, syntax),
          AllMatches(kept + if Fails(r, f, params, syntax) then [] else [f], params, syntax), Limit(params))
  }

  lemma {:induction false} OneMoreUnread(r: SearchResult, kept: seq<LogFile>, f: LogFile, params: SearchParams,
                                         syntax: Syntax)
    requires Exact(r, AllMatches(kept, params, syntax), Limit(params)) && |r.lines| >= Limit(params)
    ensures OneMore(r, kept, f, params, syntax)
  {
    FullPage(r, kept, f, params, syntax);
    assert kept + [] == kept;
  }

  lemma {:induction false} OneMoreFailed(r: SearchResult, kept: seq<LogFile>, f: LogFile, params: SearchParams,
                                         syntax: Syntax)
    requires Exact(r, AllMatches(kept, params, syntax), Limit(params)) && |r.lines| < Limit(params)
    requires FileSearch(f, params, Limit(params) - |r.lines|, syntax) == Failed
    ensures OneMore(r, kept, f, params, syntax)
  {
    assert kept + [] == kept;
  }

  lemma {:induction false} OneMoreFound(r: SearchResult, kept: seq<LogFile>, f: LogFile, params: SearchParams,
                                        syntax: Syntax, lines: seq<LogLine>, more: bool)
    requires Exact(r, AllMatches(kept, params, syntax), Limit(params)) && |r.lines| < Limit(params)
    requires FileSearch(f, params, Limit(params) - |r.lines|, syntax) == Found(lines, more)
    ensures OneMore(r, kept, f, params, syntax)
  {
    FoundFile(r, kept, f, params, syntax, Limit(params), lines, more);
    assert !Fails(r, f, params, syntax);
  }

  lemma {:induction false} OneMoreFile(r: SearchResult, kept: seq<LogFile>, f: LogFile, params: SearchParams,
                                       syntax: Syntax)
    requires Exact(r, AllMatches(kept, params, syntax), Limit(params))
    ensures OneMore(r, kept, f, params, syntax)
  {
    if |r.lines| >= Limit(params) {
      OneMoreUnread(r, kept, f, params, syntax);
    } else {
      match FileSearch(f, params, Limit(params) - |r.lines|, syntax)
      case Failed => OneMoreFailed(r, kept, f, params, syntax);
      case Found(lines, more) => OneMoreFound(r, kept, f, params, syntax, lines, more);
    }
  }

  lemma ExactInARow(r: SearchResult, before: seq<LogLine>, lines: seq<LogLine>, more: bool, all: seq<LogLine>,
                    limit: int)
    requires Exact(r, before, limit) && |r.lines| < limit && Exact(SearchResult(lines, more), all, limit - |r.lines|)
    ensures Exact(SearchResult(r.lines + lines, r.hasMore || more), before + all, limit)
  {
    assert r.lines == before;
  }

  lemma {:induction false} SearchAnswers(files: seq<LogFile>, params: SearchParams, syntax: Syntax)
    ensures Exact(SearchFiles(files, params, syntax), AllMatches(Kept(files, params, syntax), params, syntax),
                  Limit(params))
  {
    if files != [] {
      var init := files[..|files| - 1];
      SearchAnswers(init, params, syntax);
      OneMoreFile(SearchFiles(init, params, syntax), Kept(init, params, syntax), files[|files| - 1], params, syntax);
    }
  }

  lemma ReadableDoesNotFail(r: SearchResult, f: LogFile, params: SearchParams, syntax: Syntax)
    requires Readable(f)
    ensures !Fails(r, f, params, syntax)
  {
  }

  lemma {:induction false} OthersCannotBeRead(files: seq<LogFile>, params: SearchParams, syntax: Syntax)
    ensures forall f <- files :: f in Kept(files, params, syntax) || !Readable(f)
    ensures multiset(Kept(files, params, syntax)) <= multiset(files)
  {
    if files != [] {
      var init, f := files[..|files| - 1], files[|files| - 1];
      assert files == init + [f];
      OthersCannotBeRead(init, params, syntax);
      if Readable(f) {
        ReadableDoesNotFail(SearchFiles(init, params, syntax), f, params, syntax);
      }
    }
  }

  /** A search returns the first `limit` matches of the files it keeps, and it keeps every file it can read. */
  lemma {:induction false} SearchIsExact(files: seq<LogFile>, params: SearchParams, syntax: Syntax)
    ensures Exact(SearchFiles(files, params, syntax), AllMatches(Kept(files, params, syntax), params, syntax),
                  Limit(params))
    ensures forall f <- files :: f in Kept(files, params, syntax) || !Readable(f)
    ensures multiset(Kept(files, params, syntax)) <= multiset(files)
  {
    SearchAnswers(files, params, syntax);
    OthersCannotBeRead(files, params, syntax);
  }

  /** Without a positive limit a search returns a hundred lines at most. */
  lemma {:induction false} NoLimitMeansAHundred(files: seq<LogFile>, params: SearchParams, syntax: Syntax)
    requires params.limit <= 0
    ensures var r, found := SearchFiles(files, params, syntax), AllMatches(Kept(files, params, syntax), params, syntax);
            r.lines == (if |found| <= 100 then found else found[..100]) && (|found| > 100 ==> r.hasMore)
  {
    SearchIsExact(files, params, syntax);
  }

  /** A file without read error, if it can be opened at all. */
  predicate Unbroken(f: LogFile) {
    f.opens ==> !f.breaks
  }

  function Opened(files: seq<LogFile>): seq<LogFile> {
    if files == [] then []
    else Opened(files[..|files| - 1]) + if files[|files| - 1].opens then [files[|files| - 1]] else []
  }

  /** Without read errors the files that open are kept, and no others. */
  lemma {:induction false} OpenedFilesAreKept(files: seq<LogFile>, params: SearchParams, syntax: Syntax)
    requires forall f <- files :: Unbroken(f)
    ensures Kept(files, params, syntax) == Opened(files)
  {
    if files != [] {
      var init, f := files[..|files| - 1], files[|files| - 1];
      assert files == init + [f];
      OpenedFilesAreKept(init, params, syntax);
      assert Unbroken(f);
    }
  }

  lemma {:induction false} ReadableFilesOpen(files: seq<LogFile>)
    requires forall f <- files :: Readable(f)
    ensures Opened(files) == files
  {
    if files != [] {
      var init, f := files[..|files| - 1], files[|files| - 1];
      assert files == init + [f];
      ReadableFilesOpen(init);
      assert Readable(f);
    }
  }

  /** No file is dropped if all can be read. */
  lemma {:induction false} ReadableFilesAreKept(files: seq<LogFile>, params: SearchParams, syntax: Syntax)
    requires forall f <- files :: Readable(f)
    ensures Kept(files, params, syntax) == files
  {
    OpenedFilesAreKept(files, params, syntax);
    ReadableFilesOpen(files);
  }

  /** `hasMore` says the truth about the files that are kept, except with exactly `limit` matches the last of which is
      no raw line at the end of the last file. */
  lemma {:induction false} HasMoreIsHonestExactly(files: seq<LogFile>, params: SearchParams, syntax: Syntax)
    ensures var total := |AllMatches(Kept(files, params, syntax), params, syntax)|;
            (SearchFiles(files, params, syntax).hasMore <==> total > Limit(params))
            <==> (total != Limit(params)
                  || (files[|files| - 1].opens && RawMatchEndsFile(files[|files| - 1], params, syntax)))
  {
    if files != [] {
      var init, f := files[..|files| - 1], files[|files| - 1];
      var kept := Kept(init, params, syntax);
      SearchAnswers(init, params, syntax);
      if !Fails(SearchFiles(init, params, syntax), f, params, syntax) {
        AllMatchesSnoc(kept, f, params, syntax);
        LastFileDecides(SearchFiles(init, params, syntax), AllMatches(kept, params, syntax), f, params, syntax);
      } else {
        assert kept + [] == kept;
      }
    }
  }

  lemma LastFileDecides(r: SearchResult, all: seq<LogLine>, f: LogFile, params: SearchParams, syntax: Syntax)
    requires !Fails(r, f, params, syntax) && Exact(r, all, Limit(params))
    ensures var total := |all| + |Matches(f, params, syntax)|;
            (WithFile(r, f, params, syntax).hasMore <==> total > Limit(params))
            <==> (total != Limit(params) || RawMatchEndsFile(f, params, syntax))
  {
    if RawMatchEndsFile(f, params, syntax) {
      LastRawLine(f, params, syntax);
    }
  }

  /** Such a search: one entry, one wanted, and yet there is said to be more. */
  lemma {:induction false} OneEntryAndStillMore(f: LogFile, entry: LogLine, params: SearchParams, syntax: Syntax)
    requires Readable(f) && Matches(f, params, syntax) == [entry] && params.limit == 1
    requires Seen(Texts(f.lines, f.name, syntax))
    ensures AllMatches([f], params, syntax) == [entry]
            && SearchFiles([f], params, syntax) == SearchResult([entry], true)
  {
    OneFileMatches(f, entry, params, syntax);
    SearchAnswers([f], params, syntax);
    HasMoreIsHonestExactly([f], params, syntax);
  }

  lemma {:induction false} OneFileMatches(f: LogFile, entry: LogLine, params: SearchParams, syntax: Syntax)
    requires Readable(f) && Matches(f, params, syntax) == [entry]
    ensures AllMatches([f], params, syntax) == [entry] && Kept([f], params, syntax) == [f]
  {
    AllMatchesSnoc([], f, params, syntax);
    assert [] + [f] == [f] && [] + [entry] == [entry];
    ReadableFilesAreKept([f], params, syntax);
  }

  lemma OneLine(line: string, entry: LogLine, params: SearchParams)
    requires line != "" && entry.timestamp != "" && MatchFilters(entry, params)
    requires entry.file == "app.log" && entry.lineNo == 1
    ensures var file, syntax := LogFile("app.log", true, [line], false), Syntax(s => s == "", (first, text) => entry);
            Matches(file, params, syntax) == [entry] && Seen(Texts(file.lines, file.name, syntax))
  {
    var syntax := Syntax(s => s == "", (first, text) => entry);
    assert Texts([line], "app.log", syntax) == [entry];
    GroupSnoc([], entry);
    FilterSnoc([], entry, params);
    assert [] + [entry] == [entry];
  }

  lemma StartedIsSuchASearch()
    ensures var line := "2024-01-15 10:00:00.000 INFO app - started";
            var entry := LogLine("2024-01-15 10:00:00.000", "INFO", "app", "started", "", "app.log", 1);
            var file, syntax := LogFile("app.log", true, [line], false), Syntax(s => s == "", (first, text) => entry);
            var params := SearchParams("", "", "", 1, false, t => true);
            Matches(file, params, syntax) == [entry] && Seen(Texts(file.lines, file.name, syntax))
  {
    OneLine("2024-01-15 10:00:00.000 INFO app - started",
            LogLine("2024-01-15 10:00:00.000", "INFO", "app", "started", "", "app.log", 1),
            SearchParams("", "", "", 1, false, t => true));
  }

  // ---------------------------------------------------------------------------------------------
  // A log to look at
  // ---------------------------------------------------------------------------------------------

  /** An entry, and one without timestamp. */
  const ENTRY := LogLine("2024-01-15 10:00:00.000", "INFO", "app", "tick", "", "", 0)
  const RAW := LogLine("", "", "", "tick", "", "", 0)

  /** The line that an entry is read from; without timestamp it is the message. */
  function LineOf(entry: LogLine): string {
    if entry.timestamp == "" then entry.message
    else entry.timestamp + " " + entry.level + " " + entry.source + " - " + entry.message
  }

  /** Every line is this entry. */
  function Ticking(entry: LogLine): Syntax {
    Syntax(s => s == "", (first, line) => entry)
  }

  /** Its line over and over. */
  function Ticks(entry: LogLine, n: nat): LogFile {
    LogFile("app.log", true, seq(n, i => LineOf(entry)), false)
  }

  function Tick(entry: LogLine, i: nat): LogLine {
    entry.(file := "app.log", lineNo := i + 1)
  }

  function TickEntries(entry: LogLine, n: nat): (entries: seq<LogLine>)
    ensures |entries| == n && forall i | 0 <= i < n :: entries[i] == Tick(entry, i)
  {
    if n == 0 then [] else TickEntries(entry, n - 1) + [Tick(entry, n - 1)]
  }

  lemma TickParsed(entry: LogLine, n: nat)
    requires n > 0 && LineOf(entry) != ""
    ensures Parsed(Ticks(entry, n).lines, n - 1, "app.log", Ticking(entry)) == Tick(entry, n - 1)
    ensures Ticks(entry, n).lines[..n - 1] == Ticks(entry, n - 1).lines
            && !Ticking(entry).blank(Ticks(entry, n).lines[n - 1])
  {
  }

  lemma {:induction false} TickTexts(entry: LogLine, n: nat)
    requires LineOf(entry) != ""
    ensures Texts(Ticks(entry, n).lines, "app.log", Ticking(entry)) == TickEntries(entry, n)
  {
    if n > 0 {
      TickTexts(entry, n - 1);
      TickParsed(entry, n);
    }
  }

  lemma {:induction false} StampedAreEntries(texts: seq<LogLine>)
    requires forall i | 0 <= i < |texts| :: texts[i].timestamp != ""
    ensures Group(texts) == texts
  {
    if texts != [] {
      StampedAreEntries(texts[..|texts| - 1]);
    }
  }

  lemma {:induction false} AllPass(entries: seq<LogLine>, params: SearchParams)
    requires forall i | 0 <= i < |entries| :: MatchFilters(entries[i], params)
    ensures Filter(entries, params) == entries
  {
    if entries != [] {
      AllPass(entries[..|entries| - 1], params);
    }
  }

  lemma {:induction false} TicksGroup(entry: LogLine, n: nat)
    ensures Group(TickEntries(entry, n)) == TickEntries(entry, n)
  {
    if entry.timestamp != "" {
      StampedAreEntries(TickEntries(entry, n));
    } else {
      GroupingKeepsEverything(TickEntries(entry, n));
    }
  }

  lemma {:induction false} TicksMatch(entry: LogLine, n: nat, params: SearchParams)
    requires LineOf(entry) != "" && MatchFilters(entry, params)
    ensures Matches(Ticks(entry, n), params, Ticking(entry)) == TickEntries(entry, n)
  {
    TickTexts(entry, n);
    TicksGroup(entry, n);
    AllPass(TickEntries(entry, n), params);
  }

  lemma {:induction false} SearchFilesSnoc(files: seq<LogFile>, f: LogFile, params: SearchParams, syntax: Syntax)
    ensures SearchFiles(files + [f], params, syntax) == WithFile(SearchFiles(files, params, syntax), f, params, syntax)
  {
    assert (files + [f])[..|files|] == files;
  }

  lemma {:induction false} NextFile(files: seq<LogFile>, i: nat, next: nat, params: SearchParams, syntax: Syntax)
    requires next == i + 1 <= |files|
    ensures SearchFiles(files[..next], params, syntax)
         == WithFile(SearchFiles(files[..i], params, syntax), files[i], params, syntax)
  {
    assert files[..next] == files[..i] + [files[i]];
    SearchFilesSnoc(files[..i], files[i], params, syntax);
  }

  /** One file of the loop, with the remaining limit. */
  method SearchOne(r: SearchResult, f: LogFile, params: SearchParams, limit: int, syntax: Syntax)
    returns (after: SearchResult)
    requires limit == Limit(params) > |r.lines|
    ensures after == WithFile(r, f, params, syntax)
  {
    after := r;
    var found := SearchFile(f, params, limit - |r.lines|, syntax);
    if found.Found? {
      after := SearchResult(r.lines + found.lines, r.hasMore || found.hasMore);
    }
  }

  /** The loop over files; a file that fails is passed over, and a full page ends the search. */
  method Search(files: seq<LogFile>, params: SearchParams, syntax: Syntax) returns (r: SearchResult)
    ensures r == SearchFiles(files, params, syntax)
  {
    var limit := if params.limit <= 0 then DEFAULT_LIMIT else params.limit;
    r := SearchResult([], false);
    var i := 0;
    while i < |files|
      invariant i <= |files| && r == SearchFiles(files[..i], params, syntax)
    {
      var next := i + 1;
      NextFile(files, i, next, params, syntax);
      if |r.lines| >= limit {
        r := r.(hasMore := true);
        FullStaysFull(files, next, params, syntax);
        return;
      }
      r := SearchOne(r, files[i], params, limit, syntax);
      i := next;
    }
    assert files[..i] == files;
  }

  lemma {:induction false} FullStaysFull(files: seq<LogFile>, i: nat, params: SearchParams, syntax: Syntax)
    requires i <= |files|
    requires var r := SearchFiles(files[..i], params, syntax); |r.lines| >= Limit(params) && r.hasMore
    ensures SearchFiles(files, params, syntax) == SearchFiles(files[..i], params, syntax)
    decreases |files|
  {
    if i == |files| {
      assert files[..i] == files;
    } else {
      var init := files[..|files| - 1];
      assert init[..i] == files[..i];
      FullStaysFull(init, i, params, syntax);
    }
  }
}
