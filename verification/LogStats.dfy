/** Log statistics: a second loop that groups lines as the search does, but only keeps counters. */
module LogStats {
  import opened Folding
  import opened Options
  import opened Timestamps
  import opened LogLines
  import opened LogSearch
  import opened LogReader

  datatype Counts = Counts(total: nat, errors: nat, warns: nat, infos: nat, debugs: nat)

  const NONE := Counts(0, 0, 0, 0, 0)

  function UpperChar(c: char): char {
    if 'a' <= c <= 'z' then (c as int - 32) as char else c
  }

  function Upper(s: string): string {
    seq(|s|, i requires 0 <= i < |s| => UpperChar(s[i]))
  }

  function Bumped(c: Counts, level: string): Counts {
    match Upper(level)
    case "ERROR" => c.(errors := c.errors + 1)
    case "WARN" => c.(warns := c.warns + 1)
    case "WARNING" => c.(warns := c.warns + 1)
    case "INFO" => c.(infos := c.infos + 1)
    case "DEBUG" => c.(debugs := c.debugs + 1)
    case _ => c
  }

  /** What an entry adds, if it lies in the time range: to the total, and with a timestamp to its level. */
  function WithEntry(c: Counts, timestamp: Timestamp, level: string, params: SearchParams): Counts {
    if !MatchTimeRange(timestamp, params) then c
    else if timestamp == "" then c.(total := c.total + 1)
    else Bumped(c.(total := c.total + 1), level)
  }

  function Counted(c: Counts, entries: seq<LogLine>, params: SearchParams): Counts {
    if entries == [] then c
    else
      var n := |entries| - 1;
      WithEntry(Counted(c, entries[..n], params), entries[n].timestamp, entries[n].level, params)
  }

  function CountedFiles(files: seq<LogFile>, params: SearchParams, syntax: Syntax): Counts {
    if files == [] then NONE
    else
      var c, f := CountedFiles(files[..|files| - 1], params, syntax), files[|files| - 1];
      if f.opens then Counted(c, Entries(f, syntax), params) else c
  }

  lemma {:induction false} OpenedFilesCount(files: seq<LogFile>, params: SearchParams, syntax: Syntax)
    requires forall f <- files :: Unbroken(f)
    ensures CountedFiles(files, params, syntax) == CountedFiles(Opened(files), params, syntax)
    ensures forall f <- Opened(files) :: Readable(f)
  {
    if files != [] {
      var init, f := files[..|files| - 1], files[|files| - 1];
      assert f in files;
      OpenedFilesCount(init, params, syntax);
      assert (Opened(init) + [f])[..|Opened(init)|] == Opened(init) && Opened(init) + [] == Opened(init);
    }
  }

  // ---------------------------------------------------------------------------------------------
  // Statistics and search agree
  // ---------------------------------------------------------------------------------------------

  /** The search with the same time bounds and the given level. */
  function OfLevel(params: SearchParams, level: string): SearchParams {
    params.(level := level, keyword := "", after := "")
  }

  lemma UpperIsLower(a: char, b: char)
    ensures UpperChar(a) == UpperChar(b) <==> LowerChar(a) == LowerChar(b)
  {
  }

  /** Folding by upper or by lower case comes to the same. */
  lemma FoldsAgree(a: string, b: string)
    ensures EqualFold(a, b) <==> Upper(a) == Upper(b)
  {
    forall i | 0 <= i < |a| && |a| == |b|
      ensures Lower(a)[i] == Lower(b)[i] <==> Upper(a)[i] == Upper(b)[i]
    {
      UpperIsLower(a[i], b[i]);
    }
    assert Lower(a) == Lower(b) <==> |a| == |b| && forall i | 0 <= i < |a| :: Lower(a)[i] == Lower(b)[i];
    assert Upper(a) == Upper(b) <==> |a| == |b| && forall i | 0 <= i < |a| :: Upper(a)[i] == Upper(b)[i];
  }

  /** The raw entries of a level, which a search without time bounds finds and the level counters leave out. */
  function RawOfLevel(entries: seq<LogLine>, params: SearchParams, level: string): nat {
    if entries == [] then 0
    else
      var n := |entries| - 1;
      RawOfLevel(entries[..n], params, level)
      + if entries[n].timestamp == "" && MatchFilters(entries[n], OfLevel(params, level)) then 1 else 0
  }

  function Found(entries: seq<LogLine>, params: SearchParams, level: string): nat {
    |Filter(entries, OfLevel(params, level))|
  }

  lemma LevelsAre(level: string)
    ensures EqualFold(level, "ERROR") <==> Upper(level) == "ERROR"
    ensures EqualFold(level, "WARN") <==> Upper(level) == "WARN"
    ensures EqualFold(level, "WARNING") <==> Upper(level) == "WARNING"
    ensures EqualFold(level, "INFO") <==> Upper(level) == "INFO"
    ensures EqualFold(level, "DEBUG") <==> Upper(level) == "DEBUG"
  {
    FoldsAgree(level, "ERROR");
    FoldsAgree(level, "WARN");
    FoldsAgree(level, "WARNING");
    FoldsAgree(level, "INFO");
    FoldsAgree(level, "DEBUG");
    assert Upper("ERROR") == "ERROR" && Upper("WARN") == "WARN" && Upper("WARNING") == "WARNING";
    assert Upper("INFO") == "INFO" && Upper("DEBUG") == "DEBUG";
  }

  /** Each counter, with the raw entries it leaves out, grows by what a search finds. */
  ghost predicate Match(c: Counts, r: Counts, entries: seq<LogLine>, params: SearchParams) {
    && r.total == c.total + Found(entries, params, "")
    && r.errors + RawOfLevel(entries, params, "ERROR") == c.errors + Found(entries, params, "ERROR")
    && r.warns + RawOfLevel(entries, params, "WARN") + RawOfLevel(entries, params, "WARNING")
       == c.warns + Found(entries, params, "WARN") + Found(entries, params, "WARNING")
    && r.infos + RawOfLevel(entries, params, "INFO") == c.infos + Found(entries, params, "INFO")
    && r.debugs + RawOfLevel(entries, params, "DEBUG") == c.debugs + Found(entries, params, "DEBUG")
  }

  lemma {:induction false} CountersMatchFilters(c: Counts, entries: seq<LogLine>, params: SearchParams)
    ensures Match(c, Counted(c, entries, params), entries, params)
  {
    if entries != [] {
      var init, e := entries[..|entries| - 1], entries[|entries| - 1];
      CountersMatchFilters(c, init, params);
      assert entries == init + [e];
      OneMoreEntry(c, Counted(c, init, params), init, e, params);
    }
  }

  function One(b: bool): nat {
    if b then 1 else 0
  }

  lemma WithEntryIs(c: Counts, timestamp: Timestamp, level: string, params: SearchParams)
    ensures var inTime := MatchTimeRange(timestamp, params);
            var counts := inTime && timestamp != "";
            WithEntry(c, timestamp, level, params)
            == Counts(c.total + One(inTime), c.errors + One(counts && EqualFold(level, "ERROR")),
                      c.warns + One(counts && EqualFold(level, "WARN")) + One(counts && EqualFold(level, "WARNING")),
                      c.infos + One(counts && EqualFold(level, "INFO")),
                      c.debugs + One(counts && EqualFold(level, "DEBUG")))
  {
    LevelsAre(level);
  }

  /** The entries of a level with a timestamp. */
  function Stamped(entries: seq<LogLine>, params: SearchParams, level: string): int {
    Found(entries, params, level) - RawOfLevel(entries, params, level)
  }

  lemma StampedSnoc(entries: seq<LogLine>, e: LogLine, params: SearchParams, level: string)
    requires level != ""
    ensures Stamped(entries + [e], params, level)
         == Stamped(entries, params, level)
            + One(MatchTimeRange(e.timestamp, params) && e.timestamp != "" && EqualFold(e.level, level))
  {
    FoundSnoc(entries, e, params, level);
  }

  lemma OneMoreEntry(c: Counts, r: Counts, entries: seq<LogLine>, e: LogLine, params: SearchParams)
    requires Match(c, r, entries, params)
    ensures Match(c, WithEntry(r, e.timestamp, e.level, params), entries + [e], params)
  {
    WithEntryIs(r, e.timestamp, e.level, params);
    FoundSnoc(entries, e, params, "");
    StampedSnoc(entries, e, params, "ERROR");
    StampedSnoc(entries, e, params, "WARN");
    StampedSnoc(entries, e, params, "WARNING");
    StampedSnoc(entries, e, params, "INFO");
    StampedSnoc(entries, e, params, "DEBUG");
  }

  lemma {:induction false} FoundSnoc(entries: seq<LogLine>, e: LogLine, params: SearchParams, level: string)
    ensures var found := MatchTimeRange(e.timestamp, params) && (level == "" || EqualFold(e.level, level));
            && Found(entries + [e], params, level) == Found(entries, params, level) + One(found)
            && RawOfLevel(entries + [e], params, level)
               == RawOfLevel(entries, params, level) + One(found && e.timestamp == "")
  {
    assert (entries + [e])[..|entries|] == entries;
  }

  function AllEntries(files: seq<LogFile>, syntax: Syntax): seq<LogLine> {
    if files == [] then [] else AllEntries(files[..|files| - 1], syntax) + Entries(files[|files| - 1], syntax)
  }

  lemma {:induction false} CountedConcat(c: Counts, a: seq<LogLine>, b: seq<LogLine>, params: SearchParams)
    ensures Counted(c, a + b, params) == Counted(Counted(c, a, params), b, params)
  {
    if b == [] {
      assert a + b == a;
    } else {
      assert (a + b)[..|a + b| - 1] == a + b[..|b| - 1];
      CountedConcat(c, a, b[..|b| - 1], params);
    }
  }

  /** A file that cannot be opened is not counted, and of one that breaks off everything before the break is. */
  lemma {:induction false} EveryLineReadIsCounted(files: seq<LogFile>, params: SearchParams, syntax: Syntax)
    ensures CountedFiles(files, params, syntax) == Counted(NONE, AllEntries(Opened(files), syntax), params)
  {
    if files != [] {
      var init, f := files[..|files| - 1], files[|files| - 1];
      EveryLineReadIsCounted(init, params, syntax);
      if f.opens {
        assert (Opened(init) + [f])[..|Opened(init)|] == Opened(init);
        CountedConcat(NONE, AllEntries(Opened(init), syntax), Entries(f, syntax), params);
      } else {
        assert Opened(files) == Opened(init) + [] == Opened(init);
      }
    }
  }

  lemma {:induction false} FilesAreTheirEntries(files: seq<LogFile>, params: SearchParams, syntax: Syntax)
    requires forall f <- files :: Readable(f)
    ensures CountedFiles(files, params, syntax) == Counted(NONE, AllEntries(files, syntax), params)
  {
    EveryLineReadIsCounted(files, params, syntax);
    ReadableFilesOpen(files);
  }

  lemma {:induction false} MatchesAreFilteredEntries(files: seq<LogFile>, params: SearchParams, syntax: Syntax)
    ensures AllMatches(files, params, syntax) == Filter(AllEntries(files, syntax), params)
  {
    if files != [] {
      var init, f := files[..|files| - 1], files[|files| - 1];
      MatchesAreFilteredEntries(init, params, syntax);
      FilterConcat(AllEntries(init, syntax), Entries(f, syntax), params);
    }
  }

  /** What a search of the level finds with the largest limit. */
  function SearchCount(files: seq<LogFile>, params: SearchParams, level: string, syntax: Syntax): nat {
    |AllMatches(files, OfLevel(params, level), syntax)|
  }

  /** The total is what a search with the same time bounds finds; the level counters are what a search of the
      level finds, less the raw entries of that level. */
  lemma {:induction false} StatsMatchSearch(files: seq<LogFile>, params: SearchParams, syntax: Syntax)
    requires forall f <- files :: Readable(f)
    ensures var s, entries := CountedFiles(files, params, syntax), AllEntries(files, syntax);
            && s.total == SearchCount(files, params, "", syntax)
            && s.errors + RawOfLevel(entries, params, "ERROR") == SearchCount(files, params, "ERROR", syntax)
            && s.warns + RawOfLevel(entries, params, "WARN") + RawOfLevel(entries, params, "WARNING")
               == SearchCount(files, params, "WARN", syntax) + SearchCount(files, params, "WARNING", syntax)
            && s.infos + RawOfLevel(entries, params, "INFO") == SearchCount(files, params, "INFO", syntax)
            && s.debugs + RawOfLevel(entries, params, "DEBUG") == SearchCount(files, params, "DEBUG", syntax)
  {
    FilesAreTheirEntries(files, params, syntax);
    CountersMatchFilters(NONE, AllEntries(files, syntax), params);
    MatchesAreFilteredEntries(files, OfLevel(params, ""), syntax);
    MatchesAreFilteredEntries(files, OfLevel(params, "ERROR"), syntax);
    MatchesAreFilteredEntries(files, OfLevel(params, "WARN"), syntax);
    MatchesAreFilteredEntries(files, OfLevel(params, "WARNING"), syntax);
    MatchesAreFilteredEntries(files, OfLevel(params, "INFO"), syntax);
    MatchesAreFilteredEntries(files, OfLevel(params, "DEBUG"), syntax);
  }

  /** So the search returns as many lines as the total says, up to its limit. */
  lemma {:induction false} SearchReturnsTheTotal(files: seq<LogFile>, params: SearchParams, limit: int, syntax: Syntax)
    requires limit > 0 && forall f <- files :: Readable(f)
    ensures var s := CountedFiles(files, params, syntax);
            var r := SearchFiles(files, OfLevel(params, "").(limit := limit), syntax);
            |r.lines| == if s.total < limit then s.total else limit
  {
    var p := OfLevel(params, "").(limit := limit);
    SearchIsExact(files, p, syntax);
    ReadableFilesAreKept(files, p, syntax);
    StatsMatchSearch(files, params, syntax);
    MatchesAreFilteredEntries(files, p, syntax);
    MatchesAreFilteredEntries(files, OfLevel(params, ""), syntax);
    LimitDoesNotFilter(AllEntries(files, syntax), OfLevel(params, ""), limit);
  }

  lemma {:induction false} LimitDoesNotFilter(entries: seq<LogLine>, params: SearchParams, limit: int)
    ensures Filter(entries, params.(limit := limit)) == Filter(entries, params)
  {
    if entries != [] {
      LimitDoesNotFilter(entries[..|entries| - 1], params, limit);
    }
  }

  /** The error counter is the size of the search for errors exactly if there are time bounds, or no raw entry
      is an error. */
  lemma {:induction false} ErrorCountIsTheErrorSearchExactly(files: seq<LogFile>, params: SearchParams, syntax: Syntax)
    requires forall f <- files :: Readable(f)
    ensures CountedFiles(files, params, syntax).errors == SearchCount(files, params, "ERROR", syntax)
       <==> params.timed || forall e <- AllEntries(files, syntax) :: e.timestamp == "" ==> Upper(e.level) != "ERROR"
  {
    StatsMatchSearch(files, params, syntax);
    RawOfLevelIsZero(AllEntries(files, syntax), params);
  }

  lemma {:induction false} RawOfLevelIsZero(entries: seq<LogLine>, params: SearchParams)
    ensures RawOfLevel(entries, params, "ERROR") == 0
       <==> params.timed || forall e <- entries :: e.timestamp == "" ==> Upper(e.level) != "ERROR"
  {
    if entries != [] {
      var init, e := entries[..|entries| - 1], entries[|entries| - 1];
      assert entries == init + [e];
      RawOfLevelIsZero(init, params);
      LevelsAre(e.level);
    }
  }

  lemma {:induction false} OneRawEntry(entry: LogLine, params: SearchParams)
    requires entry.timestamp == "" && entry.level == "ERROR" && !params.timed
    ensures Group([entry]) == [entry] && Counted(NONE, [entry], params) == Counts(1, 0, 0, 0, 0)
    ensures Filter([entry], OfLevel(params, "ERROR")) == [entry]
  {
    assert [entry][..0] == [] && [] + [entry] == [entry];
    GroupSnoc([], entry);
    FilterSnoc([], entry, OfLevel(params, "ERROR"));
  }

  lemma {:induction false} OneEntryOfFile(f: LogFile, entry: LogLine, params: SearchParams, syntax: Syntax)
    requires Readable(f) && Entries(f, syntax) == [entry]
    ensures CountedFiles([f], params, syntax) == Counted(NONE, [entry], params)
    ensures AllMatches([f], params, syntax) == Filter([entry], params)
  {
    assert [f][..0] == [] && CountedFiles([], params, syntax) == NONE && AllMatches([], params, syntax) == [];
  }

  lemma {:induction false} RawEntryIsNotCounted(line: string, entry: LogLine, params: SearchParams)
    requires line != "" && entry.timestamp == "" && entry.level == "ERROR"
    requires entry.file == "app.log" && entry.lineNo == 1 && !params.timed
    ensures var file, syntax := LogFile("app.log", true, [line], false), Syntax(s => s == "", (first, text) => entry);
            && CountedFiles([file], params, syntax) == Counts(1, 0, 0, 0, 0)
            && SearchCount([file], params, "ERROR", syntax) == 1
  {
    var file, syntax := LogFile("app.log", true, [line], false), Syntax(s => s == "", (first, text) => entry);
    assert Texts([line], "app.log", syntax) == [entry];
    OneRawEntry(entry, params);
    OneEntryOfFile(file, entry, params, syntax);
    OneEntryOfFile(file, entry, OfLevel(params, "ERROR"), syntax);
  }

  /** An error that comes without a timestamp before all others is found but not counted. */
  lemma RawErrorIsNotCounted()
    ensures var line := "{\"level\":\"error\",\"message\":\"boom\"}";
            var entry := LogLine("", "ERROR", "", "boom", "", "app.log", 1);
            var file, syntax := LogFile("app.log", true, [line], false), Syntax(s => s == "", (first, text) => entry);
            var params := SearchParams("", "", "", 100, false, t => true);
            && CountedFiles([file], params, syntax) == Counts(1, 0, 0, 0, 0)
            && SearchCount([file], params, "ERROR", syntax) == 1
  {
    RawEntryIsNotCounted("{\"level\":\"error\",\"message\":\"boom\"}",
                         LogLine("", "ERROR", "", "boom", "", "app.log", 1),
                         SearchParams("", "", "", 100, false, t => true));
  }

  /** No entry is counted for two levels. */
  lemma {:induction false} LevelsFitInTheTotal(c: Counts, entries: seq<LogLine>, params: SearchParams)
    requires c.errors + c.warns + c.infos + c.debugs <= c.total
    ensures var r := Counted(c, entries, params); r.errors + r.warns + r.infos + r.debugs <= r.total
  {
    if entries != [] {
      LevelsFitInTheTotal(c, entries[..|entries| - 1], params);
    }
  }

  // ---------------------------------------------------------------------------------------------
  // The loops
  // ---------------------------------------------------------------------------------------------

  /** The entry in progress, as the counting loop remembers it. */
  datatype Progress = Idle | InEntry(timestamp: Timestamp, level: string)

  function ProgressOf(texts: seq<LogLine>): Progress {
    match Open(texts)
    case None => Idle
    case Some(entry) => InEntry(entry.timestamp, entry.level)
  }

  function Flush(c: Counts, progress: Progress, params: SearchParams): Counts {
    if progress.Idle? then c else WithEntry(c, progress.timestamp, progress.level, params)
  }

  /** What the loop has counted after some texts: the settled entries. */
  function CountingAt(texts: seq<LogLine>, start: Counts, params: SearchParams): (Counts, Progress) {
    (Counted(start, Settled(texts), params), ProgressOf(texts))
  }

  function CountLine(c: Counts, progress: Progress, line: LogLine, params: SearchParams): (Counts, Progress) {
    if line.timestamp != "" then (Flush(c, progress, params), InEntry(line.timestamp, line.level))
    else if progress.Idle? && MatchTimeRange("", params) then (c.(total := c.total + 1), progress)
    else (c, progress)
  }

  lemma {:induction false} FlushCountsTheOpenEntry(texts: seq<LogLine>, start: Counts, params: SearchParams)
    ensures var (c, progress) := CountingAt(texts, start, params);
            Flush(c, progress, params) == Counted(start, Group(texts), params)
  {
    SettledAndOpen(texts);
    if Open(texts).Some? {
      CountedSnoc(start, Settled(texts), Open(texts).value, params);
    }
  }

  lemma {:induction false} CountedSnoc(c: Counts, entries: seq<LogLine>, e: LogLine, params: SearchParams)
    ensures Counted(c, entries + [e], params) == WithEntry(Counted(c, entries, params), e.timestamp, e.level, params)
  {
    assert (entries + [e])[..|entries|] == entries;
  }

  lemma CountText(texts: seq<LogLine>, line: LogLine, start: Counts, params: SearchParams)
    ensures var (c, progress) := CountingAt(texts, start, params);
            CountingAt(texts + [line], start, params) == CountLine(c, progress, line, params)
  {
    ReadText(texts, line);
    if line.timestamp != "" {
      FlushCountsTheOpenEntry(texts, start, params);
    } else if Open(texts).None? {
      CountedSnoc(start, Settled(texts), line, params);
    }
  }

  /** What the loop holds: the chosen parser, the counts, and the entry in progress. */
  datatype Tally = Tally(parser: Option<string>, counts: Counts, progress: Progress)

  function Read(t: Tally, line: string, params: SearchParams, syntax: Syntax): Tally {
    if syntax.blank(line) then t
    else
      var first := if t.parser.Some? then t.parser.value else line;
      var (counts, progress) := CountLine(t.counts, t.progress, syntax.parse(first, line), params);
      Tally(Some(first), counts, progress)
  }

  function TallyAt(f: LogFile, i: nat, start: Counts, params: SearchParams, syntax: Syntax): Tally
    requires i <= |f.lines|
  {
    if i == 0 then Tally(None, start, Idle)
    else Read(TallyAt(f, i - 1, start, params, syntax), f.lines[i - 1], params, syntax)
  }

  function TallyOf(lines: seq<string>, name: string, start: Counts, params: SearchParams, syntax: Syntax): Tally {
    var (counts, progress) := CountingAt(Texts(lines, name, syntax), start, params);
    Tally(FirstText(lines, syntax), counts, progress)
  }

  lemma CountParsed(c: Counts, progress: Progress, line: LogLine, name: string, lineNo: nat, params: SearchParams)
    ensures CountLine(c, progress, line.(file := name, lineNo := lineNo), params)
            == CountLine(c, progress, line, params)
  {
  }

  lemma TallyText(lines: seq<string>, n: nat, i: nat, name: string, start: Counts, params: SearchParams, syntax: Syntax)
    requires i == n + 1 <= |lines| && !syntax.blank(lines[n])
    ensures TallyOf(lines[..i], name, start, params, syntax)
         == Read(TallyOf(lines[..n], name, start, params, syntax), lines[n], params, syntax)
  {
    var texts, first := Texts(lines[..n], name, syntax), FirstText(lines[..n], syntax);
    var parsed := syntax.parse(if first.Some? then first.value else lines[n], lines[n]);
    var (counts, progress) := CountingAt(texts, start, params);
    FirstTextNext(lines, n, i, syntax);
    TextsNext(lines, n, i, name, syntax);
    CountText(texts, Parsed(lines, n, name, syntax), start, params);
    CountParsed(counts, progress, parsed, name, i, params);
  }

  lemma TallyStep(lines: seq<string>, n: nat, i: nat, name: string, start: Counts, params: SearchParams, syntax: Syntax)
    requires i == n + 1 <= |lines|
    ensures TallyOf(lines[..i], name, start, params, syntax)
         == Read(TallyOf(lines[..n], name, start, params, syntax), lines[n], params, syntax)
  {
    if syntax.blank(lines[n]) {
      FirstTextNext(lines, n, i, syntax);
      TextsNext(lines, n, i, name, syntax);
      assert Texts(lines[..n], name, syntax) + [] == Texts(lines[..n], name, syntax);
    } else {
      TallyText(lines, n, i, name, start, params, syntax);
    }
  }

  lemma {:induction false} TallyIs(f: LogFile, i: nat, start: Counts, params: SearchParams, syntax: Syntax)
    requires i <= |f.lines|
    ensures TallyAt(f, i, start, params, syntax) == TallyOf(f.lines[..i], f.name, start, params, syntax)
  {
    if i > 0 {
      var n: nat := i - 1;
      TallyIs(f, n, start, params, syntax);
      TallyNext(f, n, i, start, params, syntax);
      TallyStep(f.lines, n, i, f.name, start, params, syntax);
    }
  }

  lemma {:induction false} TallyNext(f: LogFile, i: nat, next: nat, start: Counts, params: SearchParams, syntax: Syntax)
    requires next == i + 1 <= |f.lines|
    ensures TallyAt(f, next, start, params, syntax)
            == Read(TallyAt(f, i, start, params, syntax), f.lines[i], params, syntax)
  {
  }

  lemma {:induction false} TallyAtTheEnd(f: LogFile, start: Counts, params: SearchParams, syntax: Syntax)
    ensures var t := TallyAt(f, |f.lines|, start, params, syntax);
            Flush(t.counts, t.progress, params) == Counted(start, Entries(f, syntax), params)
  {
    TallyIs(f, |f.lines|, start, params, syntax);
    assert f.lines[..|f.lines|] == f.lines;
    FlushCountsTheOpenEntry(Texts(f.lines, f.name, syntax), start, params);
  }

  /** Counts the entries of a file.  A read error is reported, but what was counted before it stays. */
  method CountFile(f: LogFile, start: Counts, params: SearchParams, syntax: Syntax) returns (c: Counts, ok: bool)
    ensures ok <==> Readable(f)
    ensures c == if f.opens then Counted(start, Entries(f, syntax), params) else start
  {
    c, ok := start, false;
    if !f.opens {
      return;
    }
    var parser: Option<string> := None;
    var progress := Idle;
    var i := 0;
    while i < |f.lines|
      invariant i <= |f.lines| && TallyAt(f, i, start, params, syntax) == Tally(parser, c, progress)
    {
      var line, next := f.lines[i], i + 1;
      TallyNext(f, i, next, start, params, syntax);
      if !syntax.blank(line) {
        if parser.None? {
          parser := Some(line);
        }
        var parsed := syntax.parse(parser.value, line);
        if parsed.timestamp != "" {
          c := Flush(c, progress, params);
          progress := InEntry(parsed.timestamp, parsed.level);
        } else if progress.Idle? && MatchTimeRange("", params) {
          c := c.(total := c.total + 1);
        }
      }
      i := next;
    }
    TallyAtTheEnd(f, start, params, syntax);
    c, ok := Flush(c, progress, params), !f.breaks;
  }

  /** Counts all files; files with errors keep what was counted. */
  method Stats(files: seq<LogFile>, params: SearchParams, syntax: Syntax) returns (c: Counts, fileCount: nat)
    ensures c == CountedFiles(files, params, syntax) && fileCount == |files|
  {
    c := NONE;
    var i := 0;
    while i < |files|
      invariant i <= |files| && c == CountedFiles(files[..i], params, syntax)
    {
      var next, ok := i + 1, true;
      assert files[..next][..i] == files[..i];
      c, ok := CountFile(files[i], c, params, syntax);
      i := next;
    }
    assert files[..i] == files;
    fileCount := |files|;
  }
}
