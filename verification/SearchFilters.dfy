/** What the parameters of a search mean: each of them restricts the search without it. */
module SearchFilters {
  import opened Folding
  import opened Sequences
  import opened Timestamps
  import opened LogLines
  import opened LogReader
  import LogStats

  datatype Condition =
    | HasLevel(level: string)
    | Mentions(keyword: string)
    | After(cursor: Timestamp)
    | InTime(within: Timestamp -> bool)

  /** The keyword stands in the field, in whatever case. */
  ghost predicate Occurs(field: string, keyword: string) {
    exists before, behind :: Lower(field) == before + Lower(keyword) + behind
  }

  ghost predicate Meets(e: LogLine, c: Condition) {
    match c
    case HasLevel(level) => LogStats.Upper(e.level) == LogStats.Upper(level)
    case Mentions(keyword) => Occurs(e.message, keyword) || Occurs(e.source, keyword) || Occurs(e.metadata, keyword)
    case After(cursor) => e.timestamp == "" || Less(cursor, e.timestamp)
    case InTime(within) => e.timestamp != "" && within(e.timestamp)
  }

  ghost function Restricted(entries: seq<LogLine>, c: Condition): seq<LogLine> {
    if entries == [] then []
    else
      var n := |entries| - 1;
      Restricted(entries[..n], c) + if Meets(entries[n], c) then [entries[n]] else []
  }

  /** The search with the condition as well. */
  function With(params: SearchParams, c: Condition): SearchParams {
    match c
    case HasLevel(level) => params.(level := level)
    case Mentions(keyword) => params.(keyword := keyword)
    case After(cursor) => params.(after := cursor)
    case InTime(within) => params.(timed := true, within := within)
  }

  /** It has no such condition yet, and gets one. */
  predicate Adds(params: SearchParams, c: Condition) {
    match c
    case HasLevel(level) => params.level == "" != level
    case Mentions(keyword) => params.keyword == "" != keyword
    case After(cursor) => params.after == "" != cursor
    case InTime(_) => !params.timed
  }

  lemma PieceIsContained(before: string, k: string, behind: string)
    ensures Contains(before + k + behind, k)
  {
    assert OccursAt(before + k + behind, k, |before|);
  }

  lemma AroundAnOccurrence(s: string, k: string, i: nat)
    requires OccursAt(s, k, i)
    ensures s == s[..i] + k + s[i + |k|..]
  {
  }

  lemma OccurrencesAreContained(field: string, keyword: string)
    ensures Occurs(field, keyword) <==> Contains(Lower(field), Lower(keyword))
  {
    var s, k := Lower(field), Lower(keyword);
    if before, behind :| s == before + k + behind {
      PieceIsContained(before, k, behind);
    }
    if i: nat :| i <= |s| && OccursAt(s, k, i) {
      AroundAnOccurrence(s, k, i);
    }
  }

  /** An entry passes with the condition exactly if it passes without and meets it. */
  lemma PassesExactly(e: LogLine, params: SearchParams, c: Condition)
    requires Adds(params, c)
    ensures MatchFilters(e, With(params, c)) <==> MatchFilters(e, params) && Meets(e, c)
  {
    match c
    case HasLevel(level) => LogStats.FoldsAgree(e.level, level);
    case Mentions(keyword) =>
      OccurrencesAreContained(e.message, keyword);
      OccurrencesAreContained(e.source, keyword);
      OccurrencesAreContained(e.metadata, keyword);
    case After(cursor) =>
    case InTime(within) =>
  }

  lemma {:induction false} FilterRestricts(entries: seq<LogLine>, params: SearchParams, c: Condition)
    requires Adds(params, c)
    ensures Filter(entries, With(params, c)) == Restricted(Filter(entries, params), c)
  {
    if entries != [] {
      var init, e := entries[..|entries| - 1], entries[|entries| - 1];
      FilterRestricts(init, params, c);
      PassesExactly(e, params, c);
      RestrictedSnoc(Filter(init, params), e, c);
    }
  }

  lemma {:induction false} RestrictedSnoc(entries: seq<LogLine>, e: LogLine, c: Condition)
    ensures Restricted(entries + [e], c) == Restricted(entries, c) + if Meets(e, c) then [e] else []
    ensures entries + [] == entries
  {
    assert (entries + [e])[..|entries|] == entries;
  }

  /** The matches of a search with one condition more are those matches that meet it: of the level, with the keyword in
      message, source or metadata, after the cursor or without timestamp, or with a timestamp in the time range. */
  lemma {:induction false} SearchIsRestricted(files: seq<LogFile>, params: SearchParams, c: Condition, syntax: Syntax)
    requires Adds(params, c)
    ensures AllMatches(files, With(params, c), syntax) == Restricted(AllMatches(files, params, syntax), c)
  {
    LogStats.MatchesAreFilteredEntries(files, params, syntax);
    LogStats.MatchesAreFilteredEntries(files, With(params, c), syntax);
    FilterRestricts(LogStats.AllEntries(files, syntax), params, c);
  }

  /** A search without any condition finds every entry. */
  lemma {:induction false} PlainSearchFindsAll(files: seq<LogFile>, params: SearchParams, syntax: Syntax)
    requires params.level == "" && params.keyword == "" && params.after == "" && !params.timed
    ensures AllMatches(files, params, syntax) == LogStats.AllEntries(files, syntax)
  {
    LogStats.MatchesAreFilteredEntries(files, params, syntax);
    AllPass(LogStats.AllEntries(files, syntax), params);
  }

  /** The statistics count the entries that lie in the time range. */
  lemma {:induction false} TotalIsTheEntriesInTime(files: seq<LogFile>, params: SearchParams, syntax: Syntax)
    requires forall f <- files :: Readable(f)
    ensures LogStats.CountedFiles(files, params, syntax).total
         == |if params.timed then Restricted(LogStats.AllEntries(files, syntax), InTime(params.within))
             else LogStats.AllEntries(files, syntax)|
  {
    var p := LogStats.OfLevel(params, "").(timed := false);
    LogStats.StatsMatchSearch(files, params, syntax);
    PlainSearchFindsAll(files, p, syntax);
    if params.timed {
      assert With(p, InTime(params.within)) == LogStats.OfLevel(params, "");
      SearchIsRestricted(files, p, InTime(params.within), syntax);
    } else {
      assert p == LogStats.OfLevel(params, "");
    }
  }
}
