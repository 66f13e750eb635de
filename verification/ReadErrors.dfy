/** Files that break off while they are searched.  Such a file is dropped when the search reads up to its read error,
    which becomes ever more likely the fewer of its matches lie after the cursor. */
module ReadErrors {
  import opened Timestamps
  import opened LogLines
  import opened LogSearch
  import opened LogReader

  /** The search drops a file that has matches. */
  predicate DropsMatches(files: seq<LogFile>, params: SearchParams, syntax: Syntax) {
    && files != []
    && var init, f := files[..|files| - 1], files[|files| - 1];
    || DropsMatches(init, params, syntax)
    || (f.opens && Fails(SearchFiles(init, params, syntax), f, params, syntax) && Matches(f, params, syntax) != [])
  }

  lemma FailedOrKept(files: seq<LogFile>, params: SearchParams, syntax: Syntax)
    requires files != []
    ensures var init, f := files[..|files| - 1], files[|files| - 1];
            var fails := Fails(SearchFiles(init, params, syntax), f, params, syntax);
            && AllMatches(Kept(files, params, syntax), params, syntax)
               == AllMatches(Kept(init, params, syntax), params, syntax)
                  + (if fails then [] else Matches(f, params, syntax))
            && AllMatches(Opened(files), params, syntax)
               == AllMatches(Opened(init), params, syntax) + (if f.opens then Matches(f, params, syntax) else [])
            && (!fails ==> f.opens)
  {
    var init, f := files[..|files| - 1], files[|files| - 1];
    AllMatchesSnoc(Kept(init, params, syntax), f, params, syntax);
    AllMatchesSnoc(Opened(init), f, params, syntax);
    assert Kept(init, params, syntax) + [] == Kept(init, params, syntax) && Opened(init) + [] == Opened(init);
  }

  /** Otherwise the search is about all that its files have up to their ends or read errors. */
  lemma {:induction false} SteadySearch(files: seq<LogFile>, params: SearchParams, syntax: Syntax)
    requires !DropsMatches(files, params, syntax)
    ensures AllMatches(Kept(files, params, syntax), params, syntax) == AllMatches(Opened(files), params, syntax)
  {
    if files != [] {
      SteadySearch(files[..|files| - 1], params, syntax);
      FailedOrKept(files, params, syntax);
    }
  }

  /** A search never drops matches of files that do not break off. */
  lemma {:induction false} UnbrokenIsSteady(files: seq<LogFile>, params: SearchParams, syntax: Syntax)
    requires forall f <- files :: Unbroken(f)
    ensures !DropsMatches(files, params, syntax)
  {
    if files != [] {
      var init, f := files[..|files| - 1], files[|files| - 1];
      assert files == init + [f];
      UnbrokenIsSteady(init, params, syntax);
      assert Unbroken(f);
    }
  }

  // ---------------------------------------------------------------------------------------------
  // Later cursors
  // ---------------------------------------------------------------------------------------------

  /** The empty cursor stands for none. */
  predicate NotBefore(later: Timestamp, cursor: Timestamp) {
    cursor == "" || (later != "" && Leq(cursor, later))
  }

  lemma PassesEarlier(e: LogLine, params: SearchParams, cursor: Timestamp, later: Timestamp)
    requires NotBefore(later, cursor) && MatchFilters(e, params.(after := later))
    ensures MatchFilters(e, params.(after := cursor))
  {
    if cursor != "" && e.timestamp != "" && Leq(e.timestamp, cursor) {
      Transitive(e.timestamp, cursor, later);
    }
  }

  lemma {:induction false} FilterShrinks(entries: seq<LogLine>, params: SearchParams, cursor: Timestamp,
                                         later: Timestamp)
    requires NotBefore(later, cursor)
    ensures multiset(Filter(entries, params.(after := later))) <= multiset(Filter(entries, params.(after := cursor)))
    ensures |Filter(entries, params.(after := later))| <= |Filter(entries, params.(after := cursor))|
  {
    if entries != [] {
      var e := entries[|entries| - 1];
      FilterShrinks(entries[..|entries| - 1], params, cursor, later);
      if MatchFilters(e, params.(after := later)) {
        PassesEarlier(e, params, cursor, later);
      }
    }
  }

  /** A file that is read up to its end is so with a later cursor as well. */
  lemma RunsOutLater(f: LogFile, params: SearchParams, cursor: Timestamp, later: Timestamp, room: int, more: int,
                     syntax: Syntax)
    requires NotBefore(later, cursor) && room <= more && RunsOut(f, params.(after := cursor), room, syntax)
    ensures RunsOut(f, params.(after := later), more, syntax)
  {
    var texts := Texts(f.lines, f.name, syntax);
    FilterShrinks(Group(texts), params, cursor, later);
    FilterShrinks(Settled(texts), params, cursor, later);
    OpenEntryAtTheEnd(f, params.(after := cursor), syntax);
    OpenEntryAtTheEnd(f, params.(after := later), syntax);
  }

  lemma FailsLater(r: SearchResult, r': SearchResult, f: LogFile, params: SearchParams, cursor: Timestamp,
                   later: Timestamp, syntax: Syntax)
    requires NotBefore(later, cursor) && |r'.lines| <= |r.lines| && Fails(r, f, params.(after := cursor), syntax)
    ensures Fails(r', f, params.(after := later), syntax)
  {
    if f.opens {
      var limit := Limit(params);
      RunsOutLater(f, params, cursor, later, limit - |r.lines|, limit - |r'.lines|, syntax);
    }
  }

  /** With a later cursor a search finds no more. */
  lemma {:induction false} FewerLater(files: seq<LogFile>, params: SearchParams, cursor: Timestamp, later: Timestamp,
                                      syntax: Syntax)
    requires NotBefore(later, cursor)
    ensures |SearchFiles(files, params.(after := later), syntax).lines|
         <= |SearchFiles(files, params.(after := cursor), syntax).lines| <= Limit(params)
  {
    if files != [] {
      var init, f := files[..|files| - 1], files[|files| - 1];
      FewerLater(init, params, cursor, later, syntax);
      OneFileLater(SearchFiles(init, params.(after := cursor), syntax),
                   SearchFiles(init, params.(after := later), syntax), f, params, cursor, later, syntax);
    }
  }

  lemma OneFileLater(r: SearchResult, r': SearchResult, f: LogFile, params: SearchParams, cursor: Timestamp,
                     later: Timestamp, syntax: Syntax)
    requires NotBefore(later, cursor) && |r'.lines| <= |r.lines| <= Limit(params)
    ensures |WithFile(r', f, params.(after := later), syntax).lines|
         <= |WithFile(r, f, params.(after := cursor), syntax).lines| <= Limit(params)
  {
    FilterShrinks(Entries(f, syntax), params, cursor, later);
    if Fails(r, f, params.(after := cursor), syntax) {
      FailsLater(r, r', f, params, cursor, later, syntax);
    }
  }

  /** The matches kept are among those that the files have. */
  lemma {:induction false} KeptAreOpened(files: seq<LogFile>, params: SearchParams, later: Timestamp, syntax: Syntax)
    requires params.after == ""
    ensures var q := params.(after := later);
            multiset(AllMatches(Kept(files, q, syntax), q, syntax))
            <= multiset(AllMatches(Opened(files), params, syntax))
  {
    if files != [] {
      var q := params.(after := later);
      KeptAreOpened(files[..|files| - 1], params, later, syntax);
      FailedOrKept(files, params, syntax);
      FailedOrKept(files, q, syntax);
      FilterShrinks(Entries(files[|files| - 1], syntax), params, "", later);
      assert params.(after := "") == params;
    }
  }

  /** A search with this cursor or a later one keeps `x` less often than the files have it. */
  ghost predicate Loses(files: seq<LogFile>, params: SearchParams, cursor: Timestamp, syntax: Syntax, x: LogLine) {
    forall later: Timestamp | NotBefore(later, cursor) ::
      KeptTimes(files, params, later, syntax, x) < multiset(AllMatches(Opened(files), params, syntax))[x]
  }

  ghost function KeptTimes(files: seq<LogFile>, params: SearchParams, later: Timestamp, syntax: Syntax,
                           x: LogLine): nat {
    var q := params.(after := later);
    multiset(AllMatches(Kept(files, q, syntax), q, syntax))[x]
  }

  lemma {:induction false} LosesWithMore(files: seq<LogFile>, params: SearchParams, cursor: Timestamp, later: Timestamp,
                                         syntax: Syntax, x: LogLine)
    requires params.after == "" && files != [] && NotBefore(later, cursor)
    requires Loses(files[..|files| - 1], params, cursor, syntax, x)
    ensures KeptTimes(files, params, later, syntax, x) < multiset(AllMatches(Opened(files), params, syntax))[x]
  {
    var q := params.(after := later);
    assert KeptTimes(files[..|files| - 1], params, later, syntax, x)
           < multiset(AllMatches(Opened(files[..|files| - 1]), params, syntax))[x];
    FailedOrKept(files, params, syntax);
    FailedOrKept(files, q, syntax);
    FilterShrinks(Entries(files[|files| - 1], syntax), params, "", later);
    assert params.(after := "") == params;
  }

  lemma {:induction false} LosesLast(files: seq<LogFile>, params: SearchParams, cursor: Timestamp, later: Timestamp,
                                     syntax: Syntax, x: LogLine)
    requires params.after == "" && files != [] && NotBefore(later, cursor)
    requires var init, f, q := files[..|files| - 1], files[|files| - 1], params.(after := cursor);
             f.opens && Fails(SearchFiles(init, q, syntax), f, q, syntax) && x in Matches(f, params, syntax)
    ensures KeptTimes(files, params, later, syntax, x) < multiset(AllMatches(Opened(files), params, syntax))[x]
  {
    var init, f, q := files[..|files| - 1], files[|files| - 1], params.(after := cursor);
    FewerLater(init, params, cursor, later, syntax);
    FailsLater(SearchFiles(init, q, syntax), SearchFiles(init, params.(after := later), syntax), f, params, cursor,
               later, syntax);
    KeptAreOpened(init, params, later, syntax);
    FailedOrKept(files, params, syntax);
    FailedOrKept(files, params.(after := later), syntax);
  }

  /** If matches are dropped with a cursor, then some match after it is lost with this cursor and all later ones. */
  lemma {:induction false} DroppedMatch(files: seq<LogFile>, params: SearchParams, cursor: Timestamp, syntax: Syntax)
    returns (x: LogLine)
    requires params.after == "" && DropsMatches(files, params.(after := cursor), syntax)
    ensures MatchFilters(x, params.(after := cursor)) && Loses(files, params, cursor, syntax, x)
  {
    var init, f, q := files[..|files| - 1], files[|files| - 1], params.(after := cursor);
    if DropsMatches(init, q, syntax) {
      x := DroppedMatch(init, params, cursor, syntax);
      forall later: Timestamp | NotBefore(later, cursor)
        ensures KeptTimes(files, params, later, syntax, x) < multiset(AllMatches(Opened(files), params, syntax))[x]
      {
        LosesWithMore(files, params, cursor, later, syntax, x);
      }
    } else {
      x := Matches(f, q, syntax)[0];
      FilterElement(Entries(f, syntax), params, cursor, x);
      forall later: Timestamp | NotBefore(later, cursor)
        ensures KeptTimes(files, params, later, syntax, x) < multiset(AllMatches(Opened(files), params, syntax))[x]
      {
        LosesLast(files, params, cursor, later, syntax, x);
      }
    }
  }

  lemma {:induction false} FilterElement(entries: seq<LogLine>, params: SearchParams, cursor: Timestamp, x: LogLine)
    requires params.after == "" && x in Filter(entries, params.(after := cursor))
    ensures MatchFilters(x, params.(after := cursor)) && x in Filter(entries, params)
  {
    var e, init := entries[|entries| - 1], entries[..|entries| - 1];
    if x in Filter(init, params.(after := cursor)) {
      FilterElement(init, params, cursor, x);
    } else {
      PassesEarlier(x, params, "", cursor);
      assert params.(after := "") == params;
    }
  }
}
