/** The entries of a log file read from the front: which lines count, how they are parsed, and which of them make up an
    entry. */
module LogEntries {
  import opened Options
  import opened LogLines

  // ---------------------------------------------------------------------------------------------
  // Lines
  // ---------------------------------------------------------------------------------------------

  /** These are the places of the lines with text, in order. */
  ghost predicate ArePlaces(places: seq<nat>, lines: seq<string>, syntax: Syntax) {
    && (forall i, j | 0 <= i < j < |places| :: places[i] < places[j])
    && (forall i | 0 <= i < |places| :: places[i] < |lines| && !syntax.blank(lines[places[i]]))
    && (forall k: nat | k < |lines| && !syntax.blank(lines[k]) :: k in places)
  }

  /** The line at a place as the parser reads it that the first line with text has chosen. */
  function ReadAt(lines: seq<string>, first: nat, place: nat, name: string, syntax: Syntax): LogLine
    requires first < |lines| && place < |lines|
  {
    syntax.parse(lines[first], lines[place]).(file := name, lineNo := place + 1)
  }

  lemma FewerPlaces(places: seq<nat>, lines: seq<string>, n: nat, syntax: Syntax)
    requires ArePlaces(places, lines, syntax) && |lines| == n + 1
    ensures syntax.blank(lines[n]) ==> ArePlaces(places, lines[..n], syntax)
    ensures !syntax.blank(lines[n]) ==>
              places != [] && places[|places| - 1] == n && ArePlaces(places[..|places| - 1], lines[..n], syntax)
  {
    if syntax.blank(lines[n]) {
      forall i | 0 <= i < |places| ensures places[i] < n {
        assert places[i] != n;
      }
    } else {
      var i :| 0 <= i < |places| && places[i] == n;
      assert places[i] <= places[|places| - 1];
      forall k: nat | k < n && !syntax.blank(lines[k]) ensures k in places[..|places| - 1] {
        var j :| 0 <= j < |places| && places[j] == k;
        assert places[..|places| - 1][j] == k;
      }
    }
  }

  lemma {:induction false} PlacesGrow(places: seq<nat>, i: nat)
    requires i < |places| && forall i, j | 0 <= i < j < |places| :: places[i] < places[j]
    ensures i <= places[i]
  {
    if i > 0 {
      PlacesGrow(places, i - 1);
    }
  }

  lemma NoMorePlaces(places: seq<nat>, lines: seq<string>, syntax: Syntax)
    requires ArePlaces(places, lines, syntax)
    ensures |places| <= |lines|
  {
    if places != [] {
      PlacesGrow(places, |places| - 1);
    }
  }

  lemma {:induction false} FirstPlace(places: seq<nat>, lines: seq<string>, syntax: Syntax)
    requires ArePlaces(places, lines, syntax)
    ensures FirstText(lines, syntax) == if places == [] then None else Some(lines[places[0]])
  {
    if lines == [] {
      NoMorePlaces(places, lines, syntax);
    } else {
      var n := |lines| - 1;
      FewerPlaces(places, lines, n, syntax);
      if syntax.blank(lines[n]) {
        FirstPlace(places, lines[..n], syntax);
      } else {
        FirstPlace(places[..|places| - 1], lines[..n], syntax);
      }
    }
  }

  lemma {:induction false} LastIsParsed(places: seq<nat>, lines: seq<string>, n: nat, name: string, syntax: Syntax)
    requires |lines| == n + 1 && places != [] && places[|places| - 1] == n && !syntax.blank(lines[n])
    requires ArePlaces(places[..|places| - 1], lines[..n], syntax)
    ensures places[0] < |lines| && Parsed(lines, n, name, syntax) == ReadAt(lines, places[0], n, name, syntax)
  {
    FirstPlace(places[..|places| - 1], lines[..n], syntax);
  }

  /** The parsed lines are the lines with text, in order, each read by the parser that the first of them has chosen,
      with the name of the file and its number. */
  lemma {:induction false} TextsAre(places: seq<nat>, lines: seq<string>, name: string, syntax: Syntax)
    requires ArePlaces(places, lines, syntax)
    ensures |Texts(lines, name, syntax)| == |places|
    ensures forall i | 0 <= i < |places| ::
              Texts(lines, name, syntax)[i] == ReadAt(lines, places[0], places[i], name, syntax)
  {
    if lines != [] {
      var n := |lines| - 1;
      FewerPlaces(places, lines, n, syntax);
      if syntax.blank(lines[n]) {
        TextsAre(places, lines[..n], name, syntax);
      } else {
        var before := places[..|places| - 1];
        TextsAre(before, lines[..n], name, syntax);
        LastIsParsed(places, lines, n, name, syntax);
      }
    } else {
      NoMorePlaces(places, lines, syntax);
    }
  }

  // ---------------------------------------------------------------------------------------------
  // Entries
  // ---------------------------------------------------------------------------------------------

  /** The first place from `i` on whose line has a timestamp, or the end. */
  function NextStart(texts: seq<LogLine>, i: nat): (n: nat)
    requires i <= |texts|
    ensures i <= n <= |texts|
    decreases |texts| - i
  {
    if i == |texts| || texts[i].timestamp != "" then i else NextStart(texts, i + 1)
  }

  /** The messages of these lines, one below the other. */
  function Message(texts: seq<LogLine>): string
    requires texts != []
  {
    if |texts| == 1 then texts[0].message else texts[0].message + "\n" + Message(texts[1..])
  }

  /** The first line with the messages of all. */
  function Entry(block: seq<LogLine>): LogLine
    requires block != []
  {
    block[0].(message := Message(block))
  }

  /** A line with timestamp and the lines without that follow it are one entry; a line without that follows none is an
      entry of its own. */
  function Blocks(texts: seq<LogLine>): seq<LogLine>
    decreases |texts|
  {
    if texts == [] then []
    else
      var n := if texts[0].timestamp == "" then 1 else NextStart(texts, 1);
      [Entry(texts[..n])] + Blocks(texts[n..])
  }

  lemma {:induction false} MessageSnoc(block: seq<LogLine>, line: LogLine)
    requires block != []
    ensures Message(block + [line]) == Message(block) + "\n" + line.message
  {
    assert (block + [line])[1..] == block[1..] + [line];
    if |block| == 1 {
      assert block[1..] + [line] == [line];
    } else {
      MessageSnoc(block[1..], line);
    }
  }

  ghost predicate IsBlock(block: seq<LogLine>) {
    block != [] && block[0].timestamp != "" && forall i | 0 < i < |block| :: block[i].timestamp == ""
  }

  lemma {:induction false} GroupOfBlock(block: seq<LogLine>)
    requires IsBlock(block)
    ensures Group(block) == [Entry(block)]
  {
    var init, line := block[..|block| - 1], block[|block| - 1];
    assert block == init + [line];
    GroupSnoc(init, line);
    if init != [] {
      GroupOfBlock(init);
      MessageSnoc(init, line);
      assert block[0] in init && Seen(init);
    }
  }

  /** The entries with one line more. */
  function WithLine(entries: seq<LogLine>, line: LogLine, continues: bool): seq<LogLine>
    requires continues ==> entries != []
  {
    if continues then entries[..|entries| - 1] + [Continued(entries[|entries| - 1], line)] else entries + [line]
  }

  lemma {:induction false} GroupWithLine(texts: seq<LogLine>, line: LogLine)
    ensures Seen(texts) ==> Group(texts) != []
    ensures Group(texts + [line]) == WithLine(Group(texts), line, line.timestamp == "" && Seen(texts))
  {
    GroupSnoc(texts, line);
  }

  lemma WithLineBehind(a: seq<LogLine>, b: seq<LogLine>, line: LogLine, continues: bool)
    requires continues ==> b != []
    ensures WithLine(a + b, line, continues) == a + WithLine(b, line, continues)
  {
    if continues {
      assert (a + b)[..|a + b| - 1] == a + b[..|b| - 1];
    }
  }

  lemma SeenBehind(a: seq<LogLine>, b: seq<LogLine>)
    ensures Seen(a + b) <==> Seen(a) || Seen(b)
  {
    if Seen(a) {
      var t :| t in a && t.timestamp != "";
      assert t in a + b;
    }
    if Seen(b) {
      var t :| t in b && t.timestamp != "";
      assert t in a + b;
    }
  }

  /** Lines that start with a timestamp are grouped on their own. */
  lemma {:induction false} GroupConcat(a: seq<LogLine>, b: seq<LogLine>)
    requires b != [] ==> b[0].timestamp != ""
    ensures Group(a + b) == Group(a) + Group(b)
    decreases |b|
  {
    if b == [] {
      assert a + b == a;
    } else {
      var init, line := b[..|b| - 1], b[|b| - 1];
      assert b == init + [line] && a + b == (a + init) + [line];
      GroupConcat(a, init);
      GroupWithLine(init, line);
      GroupWithLine(a + init, line);
      SeenBehind(a, init);
      assert init != [] ==> b[0] in init;
      WithLineBehind(Group(a), Group(init), line, line.timestamp == "" && Seen(init));
    }
  }

  /** A line without timestamp at the start is an entry of its own. */
  lemma {:induction false} GroupAfterRawLine(line: LogLine, rest: seq<LogLine>)
    requires line.timestamp == ""
    ensures Group([line] + rest) == [line] + Group(rest)
    decreases |rest|
  {
    if rest == [] {
      assert [line] + rest == [] + [line];
      GroupSnoc([], line);
    } else {
      var init, last := rest[..|rest| - 1], rest[|rest| - 1];
      assert rest == init + [last] && [line] + rest == ([line] + init) + [last];
      GroupAfterRawLine(line, init);
      SeenBehind([line], init);
      GroupWithLine(init, last);
      GroupWithLine([line] + init, last);
      WithLineBehind([line], Group(init), last, last.timestamp == "" && Seen(init));
    }
  }

  lemma {:induction false} NoStartBefore(texts: seq<LogLine>, i: nat)
    requires i <= |texts|
    ensures var n := NextStart(texts, i);
            (forall k | i <= k < n :: texts[k].timestamp == "") && (n < |texts| ==> texts[n].timestamp != "")
    decreases |texts| - i
  {
    if i < |texts| && texts[i].timestamp == "" {
      NoStartBefore(texts, i + 1);
    }
  }

  /** Grouping line by line, as the loops do, gives the blocks. */
  lemma {:induction false} EntriesAreBlocks(texts: seq<LogLine>)
    ensures Group(texts) == Blocks(texts)
    decreases |texts|
  {
    if texts != [] {
      if texts[0].timestamp == "" {
        assert texts == [texts[0]] + texts[1..] && texts[..1] == [texts[0]];
        GroupAfterRawLine(texts[0], texts[1..]);
        EntriesAreBlocks(texts[1..]);
      } else {
        var n := NextStart(texts, 1);
        NoStartBefore(texts, 1);
        assert texts == texts[..n] + texts[n..];
        GroupOfBlock(texts[..n]);
        GroupConcat(texts[..n], texts[n..]);
        EntriesAreBlocks(texts[n..]);
      }
    }
  }
}
