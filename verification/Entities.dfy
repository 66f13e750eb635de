/** Messages as HTML: their conversion writes some characters as entities, and the highlighting searches these as
    well, while the find mode counts in the message itself. */
module Entities {
  import opened Folding
  import FindCursor
  import Highlight

  /** The characters that are written as entities. */
  type Table = map<char, string>

  predicate IsLetter(c: char) {
    'A' <= c <= 'Z' || 'a' <= c <= 'z'
  }

  /** Angles and ampersands are among the characters, letters and semicolons are not; entities go from an ampersand
      to a semicolon. */
  predicate IsTable(table: Table) {
    && '<' in table && '&' in table && ';' !in table
    && (forall c <- table :: !IsLetter(c) && IsEntity(table[c]))
  }

  predicate IsEntity(e: string) {
    |e| >= 2 && e[0] == '&' && e[|e| - 1] == ';' && '<' !in e
  }

  function EncodeChar(c: char, table: Table): string {
    if c in table then table[c] else [c]
  }

  /** A message as HTML. */
  function Encode(text: string, table: Table): string {
    if text == [] then [] else EncodeChar(text[0], table) + Encode(text[1..], table)
  }

  /** A text that is its own HTML. */
  predicate Plain(text: string, table: Table) {
    forall c <- text :: c !in table
  }

  lemma {:induction false} PlainStays(text: string, more: string, table: Table)
    requires Plain(text, table)
    ensures Encode(text + more, table) == text + Encode(more, table)
  {
    if text == [] {
      assert text + more == more;
    } else {
      assert (text + more)[1..] == text[1..] + more;
      PlainStays(text[1..], more, table);
      assert text[0] in text && text == [text[0]] + text[1..];
    }
  }

  lemma {:induction false} EncodedHasNoAngle(text: string, table: Table)
    requires IsTable(table)
    ensures '<' !in Encode(text, table)
  {
    if text != [] {
      EncodedHasNoAngle(text[1..], table);
      assert '<' !in EncodeChar(text[0], table);
    }
  }

  /** The marks that highlighting sets in a message. */
  function MarksIn(text: string, query: string, table: Table): nat
    requires query != []
  {
    Highlight.AllCount(Highlight.Parts(Encode(text, table)), query)
  }

  lemma {:induction false} MarksAreMatches(text: string, query: string, table: Table)
    requires IsTable(table) && query != []
    ensures MarksIn(text, query, table) == Highlight.Count(Encode(text, table), query)
  {
    EncodedHasNoAngle(text, table);
    FindCursor.CountsAgree(Encode(text, table), query);
  }

  // ---------------------------------------------------------------------------------------------
  // Messages for which all counts agree
  // ---------------------------------------------------------------------------------------------

  lemma SemicolonAt(s: string)
    requires s != []
    ensures Highlight.MatchAt(s, ";") <==> s[0] == ';'
  {
    assert s[..1] == [s[0]] && Lower([s[0]])[0] == LowerChar(s[0]) && Lower(";") == ";";
  }

  lemma {:induction false} SemicolonsAddUp(a: string, b: string)
    ensures Highlight.Count(a + b, ";") == Highlight.Count(a, ";") + Highlight.Count(b, ";")
  {
    if a == [] {
      assert a + b == b;
    } else {
      assert (a + b)[1..] == a[1..] + b;
      SemicolonAt(a);
      SemicolonAt(a + b);
      SemicolonsAddUp(a[1..], b);
    }
  }

  lemma {:induction false} EntityHasSemicolon(e: string)
    requires IsEntity(e)
    ensures Highlight.Count(e, ";") >= 1
  {
    var n := |e| - 1;
    assert e == e[..n] + [e[n]];
    SemicolonsAddUp(e[..n], [e[n]]);
    SemicolonAt([e[n]]);
  }

  /** Every entity adds a semicolon. */
  lemma {:induction false} SemicolonsGrowExactly(text: string, table: Table)
    requires IsTable(table)
    ensures Highlight.Count(Encode(text, table), ";") >= Highlight.Count(text, ";")
    ensures Highlight.Count(Encode(text, table), ";") == Highlight.Count(text, ";") <==> Plain(text, table)
  {
    if text != [] {
      var c, rest := text[0], text[1..];
      SemicolonsGrowExactly(rest, table);
      SemicolonsAddUp(EncodeChar(c, table), Encode(rest, table));
      SemicolonAt(text);
      assert text == [c] + rest;
      if c in table {
        EntityHasSemicolon(table[c]);
      } else {
        SemicolonsAddUp([c], rest);
      }
    }
  }

  /** Whatever one looks for is marked as often as it is counted, exactly if the message needs no entity. */
  lemma MessageIsCountedRightExactly(text: string, table: Table)
    requires IsTable(table)
    ensures (forall query | query != [] :: MarksIn(text, query, table) == FindCursor.CountOf(text, query))
       <==> Plain(text, table)
  {
    if Plain(text, table) {
      PlainStays(text, "", table);
      assert text + "" == text && text + Encode("", table) == text;
      forall query | query != [] ensures MarksIn(text, query, table) == FindCursor.CountOf(text, query) {
        MarksAreMatches(text, query, table);
      }
    } else {
      MarksAreMatches(text, ";", table);
      SemicolonsGrowExactly(text, table);
      assert MarksIn(text, ";", table) != FindCursor.CountOf(text, ";");
    }
  }

  // ---------------------------------------------------------------------------------------------
  // Queries for which all counts agree
  // ---------------------------------------------------------------------------------------------

  /** From its place `j` on the entity has the query in it, or else the start of the query at its end. */
  predicate Meets(query: string, e: string, j: nat)
    requires j < |e|
  {
    var m := if |query| <= |e| - j then |query| else |e| - j;
    EqualFold(e[j..j + m], query[..m])
  }

  predicate MeetsEntity(query: string, table: Table) {
    exists c, j: nat | c in table && j < |table[c]| :: Meets(query, table[c], j)
  }

  /** A character that is written as an entity is not matched by one that is not. */
  lemma OtherChars(c: char, d: char, table: Table)
    requires IsTable(table) && c in table && d !in table
    ensures LowerChar(c) == c != LowerChar(d)
  {
  }

  lemma MatchStep(s: string, query: string)
    requires query != []
    ensures Highlight.MatchAt(s, query)
       <==> s != [] && LowerChar(s[0]) == LowerChar(query[0]) && Highlight.MatchAt(s[1..], query[1..])
  {
    if |query| <= |s| {
      var a, n := s[..|query|], |query|;
      assert s[1..][..n - 1] == a[1..];
      assert Lower(a[1..]) == Lower(a)[1..] && Lower(query[1..]) == Lower(query)[1..];
      assert Lower(a) == [LowerChar(s[0])] + Lower(a)[1..];
      assert Lower(query) == [LowerChar(query[0])] + Lower(query)[1..];
    }
  }

  /** A query without such characters is matched in the HTML where it is in the message. */
  lemma {:induction false} PlainMatches(text: string, query: string, table: Table)
    requires IsTable(table) && Plain(query, table)
    ensures Highlight.MatchAt(text, query) <==> Highlight.MatchAt(Encode(text, table), query)
    ensures Highlight.MatchAt(text, query) ==> Encode(text, table)[|query|..] == Encode(text[|query|..], table)
    decreases |query|
  {
    if query == [] {
      assert text[0..] == text && Encode(text, table)[0..] == Encode(text, table);
    } else {
      var html := Encode(text, table);
      assert query[0] in query;
      MatchStep(text, query);
      MatchStep(html, query);
      if text != [] {
        if text[0] in table {
          OtherChars(text[0], query[0], table);
          OtherChars('&', query[0], table);
          assert html[0] == '&';
        } else {
          assert html[1..] == Encode(text[1..], table);
          PlainMatches(text[1..], query[1..], table);
          if Highlight.MatchAt(text, query) {
            assert html[|query|..] == html[1..][|query| - 1..] && text[|query|..] == text[1..][|query| - 1..];
          }
        }
      }
    }
  }

  lemma MatchMeets(query: string, e: string, j: nat, rest: string)
    requires j < |e| && Highlight.MatchAt(e[j..] + rest, query)
    ensures Meets(query, e, j)
  {
    var m := if |query| <= |e| - j then |query| else |e| - j;
    var a := (e[j..] + rest)[..|query|];
    assert a[..m] == e[j..j + m];
    assert Lower(a[..m]) == Lower(a)[..m] && Lower(query[..m]) == Lower(query)[..m];
  }

  lemma {:induction false} NoMatchInEntity(query: string, e: string, j: nat, rest: string)
    requires query != [] && j <= |e| && forall i: nat | i < |e| :: !Meets(query, e, i)
    ensures Highlight.Count(e[j..] + rest, query) == Highlight.Count(rest, query)
    decreases |e| - j
  {
    var s := e[j..] + rest;
    if j == |e| {
      assert s == rest;
    } else {
      NoMatchInEntity(query, e, j + 1, rest);
      assert s[1..] == e[j + 1..] + rest;
      if Highlight.MatchAt(s, query) {
        MatchMeets(query, e, j, rest);
      }
    }
  }

  lemma {:induction false} CountedRight(text: string, query: string, table: Table)
    requires IsTable(table) && query != [] && Plain(query, table) && !MeetsEntity(query, table)
    ensures Highlight.Count(Encode(text, table), query) == Highlight.Count(text, query)
    decreases |text|
  {
    if text != [] {
      PlainMatches(text, query, table);
      if Highlight.MatchAt(text, query) {
        CountedRight(text[|query|..], query, table);
      } else {
        CountedRight(text[1..], query, table);
        var e, rest := EncodeChar(text[0], table), Encode(text[1..], table);
        if text[0] in table {
          assert e[0..] == e;
          NoMatchInEntity(query, e, 0, rest);
        } else {
          assert Encode(text, table)[1..] == rest;
        }
      }
    }
  }

  lemma {:induction false} MatchIsCounted(s: string, query: string, j: nat)
    requires query != [] && j <= |s| && Highlight.MatchAt(s[j..], query)
    ensures Highlight.Count(s, query) >= 1
    decreases j
  {
    if j == 0 {
      assert s[0..] == s;
    } else if !Highlight.MatchAt(s, query) {
      assert s[j..] == s[1..][j - 1..];
      MatchIsCounted(s[1..], query, j - 1);
    }
  }

  lemma {:induction false} ShortTextHasNone(s: string, query: string)
    requires |s| < |query|
    ensures Highlight.Count(s, query) == 0
  {
    if s != [] {
      ShortTextHasNone(s[1..], query);
    }
  }

  lemma {:induction false} EncodeFirst(c: char, rest: string, table: Table)
    requires c in table && Plain(rest, table)
    ensures Encode([c] + rest, table) == table[c] + rest
  {
    PlainStays(rest, "", table);
    assert ([c] + rest)[1..] == rest && rest + "" == rest && Encode("", table) == "";
  }

  lemma MatchAcross(query: string, e: string, j: nat, m: nat)
    requires j < |e| && Meets(query, e, j) && m == if |query| <= |e| - j then |query| else |e| - j
    ensures Highlight.MatchAt((e + query[m..])[j..], query)
  {
    assert (e + query[m..])[j..][..|query|] == e[j..j + m] + query[m..];
    assert query == query[..m] + query[m..];
    FoldParts(e[j..j + m], query[..m], query[m..]);
  }

  lemma {:induction false} NoMatchHere(c: char, rest: string, query: string, table: Table)
    requires IsTable(table) && query != [] && Plain(query, table) && c in table && |rest| < |query|
    ensures Highlight.Count([c] + rest, query) == 0
  {
    assert ([c] + rest)[1..] == rest && query[0] in query;
    OtherChars(c, query[0], table);
    MatchStep([c] + rest, query);
    ShortTextHasNone(rest, query);
  }

  /** A message whose HTML has the query in it, or partly in it, although the message has not. */
  lemma CountedWrong(query: string, c: char, j: nat, table: Table) returns (text: string)
    requires IsTable(table) && query != [] && Plain(query, table)
    requires c in table && j < |table[c]| && Meets(query, table[c], j)
    ensures Highlight.Count(text, query) == 0 && Highlight.Count(Encode(text, table), query) >= 1
  {
    var e := table[c];
    var m := if |query| <= |e| - j then |query| else |e| - j;
    text := [c] + query[m..];
    EncodeFirst(c, query[m..], table);
    MatchAcross(query, e, j, m);
    MatchIsCounted(e + query[m..], query, j);
    NoMatchHere(c, query[m..], query, table);
  }

  lemma FoldParts(a: string, b: string, rest: string)
    requires EqualFold(a, b)
    ensures EqualFold(a + rest, b + rest)
  {
    assert Lower(a + rest) == Lower(a) + Lower(rest) && Lower(b + rest) == Lower(b) + Lower(rest);
  }

  /** In every message a query is marked as often as it is counted, exactly if it meets no entity; provided that
      no character of it needs one. */
  lemma PlainQueryIsCountedRightExactly(query: string, table: Table)
    requires IsTable(table) && query != [] && Plain(query, table)
    ensures (forall text :: MarksIn(text, query, table) == FindCursor.CountOf(text, query))
       <==> !MeetsEntity(query, table)
  {
    if c, j: nat :| c in table && j < |table[c]| && Meets(query, table[c], j) {
      var text := CountedWrong(query, c, j, table);
      MarksAreMatches(text, query, table);
      assert MarksIn(text, query, table) != FindCursor.CountOf(text, query);
    } else {
      forall text ensures MarksIn(text, query, table) == FindCursor.CountOf(text, query) {
        MarksAreMatches(text, query, table);
        CountedRight(text, query, table);
      }
    }
  }

  // ---------------------------------------------------------------------------------------------
  // Queries with such characters
  // ---------------------------------------------------------------------------------------------

  /** No entity has a character behind its ampersand that would be written as an entity. */
  predicate Entire(table: Table) {
    forall c <- table :: table[c] != [] && Plain(table[c][1..], table)
  }

  lemma MatchParts(a: string, s: string, w: string, q: string)
    requires |a| == |w|
    ensures Highlight.MatchAt(a + s, w + q) <==> EqualFold(a, w) && Highlight.MatchAt(s, q)
  {
    if |q| <= |s| {
      var t := s[..|q|];
      assert (a + s)[..|w + q|] == a + t;
      assert Lower(a + t) == Lower(a) + Lower(t) && Lower(w + q) == Lower(w) + Lower(q);
      assert (Lower(a) + Lower(t))[..|a|] == Lower(a) && (Lower(a) + Lower(t))[|a|..] == Lower(t);
      assert (Lower(w) + Lower(q))[..|a|] == Lower(w) && (Lower(w) + Lower(q))[|a|..] == Lower(q);
    }
  }

  lemma PlainIsFolded(a: string, w: string, table: Table)
    requires IsTable(table) && EqualFold(a, w) && Plain(a, table)
    ensures Plain(w, table)
  {
    assert |a| == |w|;
    forall i | 0 <= i < |w| ensures w[i] !in table {
      assert a[i] in a && Lower(a)[i] == Lower(w)[i];
      if w[i] in table {
        OtherChars(w[i], a[i], table);
      }
    }
  }

  lemma {:induction false} WholeTextMatches(query: string)
    requires query != []
    ensures Highlight.Count(query, query) == 1
  {
    assert query[..|query|] == query && query[|query|..] == [];
  }

  lemma {:induction false} MatchIsSomewhere(s: string, query: string) returns (j: nat)
    requires query != [] && Highlight.Count(s, query) >= 1
    ensures j <= |s| && Highlight.MatchAt(s[j..], query)
  {
    if Highlight.MatchAt(s, query) {
      j := 0;
      assert s[0..] == s;
    } else {
      j := MatchIsSomewhere(s[1..], query);
      assert s[1..][j..] == s[j + 1..];
      j := j + 1;
    }
  }

  /** The first character that is written as an entity. */
  lemma {:induction false} FirstEncoded(text: string, table: Table) returns (n: nat)
    requires !Plain(text, table)
    ensures n < |text| && text[n] in table && Plain(text[..n], table)
  {
    if text[0] in table {
      n := 0;
    } else {
      assert text == [text[0]] + text[1..];
      n := FirstEncoded(text[1..], table);
      assert text[..n + 1] == [text[0]] + text[1..][..n];
      n := n + 1;
    }
  }

  lemma RestOfText(s: string, n: nat, rest: string, j: nat)
    requires n <= |s| && s[n..] == rest && n <= j <= |s|
    ensures j - n <= |rest| && s[j..] == rest[j - n..]
  {
  }

  /** If the HTML of the query holds the query, but not at its start, the query without its first character will do. */
  lemma {:induction false} WithoutFirst(query: string, j: nat, table: Table)
    requires query != [] && |EncodeChar(query[0], table)| <= j <= |Encode(query, table)|
    requires Highlight.MatchAt(Encode(query, table)[j..], query)
    ensures Highlight.Count(query[1..], query) == 0 && Highlight.Count(Encode(query[1..], table), query) >= 1
  {
    var first, rest := EncodeChar(query[0], table), Encode(query[1..], table);
    assert Encode(query, table) == first + rest && (first + rest)[|first|..] == rest;
    RestOfText(first + rest, |first|, rest, j);
    MatchIsCounted(rest, query, j - |first|);
    ShortTextHasNone(query[1..], query);
  }

  /** It does not match from within the entity of its first character. */
  lemma {:induction false} MatchAtStart(query: string, j: nat, table: Table)
    requires IsTable(table) && Entire(table) && query != [] && j < |EncodeChar(query[0], table)|
    requires Highlight.MatchAt(Encode(query, table)[j..], query)
    ensures j == 0
  {
    var s := Encode(query, table)[j..];
    MatchStep(s, query);
    assert s[0] == EncodeChar(query[0], table)[j];
    if j > 0 {
      OtherChars(query[0], s[0], table);
    }
  }

  lemma {:induction false} EncodedFrom(text: string, n: nat, table: Table)
    requires n < |text| && text[n] in table && Plain(text[..n], table)
    ensures Encode(text, table) == text[..n] + (table[text[n]] + Encode(text[n + 1..], table))
  {
    assert text == text[..n] + text[n..] && text[n..][1..] == text[n + 1..];
    PlainStays(text[..n], text[n..], table);
  }

  /** A character that is written as an entity stands nowhere in the HTML before the first entity. */
  lemma {:induction false} NoneBefore(y: string, m: nat, table: Table)
    requires IsTable(table) && 0 < m <= |y| && Plain(y[..m], table)
    requires Highlight.MatchAt(Encode(y, table), y[m..])
    ensures Plain(y, table)
  {
    if !Plain(y, table) {
      var n := FirstEncoded(y, table);
      EncodedFrom(y, n, table);
      assert forall i | 0 <= i < m :: y[..m][i] in y[..m] && y[..m][i] == y[i];
      var i := n - m;
      assert y[m..][i] == y[n] && y[i] in y[..n] && Encode(y, table)[i] == y[i];
      MatchedChar(Encode(y, table), y[m..], i);
      OtherChars(y[n], y[i], table);
    }
  }

  lemma MatchedChar(s: string, query: string, i: nat)
    requires i < |query| && Highlight.MatchAt(s, query)
    ensures i < |s| && LowerChar(s[i]) == LowerChar(query[i])
  {
    assert Lower(s[..|query|])[i] == Lower(query)[i];
  }

  lemma {:induction false} NoneOfSameLength(text: string, query: string)
    requires query != [] && |text| == |query| && !Highlight.MatchAt(text, query)
    ensures Highlight.Count(text, query) == 0
  {
    ShortTextHasNone(text[1..], query);
  }

  lemma AngleIsNoAmpersand(x: string)
    ensures !Highlight.MatchAt(x + ['<'], x + ['&'])
  {
    MatchParts(x, ['<'], x, ['&']);
    MatchStep(['<'], ['&']);
  }

  /** If `s` behind `e` starts as `y` does, and `e` is not shorter than `y`, then `s` is of no account. */
  lemma LongStart(e: string, s: string, y: string)
    requires |y| <= |e| && Highlight.MatchAt(e + s, y)
    ensures EqualFold(e[..|y|], y) && Highlight.MatchAt(e, y)
  {
    assert (e + s)[..|y|] == e[..|y|];
  }

  lemma {:induction false} ShortStart(e: string, y: string, table: Table)
    requires IsTable(table) && Plain(e, table) && 0 < |e| < |y| && Highlight.MatchAt(e + Encode(y, table), y)
    ensures Plain(y[|e|..], table) && Highlight.MatchAt(e + y[|e|..], y)
  {
    var w, rest := y[..|e|], y[|e|..];
    assert y == w + rest;
    MatchParts(e, Encode(y, table), w, rest);
    PlainIsFolded(e, w, table);
    NoneBefore(y, |e|, table);
    assert forall c <- rest :: c in y;
    assert rest[..|rest|] == rest;
    MatchParts(e, rest, w, rest);
  }

  /** If the rest of an entity and the HTML of `y` start as `y` does, then what is left of `y` needs no entity. */
  lemma {:induction false} StartOfEntity(e: string, y: string, m: nat, table: Table)
    requires IsTable(table) && Plain(e, table) && e != [] && m == if |y| <= |e| then |y| else |e|
    requires Highlight.MatchAt(e + Encode(y, table), y)
    ensures Plain(y[m..], table) && Highlight.MatchAt(e + y[m..], y)
  {
    if |y| <= |e| {
      LongStart(e, Encode(y, table), y);
      assert e + y[m..] == e;
    } else {
      ShortStart(e, y, table);
    }
  }

  lemma {:induction false} FoundBehindPlain(x: string, more: string, query: string, table: Table)
    requires Plain(x, table) && Highlight.MatchAt(Encode(more, table), query)
    ensures Highlight.MatchAt(Encode(x + more, table), x + query)
  {
    PlainStays(x, more, table);
    MatchParts(x, Encode(more, table), x, query);
  }

  lemma AngleForAmpersand(x: string, table: Table) returns (text: string)
    requires IsTable(table) && Plain(x, table)
    ensures Highlight.Count(text, x + ['&']) == 0 && Highlight.MatchAt(Encode(text, table), x + ['&'])
  {
    text := x + ['<'];
    EncodeFirst('<', [], table);
    assert ['<'] + [] == ['<'] && table['<'] + [] == table['<'];
    MatchStep(table['<'], ['&']);
    FoundBehindPlain(x, ['<'], ['&'], table);
    AngleIsNoAmpersand(x);
    NoneOfSameLength(text, x + ['&']);
  }

  lemma {:induction false} FoundFromAmpersand(y: string, rest: string, table: Table)
    requires IsTable(table) && Plain(rest, table) && Highlight.MatchAt(table['&'][1..] + rest, y)
    ensures Highlight.MatchAt(Encode(['&'] + rest, table), ['&'] + y)
  {
    var e := table['&'];
    EncodeFirst('&', rest, table);
    assert e + rest == ['&'] + (e[1..] + rest);
    MatchParts(['&'], e[1..] + rest, ['&'], y);
  }

  /** `x`, an ampersand and `y`, which the rest of the ampersand's entity starts as: a text with less of `y`, or one
      with another such character. */
  lemma MatchBehindAmpersand(x: string, y: string, table: Table) returns (text: string)
    requires IsTable(table) && Entire(table) && Plain(x, table)
    requires Highlight.MatchAt(table['&'][1..] + Encode(y, table), y)
    ensures var query := x + (['&'] + y);
            Highlight.Count(text, query) == 0 && Highlight.MatchAt(Encode(text, table), query)
  {
    if y == [] {
      text := AngleForAmpersand(x, table);
      assert ['&'] + y == ['&'];
    } else {
      var n := |table['&']| - 1;
      var m := if |y| <= n then |y| else n;
      var rest := y[m..];
      StartOfEntity(table['&'][1..], y, m, table);
      FoundFromAmpersand(y, rest, table);
      text := x + (['&'] + rest);
      FoundBehindPlain(x, ['&'] + rest, ['&'] + y, table);
      ShortTextHasNone(text, x + (['&'] + y));
    }
  }

  /** An entity that starts as a query with such a character does: the character is the ampersand. */
  lemma EntityInQuery(c: char, y: string, html: string, table: Table)
    requires IsTable(table) && c in table && Highlight.MatchAt(table[c] + html, [c] + y)
    ensures c == '&' && Highlight.MatchAt(table['&'][1..] + html, y)
  {
    MatchStep(table[c] + html, [c] + y);
    assert (table[c] + html)[1..] == table[c][1..] + html && ([c] + y)[1..] == y;
  }

  /** A query whose HTML it is found at the start of: its first such character is an ampersand. */
  lemma FoundInItself(query: string, table: Table) returns (x: string, y: string)
    requires IsTable(table) && !Plain(query, table) && Highlight.MatchAt(Encode(query, table), query)
    ensures query == x + (['&'] + y) && Plain(x, table)
    ensures Highlight.MatchAt(table['&'][1..] + Encode(y, table), y)
  {
    var n := FirstEncoded(query, table);
    EncodedFrom(query, n, table);
    var c := query[n];
    x, y := query[..n], query[n + 1..];
    assert query == x + ([c] + y);
    MatchParts(x, table[c] + Encode(y, table), x, [c] + y);
    EntityInQuery(c, y, Encode(y, table), table);
  }

  /** A text in which a query with such characters is counted wrong. */
  lemma EncodedQueryIsMiscounted(query: string, table: Table) returns (text: string)
    requires IsTable(table) && Entire(table) && !Plain(query, table)
    ensures Highlight.Count(Encode(text, table), query) != Highlight.Count(text, query)
  {
    var html := Encode(query, table);
    if Highlight.Count(html, query) == 0 {
      text := query;
      WholeTextMatches(query);
    } else {
      var j := MatchIsSomewhere(html, query);
      if j >= |EncodeChar(query[0], table)| {
        text := query[1..];
        WithoutFirst(query, j, table);
      } else {
        MatchAtStart(query, j, table);
        assert html[0..] == html;
        var x, y := FoundInItself(query, table);
        text := MatchBehindAmpersand(x, y, table);
        assert Encode(text, table)[0..] == Encode(text, table);
        MatchIsCounted(Encode(text, table), query, 0);
      }
    }
  }

  /** In every message a query is marked as often as it is counted, exactly if it needs no entity and meets none. */
  lemma QueryIsCountedRightExactly(query: string, table: Table)
    requires IsTable(table) && Entire(table) && query != []
    ensures (forall text :: MarksIn(text, query, table) == FindCursor.CountOf(text, query))
       <==> Plain(query, table) && !MeetsEntity(query, table)
  {
    if Plain(query, table) {
      PlainQueryIsCountedRightExactly(query, table);
    } else {
      var text := EncodedQueryIsMiscounted(query, table);
      MarksAreMatches(text, query, table);
      assert MarksIn(text, query, table) != FindCursor.CountOf(text, query);
    }
  }

  // ---------------------------------------------------------------------------------------------
  // Such tables
  // ---------------------------------------------------------------------------------------------

  /** The characters that the highlighting escapes in a match. */
  const ESCAPES: Table := map['&' := "&amp;", '<' := "&lt;", '>' := "&gt;"]

  /** The predefined entities of section 4.6 of XML 1.0. */
  const XML_ENTITIES: Table := ESCAPES['"' := "&quot;"]['\'' := "&apos;"]

  lemma XmlEntities(c: char)
    requires c in XML_ENTITIES
    ensures !IsLetter(c) && IsEntity(XML_ENTITIES[c]) && (c in ESCAPES ==> XML_ENTITIES[c] == ESCAPES[c])
    ensures forall d <- XML_ENTITIES[c][1..] :: IsLetter(d) || d == ';'
  {
  }

  lemma TheseAreTables()
    ensures IsTable(ESCAPES) && IsTable(XML_ENTITIES) && Entire(ESCAPES) && Entire(XML_ENTITIES)
  {
    assert '&' in ESCAPES && '<' in ESCAPES && ';' !in XML_ENTITIES;
    assert forall c <- ESCAPES :: c in XML_ENTITIES;
    forall c <- XML_ENTITIES
      ensures !IsLetter(c) && IsEntity(XML_ENTITIES[c]) && (c in ESCAPES ==> XML_ENTITIES[c] == ESCAPES[c])
      ensures Plain(XML_ENTITIES[c][1..], XML_ENTITIES)
    {
      XmlEntities(c);
      forall d <- XML_ENTITIES[c][1..] ensures d !in XML_ENTITIES {
        if d in XML_ENTITIES {
          XmlEntities(d);
        }
      }
    }
    forall c <- ESCAPES ensures Plain(ESCAPES[c][1..], ESCAPES) {
      assert Plain(XML_ENTITIES[c][1..], XML_ENTITIES);
    }
  }

  lemma {:induction false} EscapeIsEncode(text: string)
    ensures Highlight.Escape(text) == Encode(text, ESCAPES)
  {
    if text != [] {
      EscapeIsEncode(text[1..]);
    }
  }

  lemma SpecialIsNotPlain(text: string)
    ensures Highlight.HasSpecial(text) <==> !Plain(text, ESCAPES)
  {
    assert forall c :: c in ESCAPES <==> Highlight.Special(c);
    if i :| 0 <= i < |text| && Highlight.Special(text[i]) {
      assert text[i] in text;
    }
  }

  /** In escaped text everything is counted as in the text itself, exactly if nothing had to be escaped. */
  lemma {:induction false} EscapedTextIsCountedRightExactly(text: string)
    ensures (forall query | query != [] ::
               Highlight.Count(Highlight.Escape(text), query) == Highlight.Count(text, query))
       <==> !Highlight.HasSpecial(text)
  {
    TheseAreTables();
    EscapeIsEncode(text);
    SpecialIsNotPlain(text);
    SemicolonsGrowExactly(text, ESCAPES);
    Highlight.EscapeGrowsExactly(text);
    if Highlight.HasSpecial(text) {
      assert Highlight.Count(Highlight.Escape(text), ";") != Highlight.Count(text, ";");
    }
  }

  /** A message without the word that is marked in its HTML. */
  lemma EntitiesAreSearched()
    ensures FindCursor.CountOf("&", "amp") == 0 && MarksIn("&", "amp", XML_ENTITIES) == 1
  {
    var html := "&amp;";
    TheseAreTables();
    ShortTextHasNone("&", "amp");
    MarksAreMatches("&", "amp", XML_ENTITIES);
    assert "&"[1..] == "" && Encode("&", XML_ENTITIES) == html;
    MatchStep(html, "amp");
    assert html[1..][..3] == "amp" && html[1..][3..] == ";";
    ShortTextHasNone(";", "amp");
  }

  lemma OnlyAngle(c: char)
    ensures LowerChar(c) == '<' <==> c == '<'
  {
  }

  lemma {:induction false} AngleNotIn(s: string)
    requires '<' !in s
    ensures Highlight.Count(s, "<") == 0
  {
    if s != [] {
      MatchStep(s, "<");
      OnlyAngle(s[0]);
      AngleNotIn(s[1..]);
    }
  }

  /** An angle is written as an entity, so the one in a message is never marked. */
  lemma AnglesAreNotSearched()
    ensures FindCursor.CountOf("<", "<") == 1 && MarksIn("<", "<", XML_ENTITIES) == 0
  {
    TheseAreTables();
    WholeTextMatches("<");
    MarksAreMatches("<", "<", XML_ENTITIES);
    assert "<"[1..] == "" && Encode("<", XML_ENTITIES) == "&lt;";
    AngleNotIn("&lt;");
  }
}
