/** Marking the matches of a query in the text of an HTML string. */
module Highlight {
  import opened Folding
  import opened Options
  import opened Sequences

  const OPEN := "<mark class=\"match-highlight\">"
  const OPEN_CURRENT := "<mark class=\"match-highlight-current\">"
  const CLOSE := "</mark>"

  /** The result in pieces: what is left as it is, and matches. */
  datatype Piece = Plain(text: string) | Mark(current: bool, text: string)

  // ---------------------------------------------------------------------------------------------
  // Tags and text
  // ---------------------------------------------------------------------------------------------

  /** The place of the first `c` from `i` on, or the length. */
  function Find(s: string, c: char, i: nat): (r: nat)
    requires i <= |s|
    ensures i <= r <= |s| && c !in s[i..r] && (r < |s| ==> s[r] == c)
    decreases |s| - i
  {
    if i == |s| || s[i] == c then i else Find(s, c, i + 1)
  }

  /** Text and tags in turn: a tag goes from a `<` to the next `>`. */
  function Parts(html: string): (parts: seq<string>)
    ensures parts != []
    decreases |html|
  {
    var i := Find(html, '<', 0);
    var j := Find(html, '>', i);
    if j == |html| then [html] else [html[..i], html[i..j + 1]] + Parts(html[j + 1..])
  }

  predicate IsTag(part: string) {
    part != [] && part[0] == '<' && part[|part| - 1] == '>'
  }

  // ---------------------------------------------------------------------------------------------
  // Matches
  // ---------------------------------------------------------------------------------------------

  predicate MatchAt(text: string, query: string) {
    |query| <= |text| && EqualFold(text[..|query|], query)
  }

  /** The matches of a text from the left, the first of them being number `index`. */
  function TextPieces(text: string, query: string, index: nat, current: Option<nat>): seq<Piece>
    requires query != []
  {
    if text == [] then []
    else if MatchAt(text, query)
    then [Mark(current == Some(index), text[..|query|])] + TextPieces(text[|query|..], query, index + 1, current)
    else [Plain([text[0]])] + TextPieces(text[1..], query, index, current)
  }

  /** How often the query occurs without overlaps. */
  function Count(text: string, query: string): nat
    requires query != []
  {
    if text == [] then 0
    else if MatchAt(text, query) then 1 + Count(text[|query|..], query)
    else Count(text[1..], query)
  }

  function PartPieces(part: string, query: string, index: nat, current: Option<nat>): seq<Piece>
    requires query != []
  {
    if IsTag(part) then [Plain(part)] else TextPieces(part, query, index, current)
  }

  function PartCount(part: string, query: string): nat
    requires query != []
  {
    if IsTag(part) then 0 else Count(part, query)
  }

  function AllCount(parts: seq<string>, query: string): nat
    requires query != []
  {
    if parts == [] then 0 else PartCount(parts[0], query) + AllCount(parts[1..], query)
  }

  /** The parts in pieces; the first match is number `index`. */
  function AllPieces(parts: seq<string>, query: string, index: nat, current: Option<nat>): seq<Piece>
    requires query != []
  {
    if parts == [] then []
    else
      PartPieces(parts[0], query, index, current)
      + AllPieces(parts[1..], query, index + PartCount(parts[0], query), current)
  }

  // ---------------------------------------------------------------------------------------------
  // The string
  // ---------------------------------------------------------------------------------------------

  function EscapeChar(c: char): string {
    if c == '&' then "&amp;" else if c == '<' then "&lt;" else if c == '>' then "&gt;" else [c]
  }

  function Escape(s: string): string {
    if s == [] then [] else EscapeChar(s[0]) + Escape(s[1..])
  }

  function Opening(current: bool): string {
    if current then OPEN_CURRENT else OPEN
  }

  function Render(p: Piece): string {
    match p
    case Plain(text) => text
    case Mark(current, text) => Opening(current) + Escape(text) + CLOSE
  }

  function RenderAll(pieces: seq<Piece>): string {
    if pieces == [] then [] else Render(pieces[0]) + RenderAll(pieces[1..])
  }

  lemma {:induction false} RenderConcat(a: seq<Piece>, b: seq<Piece>)
    ensures RenderAll(a + b) == RenderAll(a) + RenderAll(b)
  {
    if a == [] {
      assert a + b == b;
    } else {
      assert (a + b)[1..] == a[1..] + b;
      RenderConcat(a[1..], b);
    }
  }

  /** The marked form of a text whose first match is number `index`. */
  function MarkedText(text: string, query: string, index: nat, current: Option<nat>): string
    requires query != []
  {
    RenderAll(TextPieces(text, query, index, current))
  }

  /** The marked form of some parts. */
  function MarkedParts(parts: seq<string>, query: string, index: nat, current: Option<nat>): string
    requires query != []
  {
    RenderAll(AllPieces(parts, query, index, current))
  }

  lemma {:induction false} NextChar(text: string, query: string, index: nat, after: nat, current: Option<nat>)
    requires query != [] && text != [] && after == index + 1
    ensures MatchAt(text, query) ==>
      && MarkedText(text, query, index, current)
         == Opening(current == Some(index)) + Escape(text[..|query|]) + CLOSE
            + MarkedText(text[|query|..], query, after, current)
      && Count(text, query) == 1 + Count(text[|query|..], query)
    ensures !MatchAt(text, query) ==>
      && MarkedText(text, query, index, current) == [text[0]] + MarkedText(text[1..], query, index, current)
      && Count(text, query) == Count(text[1..], query)
  {
    var pieces := TextPieces(text, query, index, current);
    assert pieces == [pieces[0]] + pieces[1..];
  }

  /** Replaces the matches of one text; returns the number of the next match. */
  method ReplaceMatches(text: string, query: string, index: nat, current: Option<nat>) returns (r: string, next: nat)
    requires query != []
    ensures r == MarkedText(text, query, index, current) && next == index + Count(text, query)
  {
    r, next := "", index;
    var rest := text;
    ghost var whole, todo := MarkedText(text, query, index, current), MarkedText(text, query, index, current);
    while rest != []
      invariant todo == MarkedText(rest, query, next, current) && r + todo == whole
      invariant next + Count(rest, query) == index + Count(text, query)
      decreases |rest|
    {
      var after, done := next + 1, "";
      NextChar(rest, query, next, after, current);
      if |query| <= |rest| && EqualFold(rest[..|query|], query) {
        var opening := if current.Some? && current.value == next then OPEN_CURRENT else OPEN;
        done := opening + Escape(rest[..|query|]) + CLOSE;
        rest, next := rest[|query|..], after;
      } else {
        done := [rest[0]];
        rest := rest[1..];
      }
      todo := MarkedText(rest, query, next, current);
      Associate(r, done, todo);
      r := r + done;
    }
  }

  lemma {:induction false} FirstPieces(part: string, rest: seq<string>, query: string, index: nat, after: nat,
                                       current: Option<nat>)
    requires query != [] && after == index + PartCount(part, query)
    ensures AllPieces([part] + rest, query, index, current)
         == PartPieces(part, query, index, current) + AllPieces(rest, query, after, current)
  {
    var parts := [part] + rest;
    assert parts[0] == part && parts[1..] == rest;
  }

  lemma {:induction false} FirstCount(parts: seq<string>, query: string)
    requires query != [] && parts != []
    ensures AllCount(parts, query) == PartCount(parts[0], query) + AllCount(parts[1..], query)
  {
  }

  lemma RenderPart(part: string, query: string, index: nat, current: Option<nat>)
    requires query != []
    ensures RenderAll(PartPieces(part, query, index, current))
         == if IsTag(part) then part else MarkedText(part, query, index, current)
  {
    if IsTag(part) {
      RenderPlain(part);
    }
  }

  lemma {:induction false} NextPart(parts: seq<string>, query: string, index: nat, after: nat, current: Option<nat>)
    requires query != [] && parts != [] && after == index + PartCount(parts[0], query)
    ensures AllCount(parts, query) == PartCount(parts[0], query) + AllCount(parts[1..], query)
    ensures MarkedParts(parts, query, index, current)
         == (if IsTag(parts[0]) then parts[0] else MarkedText(parts[0], query, index, current))
            + MarkedParts(parts[1..], query, after, current)
  {
    assert parts == [parts[0]] + parts[1..];
    FirstPieces(parts[0], parts[1..], query, index, after, current);
    FirstCount(parts, query);
    RenderConcat(PartPieces(parts[0], query, index, current), AllPieces(parts[1..], query, after, current));
    RenderPart(parts[0], query, index, current);
  }

  lemma RenderPlain(text: string)
    ensures RenderAll([Plain(text)]) == text
  {
    assert RenderAll([Plain(text)]) == text + RenderAll([]);
  }

  /** One part; returns the number of the next match. */
  method HighlightPart(part: string, query: string, index: nat, current: Option<nat>) returns (r: string, next: nat)
    requires query != []
    ensures r == if IsTag(part) then part else MarkedText(part, query, index, current)
    ensures next == index + PartCount(part, query)
  {
    if part != [] && part[0] == '<' && part[|part| - 1] == '>' {
      return part, index;
    }
    r, next := ReplaceMatches(part, query, index, current);
  }

  /** The loop over the parts. */
  method HighlightParts(all: seq<string>, query: string, current: Option<nat>) returns (result: string, count: nat)
    requires query != []
    ensures result == MarkedParts(all, query, 0, current) && count == AllCount(all, query)
  {
    var parts := all;
    result, count := "", 0;
    ghost var whole, total := MarkedParts(all, query, 0, current), AllCount(all, query);
    ghost var todo, left := whole, total;
    while parts != []
      invariant todo == MarkedParts(parts, query, count, current) && result + todo == whole
      invariant left == AllCount(parts, query) && count + left == total
      decreases |parts|
    {
      var done, after := HighlightPart(parts[0], query, count, current);
      NextPart(parts, query, count, after, current);
      todo, left := MarkedParts(parts[1..], query, after, current), AllCount(parts[1..], query);
      Associate(result, done, todo);
      result, count, parts := result + done, after, parts[1..];
    }
  }

  /** Leaves tags as they are and marks the matches in the text between them. */
  method HighlightHtml(html: string, query: string, current: Option<nat>) returns (result: string, matchCount: nat)
    ensures query == [] ==> result == html && matchCount == 0
    ensures query != [] ==> result == MarkedParts(Parts(html), query, 0, current)
    ensures query != [] ==> matchCount == AllCount(Parts(html), query)
  {
    if query == [] {
      return html, 0;
    }
    result, matchCount := HighlightParts(Parts(html), query, current);
  }

  // ---------------------------------------------------------------------------------------------
  // Counting marks
  // ---------------------------------------------------------------------------------------------

  function Flags(pieces: seq<Piece>): seq<bool> {
    if pieces == [] then [] else (if pieces[0].Mark? then [pieces[0].current] else []) + Flags(pieces[1..])
  }

  function Texts(pieces: seq<Piece>): string {
    if pieces == [] then [] else pieces[0].text + Texts(pieces[1..])
  }

  /** Marks numbered from `index` of which exactly number `current` is current. */
  predicate Numbered(flags: seq<bool>, index: nat, current: Option<nat>) {
    forall k: nat | k < |flags| :: flags[k] <==> current == Some(index + k)
  }

  lemma {:induction false} FlagsConcat(a: seq<Piece>, b: seq<Piece>)
    ensures Flags(a + b) == Flags(a) + Flags(b)
  {
    if a == [] {
      assert a + b == b;
    } else {
      assert (a + b)[0] == a[0] && (a + b)[1..] == a[1..] + b;
      FlagsConcat(a[1..], b);
    }
  }

  lemma {:induction false} TextsConcat(a: seq<Piece>, b: seq<Piece>)
    ensures Texts(a + b) == Texts(a) + Texts(b)
  {
    if a == [] {
      assert a + b == b;
    } else {
      assert (a + b)[0] == a[0] && (a + b)[1..] == a[1..] + b;
      TextsConcat(a[1..], b);
    }
  }

  lemma NumberedConcat(a: seq<bool>, b: seq<bool>, index: nat, current: Option<nat>)
    requires Numbered(a, index, current) && Numbered(b, index + |a|, current)
    ensures Numbered(a + b, index, current)
  {
    forall k: nat | k < |a + b| ensures (a + b)[k] <==> current == Some(index + k) {
      if k >= |a| {
        assert (a + b)[k] == b[k - |a|];
        assert index + |a| + (k - |a|) == index + k;
      }
    }
  }

  lemma {:induction false} FirstPiece(p: Piece, pieces: seq<Piece>)
    ensures Flags([p] + pieces) == (if p.Mark? then [p.current] else []) + Flags(pieces)
    ensures Texts([p] + pieces) == p.text + Texts(pieces)
  {
    assert ([p] + pieces)[1..] == pieces;
  }

  /** The first piece of a text, and the text behind it. */
  lemma NextPiece(text: string, query: string, index: nat, after: nat, current: Option<nat>)
    returns (p: Piece, rest: string)
    requires query != [] && text != [] && after == if MatchAt(text, query) then index + 1 else index
    ensures |rest| < |text| && p.text + rest == text
    ensures TextPieces(text, query, index, current) == [p] + TextPieces(rest, query, after, current)
    ensures Count(text, query) == (if p.Mark? then 1 else 0) + Count(rest, query)
    ensures p.Mark? <==> MatchAt(text, query)
    ensures p.Mark? ==> (p.current <==> current == Some(index))
  {
    if MatchAt(text, query) {
      p, rest := Mark(current == Some(index), text[..|query|]), text[|query|..];
    } else {
      p, rest := Plain([text[0]]), text[1..];
    }
  }

  lemma {:induction false} PiecesOfText(text: string, query: string, index: nat, current: Option<nat>)
    requires query != []
    ensures Texts(TextPieces(text, query, index, current)) == text
    decreases |text|
  {
    if text != [] {
      var after := if MatchAt(text, query) then index + 1 else index;
      var p, rest := NextPiece(text, query, index, after, current);
      PiecesOfText(rest, query, after, current);
      FirstPiece(p, TextPieces(rest, query, after, current));
    }
  }

  lemma {:induction false} TextFlags(text: string, query: string, index: nat, current: Option<nat>)
    requires query != []
    ensures var flags := Flags(TextPieces(text, query, index, current));
            |flags| == Count(text, query) && Numbered(flags, index, current)
    decreases |text|
  {
    if text != [] {
      var after := if MatchAt(text, query) then index + 1 else index;
      var p, rest := NextPiece(text, query, index, after, current);
      TextFlags(rest, query, after, current);
      FirstPiece(p, TextPieces(rest, query, after, current));
      if p.Mark? {
        NumberedConcat([p.current], Flags(TextPieces(rest, query, after, current)), index, current);
      }
    }
  }

  function Join(parts: seq<string>): string {
    if parts == [] then [] else parts[0] + Join(parts[1..])
  }

  lemma PieceTexts(part: string, query: string, index: nat, current: Option<nat>)
    requires query != []
    ensures Texts(PartPieces(part, query, index, current)) == part
  {
    if IsTag(part) {
      FirstPiece(Plain(part), []);
      assert [Plain(part)] + [] == [Plain(part)] && part + [] == part;
    } else {
      PiecesOfText(part, query, index, current);
    }
  }

  lemma PieceFlags(part: string, query: string, index: nat, current: Option<nat>)
    requires query != []
    ensures var flags := Flags(PartPieces(part, query, index, current));
            |flags| == PartCount(part, query) && Numbered(flags, index, current)
  {
    if IsTag(part) {
      FirstPiece(Plain(part), []);
      assert [Plain(part)] + [] == [Plain(part)];
    } else {
      TextFlags(part, query, index, current);
    }
  }

  lemma {:induction false} PartTexts(parts: seq<string>, query: string, index: nat, current: Option<nat>)
    requires query != []
    ensures Texts(AllPieces(parts, query, index, current)) == Join(parts)
  {
    if parts != [] {
      var after := index + PartCount(parts[0], query);
      PartTexts(parts[1..], query, after, current);
      PieceTexts(parts[0], query, index, current);
      TextsConcat(PartPieces(parts[0], query, index, current), AllPieces(parts[1..], query, after, current));
    }
  }

  lemma {:induction false} PartFlags(parts: seq<string>, query: string, index: nat, current: Option<nat>)
    requires query != []
    ensures var flags := Flags(AllPieces(parts, query, index, current));
            |flags| == AllCount(parts, query) && Numbered(flags, index, current)
  {
    if parts != [] {
      var first, after := PartPieces(parts[0], query, index, current), index + PartCount(parts[0], query);
      var rest := AllPieces(parts[1..], query, after, current);
      PartFlags(parts[1..], query, after, current);
      PieceFlags(parts[0], query, index, current);
      FlagsConcat(first, rest);
      NumberedConcat(Flags(first), Flags(rest), index, current);
    }
  }

  lemma {:induction false} PartsJoin(html: string)
    ensures Join(Parts(html)) == html
    decreases |html|
  {
    var i := Find(html, '<', 0);
    var j := Find(html, '>', i);
    if j == |html| {
      assert Join([html]) == html + Join([]);
    } else {
      PartsJoin(html[j + 1..]);
      JoinTwo(html[..i], html[i..j + 1], Parts(html[j + 1..]));
      CutInThree(html, i, j + 1);
    }
  }

  lemma CutInThree(s: string, i: nat, j: nat)
    requires i <= j <= |s|
    ensures s[..i] + s[i..j] + s[j..] == s
  {
  }

  lemma {:induction false} JoinTwo(a: string, b: string, parts: seq<string>)
    ensures Join([a, b] + parts) == a + b + Join(parts)
  {
    assert ([a, b] + parts)[1..] == [b] + parts && ([b] + parts)[1..] == parts;
  }

  /** The marks are numbered through all texts, `matchCount` of them; number `current` is the current one, and no
      other; and marked or not, the pieces hold all of the HTML. */
  lemma {:induction false} MarksAreNumbered(html: string, query: string, current: Option<nat>)
    requires query != []
    ensures var pieces := AllPieces(Parts(html), query, 0, current);
            && Texts(pieces) == html
            && |Flags(pieces)| == AllCount(Parts(html), query)
            && (forall k: nat | k < |Flags(pieces)| :: Flags(pieces)[k] <==> current == Some(k))
  {
    PartTexts(Parts(html), query, 0, current);
    PartFlags(Parts(html), query, 0, current);
    PartsJoin(html);
  }

  lemma Tags()
    ensures OPEN == "<mark class=\"match-highlight\">" && CLOSE == "</mark>"
    ensures OPEN_CURRENT == "<mark class=\"match-highlight-current\">"
  {
  }

  lemma {:induction false} RenderOne(p: Piece)
    ensures RenderAll([p]) == Render(p)
  {
    assert RenderAll([p]) == Render(p) + RenderAll([]);
  }

  /** How the pieces are written: a match is escaped and put into a mark, the current one into its own kind of mark. */
  lemma {:induction false} MarksAreWritten(before: seq<Piece>, text: string, m: string, behind: seq<Piece>,
                                           current: bool)
    ensures RenderAll(before + [Plain(text)] + [Mark(current, m)] + behind)
         == RenderAll(before) + text
            + (if current then "<mark class=\"match-highlight-current\">" else "<mark class=\"match-highlight\">")
            + Escape(m) + "</mark>" + RenderAll(behind)
  {
    Tags();
    RenderConcat(before + [Plain(text)] + [Mark(current, m)], behind);
    RenderConcat(before + [Plain(text)], [Mark(current, m)]);
    RenderConcat(before, [Plain(text)]);
    RenderOne(Plain(text));
    RenderOne(Mark(current, m));
    JoinMark(RenderAll(before) + text, if current then OPEN_CURRENT else OPEN, Escape(m), CLOSE, RenderAll(behind));
  }

  lemma JoinMark(a: string, b: string, c: string, d: string, e: string)
    ensures a + (b + c + d) + e == a + b + c + d + e
  {
  }

  // ---------------------------------------------------------------------------------------------
  // Taking the marks away
  // ---------------------------------------------------------------------------------------------

  /** The length of the opening or closing mark that a string starts with, or 0. */
  function MarkLength(s: string): (n: nat)
    ensures n <= |s|
  {
    if OPEN <= s then |OPEN| else if OPEN_CURRENT <= s then |OPEN_CURRENT| else if CLOSE <= s then |CLOSE| else 0
  }

  /** A string without opening and closing marks. */
  function Erase(s: string): string {
    if s == [] then []
    else if MarkLength(s) == 0 then [s[0]] + Erase(s[1..])
    else Erase(s[MarkLength(s)..])
  }

  /** `<`, then anything but angles, then `>`. */
  predicate OneTag(m: string) {
    |m| >= 2 && m[0] == '<' && m[|m| - 1] == '>' && forall i | 0 < i < |m| - 1 :: m[i] != '<' && m[i] != '>'
  }

  lemma MarksAreTags()
    ensures OneTag(OPEN) && OneTag(OPEN_CURRENT) && OneTag(CLOSE)
    ensures |OPEN| == 30 && |OPEN_CURRENT| == 38 && OPEN[28] != OPEN_CURRENT[28] && OPEN[1] != CLOSE[1]
    ensures OPEN_CURRENT[1] != CLOSE[1] && |CLOSE| == 7
  {
  }

  lemma {:induction false} MarkIsErased(m: string, rest: string)
    requires m == OPEN || m == OPEN_CURRENT || m == CLOSE
    ensures Erase(m + rest) == Erase(rest)
  {
    MarksAreTags();
    assert (m + rest)[..|m|] == m && (m + rest)[|m|..] == rest;
    assert (m + rest)[1] == m[1];
    if m == OPEN_CURRENT {
      assert (m + rest)[28] == m[28];
    }
  }

  lemma {:induction false} CharStays(c: char, rest: string)
    requires MarkLength([c] + rest) == 0
    ensures Erase([c] + rest) == [c] + Erase(rest)
  {
    assert ([c] + rest)[1..] == rest;
  }

  lemma MarksStartWithAngle(s: string)
    requires s != [] && s[0] != '<'
    ensures MarkLength(s) == 0
  {
    MarksAreTags();
  }

  lemma {:induction false} TextStays(text: string, rest: string)
    requires '<' !in text
    ensures Erase(text + rest) == text + Erase(rest)
  {
    if text == [] {
      assert text + rest == rest;
    } else {
      var tail := text[1..];
      TextStays(tail, rest);
      PlainCharStays(text[0], tail + rest);
      FirstAndRest(text, tail, rest, Erase(rest));
      Associate([text[0]], tail, rest);
    }
  }

  lemma {:induction false} PlainCharStays(c: char, rest: string)
    requires c != '<'
    ensures Erase([c] + rest) == [c] + Erase(rest)
  {
    MarksStartWithAngle([c] + rest);
    CharStays(c, rest);
  }

  /** Before the first `>` there is another `<`. */
  predicate AngleFirst(s: string) {
    forall j | 0 <= j < |s| && s[j] == '>' :: '<' in s[..j]
  }

  lemma LoneAngleIsNoMark(s: string)
    requires AngleFirst(s)
    ensures MarkLength(['<'] + s) == 0
  {
    MarksAreTags();
    NoMarkHere(OPEN, s);
    NoMarkHere(OPEN_CURRENT, s);
    NoMarkHere(CLOSE, s);
  }

  lemma NoMarkHere(m: string, s: string)
    requires OneTag(m) && AngleFirst(s)
    ensures !(m <= ['<'] + s)
  {
    var t, j := ['<'] + s, |m| - 2;
    if j < |s| && s[j] == '>' {
      var i :| 0 <= i < j && s[..j][i] == '<';
      assert t[i + 1] == '<' && m[i + 1] != '<';
    } else if j < |s| {
      assert t[j + 1] != m[j + 1];
    }
  }

  /** A text part: no `<`, or one that no `>` follows at the end of everything. */
  predicate IsText(text: string, rest: string) {
    forall i | 0 <= i < |text| && text[i] == '<' :: rest == "" && '>' !in text[i..]
  }

  /** The text with the matches escaped, as it is left without the marks. */
  function EscapedText(text: string, query: string): string
    requires query != []
  {
    if text == [] then []
    else if MatchAt(text, query) then Escape(text[..|query|]) + EscapedText(text[|query|..], query)
    else [text[0]] + EscapedText(text[1..], query)
  }

  lemma {:induction false} EscapeHasNoAngles(s: string)
    ensures '<' !in Escape(s) && '>' !in Escape(s)
  {
    if s != [] {
      EscapeHasNoAngles(s[1..]);
    }
  }

  lemma {:induction false} MarkedAnglesComeFirst(text: string, query: string, index: nat, current: Option<nat>)
    requires query != [] && '>' !in text
    ensures AngleFirst(MarkedText(text, query, index, current))
  {
    if text != [] {
      NextChar(text, query, index, index + 1, current);
      var s := MarkedText(text, query, index, current);
      if MatchAt(text, query) {
        MarksAreTags();
        assert s[0] == '<';
        assert forall j | 0 < j < |s| :: s[..j][0] == '<';
      } else {
        MarkedAnglesComeFirst(text[1..], query, index, current);
        MoreAnglesComeFirst(text[0], MarkedText(text[1..], query, index, current));
      }
    }
  }

  lemma MoreAnglesComeFirst(c: char, s: string)
    requires c != '>' && AngleFirst(s)
    ensures AngleFirst([c] + s)
  {
    forall j | 0 <= j < |[c] + s| && ([c] + s)[j] == '>' ensures '<' in ([c] + s)[..j] {
      assert s[j - 1] == '>';
      assert ([c] + s)[..j] == [c] + s[..j - 1];
    }
  }

  lemma {:induction false} MarkedMatchErased(opening: string, escaped: string, marked: string, rest: string)
    requires (opening == OPEN || opening == OPEN_CURRENT) && '<' !in escaped
    ensures Erase(opening + escaped + CLOSE + marked + rest) == escaped + Erase(marked + rest)
  {
    assert opening + escaped + CLOSE + marked + rest == opening + (escaped + (CLOSE + (marked + rest)));
    MarkIsErased(opening, escaped + (CLOSE + (marked + rest)));
    TextStays(escaped, CLOSE + (marked + rest));
    MarkIsErased(CLOSE, marked + rest);
  }

  lemma {:induction false} MarkedCharStays(c: char, marked: string, rest: string)
    requires c == '<' ==> rest == "" && AngleFirst(marked)
    ensures Erase([c] + marked + rest) == [c] + Erase(marked + rest)
  {
    assert [c] + marked + rest == [c] + (marked + rest);
    if c == '<' {
      assert marked + rest == marked;
      LoneAngleIsNoMark(marked);
    } else {
      MarksStartWithAngle([c] + (marked + rest));
    }
    CharStays(c, marked + rest);
  }

  lemma TailIsText(text: string, rest: string, n: nat)
    requires IsText(text, rest) && n <= |text|
    ensures IsText(text[n..], rest)
  {
    forall i | 0 <= i < |text[n..]| && text[n..][i] == '<' ensures rest == "" && '>' !in text[n..][i..] {
      assert text[n + i] == '<' && text[n..][i..] == text[n + i..];
    }
  }

  lemma {:induction false} MarkedTextErased(text: string, query: string, index: nat, current: Option<nat>, rest: string)
    requires query != [] && IsText(text, rest)
    ensures Erase(MarkedText(text, query, index, current) + rest) == EscapedText(text, query) + Erase(rest)
  {
    if text == [] {
      assert MarkedText(text, query, index, current) + rest == rest;
    } else {
      NextChar(text, query, index, index + 1, current);
      if MatchAt(text, query) {
        var m, tail := Escape(text[..|query|]), text[|query|..];
        EscapeHasNoAngles(text[..|query|]);
        TailIsText(text, rest, |query|);
        MarkedTextErased(tail, query, index + 1, current, rest);
        MarkedMatchErased(Opening(current == Some(index)), m, MarkedText(tail, query, index + 1, current), rest);
        Associate(m, EscapedText(tail, query), Erase(rest));
      } else {
        var tail := text[1..];
        TailIsText(text, rest, 1);
        MarkedTextErased(tail, query, index, current, rest);
        if text[0] == '<' {
          assert text[0..] == text;
          MarkedAnglesComeFirst(tail, query, index, current);
        }
        MarkedCharStays(text[0], MarkedText(tail, query, index, current), rest);
        Associate([text[0]], EscapedText(tail, query), Erase(rest));
      }
    }
  }

  /** Text without marks is as it was. */
  lemma {:induction false} TextErased(text: string, rest: string)
    requires IsText(text, rest)
    ensures Erase(text + rest) == text + Erase(rest)
  {
    if text == [] {
      assert text + rest == rest;
    } else {
      var tail := text[1..];
      TailIsText(text, rest, 1);
      TextErased(tail, rest);
      assert text[0..] == text;
      MarkedCharStays(text[0], tail, rest);
      FirstAndRest(text, tail, rest, Erase(rest));
    }
  }

  lemma FirstAndRest(text: string, tail: string, rest: string, erased: string)
    requires text != [] && tail == text[1..]
    ensures text + rest == [text[0]] + tail + rest && text + erased == [text[0]] + (tail + erased)
  {
  }

  // ---------------------------------------------------------------------------------------------
  // Tags stay
  // ---------------------------------------------------------------------------------------------

  /** The end of a tag: nothing, or something with its only `>` at its end. */
  predicate TagEnd(s: string) {
    s == [] || (s[|s| - 1] == '>' && '>' !in s[..|s| - 1])
  }

  lemma MarksFitInTags(m: string, s: string, rest: string)
    requires OneTag(m) && TagEnd(s) && s != []
    ensures m <= s + rest <==> m <= s
  {
    assert (s + rest)[|s| - 1] == '>';
    if m <= s + rest {
      assert forall i | 0 <= i < |m| :: (s + rest)[i] == m[i];
    }
  }

  lemma SameMark(s: string, rest: string)
    requires TagEnd(s) && s != []
    ensures MarkLength(s + rest) == MarkLength(s)
  {
    MarksAreTags();
    MarksFitInTags(OPEN, s, rest);
    MarksFitInTags(OPEN_CURRENT, s, rest);
    MarksFitInTags(CLOSE, s, rest);
  }

  lemma TagTail(s: string, rest: string, k: nat)
    requires TagEnd(s) && k <= |s|
    ensures TagEnd(s[k..]) && (s + rest)[k..] == s[k..] + rest
  {
  }

  /** What erasing does at the start of a tag: it drops a mark, or keeps a character. */
  lemma TagNext(s: string, rest: string) returns (k: nat, kept: string)
    requires TagEnd(s) && s != []
    ensures 1 <= k <= |s| && TagEnd(s[k..])
    ensures Erase(s) == kept + Erase(s[k..]) && Erase(s + rest) == kept + Erase(s[k..] + rest)
  {
    SameMark(s, rest);
    if MarkLength(s) == 0 {
      k, kept := 1, [s[0]];
      assert (s + rest)[0] == s[0];
    } else {
      k, kept := MarkLength(s), [];
    }
    TagTail(s, rest, k);
  }

  lemma {:induction false} TagErased(s: string, rest: string)
    requires TagEnd(s)
    ensures Erase(s + rest) == Erase(s) + Erase(rest)
    decreases |s|
  {
    if s == [] {
      assert s + rest == rest;
    } else {
      var k, kept := TagNext(s, rest);
      TagErased(s[k..], rest);
      Associate(kept, Erase(s[k..]), Erase(rest));
    }
  }

  // ---------------------------------------------------------------------------------------------
  // All parts
  // ---------------------------------------------------------------------------------------------

  /** What is left of the parts: tags without marks, text with its matches escaped. */
  function EscapedParts(parts: seq<string>, query: string): string
    requires query != []
  {
    if parts == [] then []
    else (if IsTag(parts[0]) then Erase(parts[0]) else EscapedText(parts[0], query)) + EscapedParts(parts[1..], query)
  }

  function ErasedParts(parts: seq<string>): string {
    if parts == [] then []
    else (if IsTag(parts[0]) then Erase(parts[0]) else parts[0]) + ErasedParts(parts[1..])
  }

  /** A tag that ends with its only `>`, or a text; only the last text may have a `<`. */
  predicate PartFits(part: string, last: bool) {
    if IsTag(part) then TagEnd(part) else '<' !in part || (last && IsText(part, ""))
  }

  /** Parts in a row. */
  predicate InTurn(parts: seq<string>) {
    forall k: nat | k < |parts| :: PartFits(parts[k], k == |parts| - 1)
  }

  lemma RestInTurn(parts: seq<string>)
    requires InTurn(parts) && parts != []
    ensures InTurn(parts[1..])
    ensures !IsTag(parts[0]) ==> '<' !in parts[0] || (parts[1..] == [] && IsText(parts[0], ""))
    ensures IsTag(parts[0]) ==> TagEnd(parts[0])
  {
    assert PartFits(parts[0], |parts| == 1);
    forall k: nat | k < |parts[1..]| ensures PartFits(parts[1..][k], k == |parts[1..]| - 1) {
      assert PartFits(parts[k + 1], k + 1 == |parts| - 1);
    }
  }

  lemma TagIsCut(html: string, i: nat, j: nat)
    requires i < j < |html| && html[i] == '<' && html[j] == '>' && '>' !in html[i..j]
    ensures IsTag(html[i..j + 1]) && TagEnd(html[i..j + 1])
  {
    assert html[i..j + 1] == html[i..j] + ['>'];
  }

  lemma {:induction false} PartsInTurn(html: string)
    ensures InTurn(Parts(html))
    decreases |html|
  {
    var i := Find(html, '<', 0);
    var j := Find(html, '>', i);
    if j == |html| {
      WithoutTag(html, i);
    } else {
      TagIsCut(html, i, j);
      PartsInTurn(html[j + 1..]);
      InTurnAfter(html[..i], html[i..j + 1], Parts(html[j + 1..]));
    }
  }

  lemma InTurnAfter(text: string, tag: string, rest: seq<string>)
    requires '<' !in text && IsTag(tag) && TagEnd(tag) && InTurn(rest)
    ensures InTurn([text, tag] + rest)
  {
    var parts := [text, tag] + rest;
    assert !IsTag(text);
    forall k: nat | k < |parts| ensures PartFits(parts[k], k == |parts| - 1) {
      if k >= 2 {
        assert PartFits(rest[k - 2], k - 2 == |rest| - 1);
      }
    }
  }

  lemma WithoutTag(html: string, i: nat)
    requires i <= |html| && '<' !in html[..i] && '>' !in html[i..]
    ensures !IsTag(html) && IsText(html, "") && InTurn([html])
  {
    assert forall k | 0 <= k < i :: html[..i][k] == html[k];
    forall k | 0 <= k < |html| && html[k] == '<' ensures '>' !in html[k..] {
      assert html[k..] == html[i..][k - i..];
    }
    if html != [] && html[0] == '<' {
      assert html[0..] == html;
    }
  }

  lemma {:induction false} MarkedPartsErased(parts: seq<string>, query: string, index: nat, current: Option<nat>)
    requires query != [] && InTurn(parts)
    ensures Erase(MarkedParts(parts, query, index, current)) == EscapedParts(parts, query)
  {
    if parts != [] {
      var part, after := parts[0], index + PartCount(parts[0], query);
      var rest := MarkedParts(parts[1..], query, after, current);
      RestInTurn(parts);
      NextPart(parts, query, index, after, current);
      MarkedPartsErased(parts[1..], query, after, current);
      if IsTag(part) {
        TagErased(part, rest);
      } else {
        assert parts[1..] == [] ==> rest == "";
        MarkedTextErased(part, query, index, current, rest);
      }
    }
  }

  lemma {:induction false} JoinedPartsErased(parts: seq<string>)
    requires InTurn(parts)
    ensures Erase(Join(parts)) == ErasedParts(parts)
  {
    if parts != [] {
      RestInTurn(parts);
      JoinedPartsErased(parts[1..]);
      if IsTag(parts[0]) {
        TagErased(parts[0], Join(parts[1..]));
      } else {
        TextErased(parts[0], Join(parts[1..]));
      }
    }
  }

  // ---------------------------------------------------------------------------------------------
  // Highlighting can be undone
  // ---------------------------------------------------------------------------------------------

  predicate Special(c: char) {
    c == '&' || c == '<' || c == '>'
  }

  predicate HasSpecial(s: string) {
    exists i | 0 <= i < |s| :: Special(s[i])
  }

  lemma {:induction false} EscapeGrowsExactly(s: string)
    ensures |Escape(s)| >= |s| && (|Escape(s)| == |s| <==> !HasSpecial(s)) && (!HasSpecial(s) ==> Escape(s) == s)
  {
    if s != [] {
      EscapeGrowsExactly(s[1..]);
      assert s == [s[0]] + s[1..];
      assert HasSpecial(s) <==> Special(s[0]) || HasSpecial(s[1..]) by {
        if HasSpecial(s[1..]) {
          var i :| 0 <= i < |s[1..]| && Special(s[1..][i]);
          assert Special(s[i + 1]);
        }
        if i :| 0 < i < |s| && Special(s[i]) {
          assert Special(s[1..][i - 1]);
        }
      }
    }
  }

  /** A match has special characters exactly if the query has. */
  lemma MatchIsAsSpecial(a: string, query: string)
    requires EqualFold(a, query)
    ensures HasSpecial(a) <==> HasSpecial(query)
  {
    assert |a| == |query|;
    forall i | 0 <= i < |a| ensures Special(a[i]) <==> Special(query[i]) {
      assert Lower(a)[i] == Lower(query)[i];
    }
  }

  /** The second string is at least as long as the first, and of the same length only if it is the same. */
  predicate Grows(a: string, b: string) {
    |a| <= |b| && (|a| == |b| ==> a == b)
  }

  lemma GrowsTogether(a: string, b: string, c: string, d: string)
    requires Grows(a, b) && Grows(c, d)
    ensures Grows(a + c, b + d) && (|a + c| == |b + d| <==> |a| == |b| && |c| == |d|)
  {
  }

  lemma {:induction false} EscapedMatchGrows(m: string, query: string)
    requires EqualFold(m, query)
    ensures Grows(m, Escape(m)) && (|m| == |Escape(m)| <==> !HasSpecial(query))
  {
    EscapeGrowsExactly(m);
    MatchIsAsSpecial(m, query);
  }

  lemma {:induction false} EscapedStep(text: string, query: string, k: nat)
    requires query != [] && text != [] && k == if MatchAt(text, query) then |query| else 1
    ensures EscapedText(text, query)
         == (if MatchAt(text, query) then Escape(text[..k]) else text[..k]) + EscapedText(text[k..], query)
    ensures Count(text, query) == (if MatchAt(text, query) then 1 else 0) + Count(text[k..], query)
  {
    if !MatchAt(text, query) {
      assert text[..1] == [text[0]];
    }
  }

  lemma {:induction false} EscapedTextGrowsExactly(text: string, query: string)
    requires query != []
    ensures Grows(text, EscapedText(text, query))
    ensures |text| == |EscapedText(text, query)| <==> !HasSpecial(query) || Count(text, query) == 0
  {
    if text != [] {
      var k := if MatchAt(text, query) then |query| else 1;
      var m, rest := text[..k], text[k..];
      EscapedTextGrowsExactly(rest, query);
      EscapedStep(text, query, k);
      assert text == m + rest;
      if MatchAt(text, query) {
        EscapedMatchGrows(m, query);
        GrowsTogether(m, Escape(m), rest, EscapedText(rest, query));
      } else {
        GrowsTogether(m, m, rest, EscapedText(rest, query));
      }
    }
  }

  lemma {:induction false} EscapedPartsGrowExactly(parts: seq<string>, query: string)
    requires query != []
    ensures Grows(ErasedParts(parts), EscapedParts(parts, query))
    ensures |ErasedParts(parts)| == |EscapedParts(parts, query)| <==> !HasSpecial(query) || AllCount(parts, query) == 0
  {
    if parts != [] {
      EscapedPartsGrowExactly(parts[1..], query);
      var rest, escaped := ErasedParts(parts[1..]), EscapedParts(parts[1..], query);
      if IsTag(parts[0]) {
        GrowsTogether(Erase(parts[0]), Erase(parts[0]), rest, escaped);
      } else {
        EscapedTextGrowsExactly(parts[0], query);
        GrowsTogether(parts[0], EscapedText(parts[0], query), rest, escaped);
      }
    }
  }

  /** Taking the marks away again gives the HTML as it was (without marks of its own), exactly if the query has
      none of `&`, `<`, `>` or does not occur: matches are escaped once more. */
  lemma {:induction false} HighlightingCanBeUndoneExactly(html: string, query: string, current: Option<nat>)
    requires query != []
    ensures Erase(MarkedParts(Parts(html), query, 0, current)) == Erase(html)
       <==> !HasSpecial(query) || AllCount(Parts(html), query) == 0
  {
    var parts := Parts(html);
    PartsInTurn(html);
    PartsJoin(html);
    MarkedPartsErased(parts, query, 0, current);
    JoinedPartsErased(parts);
    EscapedPartsGrowExactly(parts, query);
  }

  lemma OneCharMatch(text: string, c: char)
    requires text != []
    ensures MatchAt(text, [c]) <==> LowerChar(text[0]) == LowerChar(c)
  {
    assert text[..1] == [text[0]] && Lower([text[0]])[0] == LowerChar(text[0]) && Lower([c])[0] == LowerChar(c);
  }

  lemma EscapedAmpersand()
    ensures EscapedText("a&b", "&") == "a&amp;b"
  {
    var query := ['&'];
    OneCharMatch("a&b", '&');
    OneCharMatch("&b", '&');
    OneCharMatch("b", '&');
    assert "a&b"[1..] == "&b" && "&b"[1..] == "b" && "b"[1..] == "" && "&b"[..1] == "&";
    assert EscapedText("b", query) == "b" && EscapedText("&b", query) == "&amp;b";
  }

  lemma {:induction false} PlainTextErased(text: string, query: string)
    requires query != [] && text != [] && '<' !in text
    ensures Erase(MarkedParts(Parts(text), query, 0, None)) == EscapedText(text, query)
    ensures Erase(text) == text
  {
    PartsInTurn(text);
    MarkedPartsErased(Parts(text), query, 0, None);
    assert Parts(text) == [text] && [text][1..] == [];
    assert EscapedParts([], query) == "" && EscapedText(text, query) + "" == EscapedText(text, query);
    TextStays(text, "");
    assert text + "" == text && Erase("") == "";
  }

  /** A match of `&` is escaped once more, and so stays as an entity. */
  lemma EscapedMatchStays()
    ensures Erase(MarkedParts(Parts("a&b"), "&", 0, None)) == "a&amp;b" && Erase("a&b") == "a&b"
  {
    PlainTextErased("a&b", "&");
    EscapedAmpersand();
  }

  // ---------------------------------------------------------------------------------------------
  // What is marked
  // ---------------------------------------------------------------------------------------------

  /** The query stands at this place of the text, in upper or lower case. */
  predicate QueryAt(text: string, query: string, at: nat) {
    OccursAt(Lower(text), Lower(query), at)
  }

  lemma FoldedPrefix(text: string, query: string)
    ensures MatchAt(text, query) <==> QueryAt(text, query, 0)
  {
    if |query| <= |text| {
      assert Lower(text[..|query|]) == Lower(text)[0..0 + |query|];
    }
  }

  /** Where the query stands it is marked as a whole; any other character is left as it is. */
  predicate FitsAt(p: Piece, text: string, query: string, at: nat) {
    if QueryAt(text, query, at) then p.Mark? && p.text == text[at..at + |query|]
    else at < |text| && p == Plain([text[at]])
  }

  lemma FurtherOn(a: string, rest: string, query: string, at: nat, p: Piece)
    requires FitsAt(p, rest, query, at)
    ensures FitsAt(p, a + rest, query, |a| + at)
  {
    if at + |query| <= |rest| {
      assert Lower(a + rest)[|a| + at..|a| + at + |query|] == Lower(rest)[at..at + |query|];
      assert (a + rest)[|a| + at..|a| + at + |query|] == rest[at..at + |query|];
    }
  }

  lemma {:induction false} FirstPieceFits(text: string, query: string, index: nat, current: Option<nat>)
    requires query != [] && text != []
    ensures FitsAt(TextPieces(text, query, index, current)[0], text, query, 0)
  {
    FoldedPrefix(text, query);
  }

  lemma {:induction false} LaterPieceFits(p: Piece, others: seq<Piece>, rest: string, query: string, l: nat, k: nat)
    requires l < |others| && k == l + 1 && FitsAt(others[l], rest, query, |Texts(others[..l])|)
    ensures var pieces := [p] + others;
            FitsAt(pieces[k], p.text + rest, query, |Texts(pieces[..k])|)
  {
    assert ([p] + others)[..k] == [p] + others[..l];
    FirstPiece(p, others[..l]);
    FurtherOn(p.text, rest, query, |Texts(others[..l])|, others[l]);
  }

  /** The pieces of a text from left to right, each where the ones before it end. */
  lemma {:induction false} MarksAreTheMatches(text: string, query: string, index: nat, current: Option<nat>, k: nat)
    requires query != [] && k < |TextPieces(text, query, index, current)|
    ensures var pieces := TextPieces(text, query, index, current);
            FitsAt(pieces[k], text, query, |Texts(pieces[..k])|)
    decreases |text|
  {
    if k == 0 {
      FirstPieceFits(text, query, index, current);
    } else {
      var after, l: nat := if MatchAt(text, query) then index + 1 else index, k - 1;
      var p, rest := NextPiece(text, query, index, after, current);
      var others := TextPieces(rest, query, after, current);
      MarksAreTheMatches(rest, query, after, current, l);
      LaterPieceFits(p, others, rest, query, l, k);
    }
  }

  /** In the whole document: tags stay, and whatever is marked is the query in upper or lower case. */
  lemma {:induction false} OnlyTheQueryIsMarked(parts: seq<string>, query: string, index: nat, current: Option<nat>)
    requires query != []
    ensures forall p <- AllPieces(parts, query, index, current) :: p.Mark? ==> EqualFold(p.text, query)
  {
    if parts != [] {
      var first, rest := PartPieces(parts[0], query, index, current), index + PartCount(parts[0], query);
      OnlyTheQueryIsMarked(parts[1..], query, rest, current);
      if !IsTag(parts[0]) {
        forall k: nat | k < |first| && first[k].Mark? ensures EqualFold(first[k].text, query) {
          MarksAreTheMatches(parts[0], query, index, current, k);
          FoldedSlice(parts[0], query, |Texts(first[..k])|);
        }
      }
    }
  }

  lemma FoldedSlice(text: string, query: string, at: nat)
    requires QueryAt(text, query, at)
    ensures EqualFold(text[at..at + |query|], query)
  {
    assert Lower(text)[at..at + |query|] == Lower(text[at..at + |query|]);
  }
}
