/** The decoder of Docker's multiplexed log stream: frames of an eight-byte header and a payload of lines. */
module MuxStream {
  import opened Options
  import opened Sequences

  type Byte = b: int | 0 <= b < 256

  const NEWLINE: Byte := 10
  const SPACE: Byte := 32
  const DASH: Byte := 45
  const LETTER_T: Byte := 84
  const STDERR: Byte := 2

  type Line = seq<Byte>

  /** A line as it is sent; `stderr` is its label. */
  datatype Sent = Sent(stderr: bool, line: Line)

  // ---------------------------------------------------------------------------------------------
  // The lines of a payload
  // ---------------------------------------------------------------------------------------------

  function TrimRight(s: Line): Line {
    if s != [] && s[|s| - 1] == NEWLINE then TrimRight(s[..|s| - 1]) else s
  }

  /** The pieces between newlines. */
  function Split(s: Line): (lines: seq<Line>)
    ensures lines != []
  {
    if s == [] then [[]]
    else
      var lines, last := Split(s[..|s| - 1]), s[|s| - 1];
      if last == NEWLINE then lines + [[]]
      else Grown(lines, [last])
  }

  function NonEmpty(lines: seq<Line>): seq<Line> {
    if lines == [] then []
    else NonEmpty(lines[..|lines| - 1]) + if lines[|lines| - 1] == [] then [] else [lines[|lines| - 1]]
  }

  function PayloadLines(payload: Line): seq<Line> {
    NonEmpty(Split(TrimRight(payload)))
  }

  function Labelled(lines: seq<Line>, stderr: bool): seq<Sent> {
    seq(|lines|, i requires 0 <= i < |lines| => Sent(stderr, lines[i]))
  }

  predicate IsLine(line: Line) {
    NEWLINE !in line
  }

  /** Lines as a program writes them, each with its newline. */
  function Written(lines: seq<Line>): Line {
    if lines == [] then [] else Written(lines[..|lines| - 1]) + lines[|lines| - 1] + [NEWLINE]
  }

  lemma {:induction false} NonEmptySnoc(lines: seq<Line>, line: Line)
    ensures NonEmpty(lines + [line]) == NonEmpty(lines) + if line == [] then [] else [line]
  {
    assert (lines + [line])[..|lines|] == lines;
  }

  /** Trailing newlines only split off empty pieces. */
  lemma {:induction false} TrimmingDropsNoLine(s: Line)
    ensures NonEmpty(Split(TrimRight(s))) == NonEmpty(Split(s))
  {
    if s != [] && s[|s| - 1] == NEWLINE {
      TrimmingDropsNoLine(s[..|s| - 1]);
      NonEmptySnoc(Split(s[..|s| - 1]), []);
    }
  }

  /** The last piece with more bytes. */
  function Grown(lines: seq<Line>, more: Line): seq<Line>
    requires lines != []
  {
    lines[..|lines| - 1] + [lines[|lines| - 1] + more]
  }

  lemma {:induction false} SplitSnoc(s: Line, b: Byte)
    ensures Split(s + [b]) == if b == NEWLINE then Split(s) + [[]] else Grown(Split(s), [b])
  {
    assert (s + [b])[..|s|] == s;
  }

  lemma GrownTwice(lines: seq<Line>, a: Line, b: Line)
    requires lines != []
    ensures Grown(Grown(lines, a), b) == Grown(lines, a + b) && Grown(lines, []) == lines
  {
    var n := |lines| - 1;
    assert lines[n] + a + b == lines[n] + (a + b) && lines[n] + [] == lines[n];
    assert Grown(lines, a)[..n] == lines[..n];
  }

  lemma GrownFromNothing(lines: seq<Line>, line: Line)
    ensures Grown(lines + [[]], line) == lines + [line]
  {
    assert [] + line == line;
  }

  lemma {:induction false} SplitLine(s: Line, line: Line)
    requires IsLine(line)
    ensures Split(s + line) == Grown(Split(s), line)
    decreases |line|
  {
    if line == [] {
      assert s + line == s;
      GrownTwice(Split(s), [], []);
    } else {
      var init, b := line[..|line| - 1], line[|line| - 1];
      assert b in line && line == init + [b] && s + line == s + init + [b];
      SplitLine(s, init);
      SplitSnoc(s + init, b);
      GrownTwice(Split(s), init, [b]);
    }
  }

  /** What is written line by line is read line by line, without the empty lines. */
  lemma {:induction false} WrittenLinesAreRead(lines: seq<Line>, last: Line)
    requires (forall l <- lines :: IsLine(l)) && IsLine(last)
    ensures PayloadLines(Written(lines) + last) == NonEmpty(lines + [last])
  {
    TrimmingDropsNoLine(Written(lines) + last);
    SplitOfWritten(lines);
    SplitLine(Written(lines), last);
    GrownFromNothing(lines, last);
  }

  lemma {:induction false} SplitOfWritten(lines: seq<Line>)
    requires forall l <- lines :: IsLine(l)
    ensures Split(Written(lines)) == lines + [[]]
  {
    if lines != [] {
      var init, last := lines[..|lines| - 1], lines[|lines| - 1];
      SplitOfWritten(init);
      assert last in lines && lines == init + [last];
      SplitLine(Written(init), last);
      GrownFromNothing(init, last);
      SplitSnoc(Written(init) + last, NEWLINE);
    }
  }

  function WithoutNewlines(s: Line): Line {
    if s == [] then [] else WithoutNewlines(s[..|s| - 1]) + if s[|s| - 1] == NEWLINE then [] else [s[|s| - 1]]
  }

  function Flat(lines: seq<Line>): Line {
    if lines == [] then [] else Flat(lines[..|lines| - 1]) + lines[|lines| - 1]
  }

  /** Whatever the payload: the lines are not empty, hold no newline, and are all of it but its newlines. */
  lemma {:induction false} PayloadLinesAreLines(payload: Line)
    ensures Flat(PayloadLines(payload)) == WithoutNewlines(payload)
    ensures forall l <- PayloadLines(payload) :: l != [] && IsLine(l)
  {
    TrimmingDropsNoLine(payload);
    SplitKeepsTheRest(payload);
    SplitPieces(payload);
    NonEmptyPieces(Split(payload));
    NonEmptyKeepsTheRest(Split(payload));
  }

  lemma {:induction false} FlatSnoc(lines: seq<Line>, line: Line)
    ensures Flat(lines + [line]) == Flat(lines) + line
  {
    assert (lines + [line])[..|lines|] == lines;
  }

  lemma {:induction false} SplitKeepsTheRest(s: Line)
    ensures Flat(Split(s)) == WithoutNewlines(s)
  {
    if s == [] {
      FlatSnoc([], []);
      assert [] + [s] == [s];
    } else {
      var lines, last := Split(s[..|s| - 1]), s[|s| - 1];
      SplitKeepsTheRest(s[..|s| - 1]);
      if last == NEWLINE {
        FlatSnoc(lines, []);
      } else {
        LastPieceGrows(lines, last);
      }
    }
  }

  lemma {:induction false} LastPieceGrows(lines: seq<Line>, b: Byte)
    requires lines != []
    ensures Flat(Grown(lines, [b])) == Flat(lines) + [b]
  {
    var init, last := lines[..|lines| - 1], lines[|lines| - 1];
    assert lines == init + [last];
    FlatSnoc(init, last + [b]);
    assert Flat(init) + (last + [b]) == Flat(init) + last + [b];
  }

  lemma {:induction false} SplitPieces(s: Line)
    ensures forall i | 0 <= i < |Split(s)| :: IsLine(Split(s)[i])
  {
    if s != [] {
      SplitPieces(s[..|s| - 1]);
    }
  }

  lemma {:induction false} NonEmptyPieces(lines: seq<Line>)
    requires forall i | 0 <= i < |lines| :: IsLine(lines[i])
    ensures forall l <- NonEmpty(lines) :: l != [] && IsLine(l)
  {
    if lines != [] {
      NonEmptyPieces(lines[..|lines| - 1]);
    }
  }

  lemma {:induction false} NonEmptyKeepsTheRest(lines: seq<Line>)
    ensures Flat(NonEmpty(lines)) == Flat(lines)
  {
    if lines != [] {
      var init, last := lines[..|lines| - 1], lines[|lines| - 1];
      NonEmptyKeepsTheRest(init);
      FlatSnoc(NonEmpty(init), last);
      if last == [] {
        assert NonEmpty(init) + [] == NonEmpty(init) && Flat(init) + last == Flat(init);
      }
    }
  }

  // ---------------------------------------------------------------------------------------------
  // Frames
  // ---------------------------------------------------------------------------------------------

  type Padding = s: seq<Byte> | |s| == 3 witness [0, 0, 0]

  /** The kind of stream, three bytes without meaning, and the payload. */
  datatype Frame = Frame(kind: Byte, padding: Padding, payload: Line)

  const LIMIT := 0x1_0000_0000

  predicate Fits(f: Frame) {
    |f.payload| < LIMIT
  }

  function BigEndian(n: nat): (s: seq<Byte>)
    requires n < LIMIT
    ensures |s| == 4
  {
    [n / 0x100_0000, n / 0x1_0000 % 0x100, n / 0x100 % 0x100, n % 0x100]
  }

  function Size(b: Byte, c: Byte, d: Byte, e: Byte): nat {
    b * 0x100_0000 + c * 0x1_0000 + d * 0x100 + e
  }

  /** The length that a header tells. */
  function PayloadSize(header: seq<Byte>): nat
    requires |header| >= 8
  {
    Size(header[4], header[5], header[6], header[7])
  }

  function Encode(f: Frame): seq<Byte>
    requires Fits(f)
  {
    [f.kind] + f.padding + BigEndian(|f.payload|) + f.payload
  }

  function EncodeAll(frames: seq<Frame>): seq<Byte>
    requires forall f <- frames :: Fits(f)
  {
    if frames == [] then [] else Encode(frames[0]) + EncodeAll(frames[1..])
  }

  function FrameLines(f: Frame): seq<Sent> {
    Labelled(PayloadLines(f.payload), f.kind == STDERR)
  }

  function AllLines(frames: seq<Frame>): seq<Sent> {
    if frames == [] then [] else FrameLines(frames[0]) + AllLines(frames[1..])
  }

  function OneLess(rounds: Option<nat>): Option<nat>
    requires rounds != Some(0)
  {
    if rounds.Some? then Some(rounds.value - 1) else None
  }

  /** What the decoder sends for the bytes it reads, in at most `rounds` rounds if it is cancelled after them. */
  function Decode(input: seq<Byte>, rounds: Option<nat>): seq<Sent>
    decreases |input|
  {
    if rounds == Some(0) || |input| < 8 || |input| < 8 + PayloadSize(input) then []
    else
      var end := 8 + PayloadSize(input);
      Labelled(PayloadLines(input[8..end]), input[0] == STDERR) + Decode(input[end..], OneLess(rounds))
  }

  lemma LastByte(n: nat)
    ensures n == n / 0x100 * 0x100 + n % 0x100
  {
  }

  lemma TwoBytes(n: nat)
    ensures n / 0x1_0000 == n / 0x100 / 0x100
  {
  }

  lemma ThreeBytes(n: nat)
    ensures n / 0x100_0000 == n / 0x1_0000 / 0x100
  {
  }

  lemma SizeOfBigEndian(n: nat)
    requires n < LIMIT
    ensures var s := BigEndian(n); Size(s[0], s[1], s[2], s[3]) == n
  {
    TwoBytes(n);
    ThreeBytes(n);
    LastByte(n / 0x1_0000);
    LastByte(n / 0x100);
    LastByte(n);
  }

  lemma Header(f: Frame, rest: seq<Byte>)
    requires Fits(f)
    ensures var s := Encode(f) + rest;
            && |s| == 8 + |f.payload| + |rest| && s[0] == f.kind && PayloadSize(s) == |f.payload|
            && s[8..8 + |f.payload|] == f.payload && s[8 + |f.payload|..] == rest
  {
    SizeOfBigEndian(|f.payload|);
  }

  lemma {:induction false} DecodeFrame(f: Frame, rest: seq<Byte>, rounds: Option<nat>)
    requires Fits(f) && rounds != Some(0)
    ensures Decode(Encode(f) + rest, rounds) == FrameLines(f) + Decode(rest, OneLess(rounds))
  {
    Header(f, rest);
  }

  lemma {:induction false} FirstFrame(frames: seq<Frame>, rest: seq<Byte>)
    requires frames != [] && forall f <- frames :: Fits(f)
    ensures EncodeAll(frames) + rest == Encode(frames[0]) + (EncodeAll(frames[1..]) + rest)
  {
  }

  /** Decoding inverts framing: the frames' lines come out with their labels and in order; of a further frame
      that is cut short nothing does. */
  lemma {:induction false} DecodingInvertsFraming(frames: seq<Frame>, further: Frame, rest: seq<Byte>)
    requires (forall f <- frames :: Fits(f)) && Fits(further) && rest < Encode(further)
    ensures Decode(EncodeAll(frames) + rest, None) == AllLines(frames)
  {
    if frames == [] {
      CutShort(further, rest);
      assert EncodeAll(frames) + rest == rest;
    } else {
      DecodingInvertsFraming(frames[1..], further, rest);
      FirstFrame(frames, rest);
      DecodeFrame(frames[0], EncodeAll(frames[1..]) + rest, None);
    }
  }

  lemma {:induction false} CutShort(f: Frame, rest: seq<Byte>)
    requires Fits(f) && rest < Encode(f)
    ensures Decode(rest, None) == []
  {
    Header(f, []);
    assert Encode(f) + [] == Encode(f);
    assert forall i | 0 <= i < |rest| :: rest[i] == Encode(f)[i];
  }

  lemma FirstLines(frames: seq<Frame>, n: nat)
    requires 0 < n <= |frames|
    ensures AllLines(frames[..n]) == FrameLines(frames[0]) + AllLines(frames[1..][..n - 1])
  {
    assert frames[..n][1..] == frames[1..][..n - 1];
  }

  /** Cancelled after some rounds, the decoder has sent the lines of as many frames. */
  lemma {:induction false} CancelledDecoding(frames: seq<Frame>, rest: seq<Byte>, rounds: nat)
    requires (forall f <- frames :: Fits(f)) && rounds <= |frames|
    ensures Decode(EncodeAll(frames) + rest, Some(rounds)) == AllLines(frames[..rounds])
  {
    if rounds > 0 {
      var left: nat := rounds - 1;
      CancelledDecoding(frames[1..], rest, left);
      FirstFrame(frames, rest);
      DecodeFrame(frames[0], EncodeAll(frames[1..]) + rest, Some(rounds));
      FirstLines(frames, rounds);
    }
  }

  // ---------------------------------------------------------------------------------------------
  // Timestamps of lines
  // ---------------------------------------------------------------------------------------------

  /** The message for a line.  Without a timestamp the time of sending is used. */
  datatype Message = Message(containerId: string, serviceName: Option<string>, timestamp: Option<Line>, text: Line,
                             stderr: bool)

  predicate LooksStamped(line: Line) {
    |line| > 30 && line[4] == DASH && line[10] == LETTER_T
  }

  /** The place of the first such byte, or -1. */
  function IndexByte(s: Line, b: Byte): int {
    if s == [] then -1
    else if s[0] == b then 0
    else
      var i := IndexByte(s[1..], b);
      if i < 0 then -1 else i + 1
  }

  lemma {:induction false} IndexByteIsTheFirst(s: Line, b: Byte)
    ensures var i := IndexByte(s, b);
            if b in s then 0 <= i < |s| && s[i] == b && b !in s[..i] else i == -1
  {
    if s != [] && s[0] != b {
      IndexByteIsTheFirst(s[1..], b);
      var i := IndexByte(s[1..], b);
      assert s == [s[0]] + s[1..];
      if i >= 0 {
        assert s[..i + 1] == [s[0]] + s[1..][..i];
      }
    }
  }

  function LogLine(containerId: string, serviceName: Option<string>, stderr: bool, line: Line): Message {
    var space := IndexByte(line, SPACE);
    IndexByteIsTheFirst(line, SPACE);
    if LooksStamped(line) && space > 0
    then Message(containerId, serviceName, Some(line[..space]), line[space + 1..], stderr)
    else Message(containerId, serviceName, None, line, stderr)
  }

  method SendLogLine(containerId: string, stderr: bool, line: Line) returns (m: Message)
    ensures m == LogLine(containerId, None, stderr, line)
  {
    m := Message(containerId, None, None, line, stderr);
    if |line| > 30 && line[4] == DASH && line[10] == LETTER_T {
      var space := IndexByte(line, SPACE);
      IndexByteIsTheFirst(line, SPACE);
      if space > 0 {
        m := m.(timestamp := Some(line[..space]), text := line[space + 1..]);
      }
    }
  }

  method IndexOf(s: Line, b: Byte) returns (r: int)
    ensures r == IndexByte(s, b)
  {
    IndexByteIsTheFirst(s, b);
    var i := 0;
    while i < |s|
      invariant i <= |s| && b !in s[..i]
    {
      if s[i] == b {
        return i;
      }
      i := i + 1;
    }
    assert s[..i] == s;
    return -1;
  }

  method SendServiceLogLine(containerId: string, serviceName: string, stderr: bool, line: Line) returns (m: Message)
    ensures m == LogLine(containerId, Some(serviceName), stderr, line)
  {
    m := Message(containerId, Some(serviceName), None, line, stderr);
    if |line| > 30 && line[4] == DASH && line[10] == LETTER_T {
      var space := IndexOf(line, SPACE);
      IndexByteIsTheFirst(line, SPACE);
      if space > 0 {
        m := m.(timestamp := Some(line[..space]), text := line[space + 1..]);
      }
    }
  }

  /** A message has all of its line: either as it is, or cut at its first space, behind the timestamp. */
  lemma MessageIsTheLine(containerId: string, serviceName: Option<string>, stderr: bool, line: Line)
    ensures match LogLine(containerId, serviceName, stderr, line)
            case Message(_, _, None, text, _) =>
              text == line && (LooksStamped(line) ==> line[0] == SPACE || SPACE !in line)
            case Message(_, _, Some(timestamp), text, _) =>
              timestamp + [SPACE] + text == line && timestamp != [] && SPACE !in timestamp && LooksStamped(line)
  {
    IndexByteIsTheFirst(line, SPACE);
  }

  /** A line that begins with a timestamp is cut behind it: what was written as timestamp, space and text comes as
      timestamp and text. */
  lemma StampedLineIsCut(containerId: string, serviceName: Option<string>, stderr: bool, timestamp: Line, text: Line)
    requires timestamp != [] && SPACE !in timestamp && LooksStamped(timestamp + [SPACE] + text)
    ensures LogLine(containerId, serviceName, stderr, timestamp + [SPACE] + text)
         == Message(containerId, serviceName, Some(timestamp), text, stderr)
  {
    var line, n := timestamp + [SPACE] + text, |timestamp|;
    IndexByteIsTheFirst(line, SPACE);
    var i := IndexByte(line, SPACE);
    assert line[n] == SPACE && line[..n] == timestamp && line[n + 1..] == text;
    assert forall k | 0 <= k < n :: line[k] == timestamp[k];
    assert forall k | 0 <= k < i :: line[..i][k] == line[k];
    assert i == n;
  }

  /** A timestamp is recognised by its length of at least 30 bytes, its dash (byte 45) behind the year and its letter T
      (byte 84) behind the date, and cut off at the first space (byte 32); lines without one come as they are. */
  lemma StampsAreRecognised(containerId: string, serviceName: Option<string>, stderr: bool, timestamp: Line, text: Line)
    requires |timestamp| >= 30 && timestamp[4] == 45 && timestamp[10] == 84 && 32 !in timestamp
    ensures LogLine(containerId, serviceName, stderr, timestamp + [32] + text)
         == Message(containerId, serviceName, Some(timestamp), text, stderr)
    ensures |text| <= 30 || text[4] != 45 || text[10] != 84 ==>
              LogLine(containerId, serviceName, stderr, text) == Message(containerId, serviceName, None, text, stderr)
  {
    StampedLineIsCut(containerId, serviceName, stderr, timestamp, text);
  }

  /** The messages for lines, one by one. */
  function Messages(containerId: string, serviceName: Option<string>, sent: seq<Sent>): seq<Message> {
    seq(|sent|, i requires 0 <= i < |sent| => LogLine(containerId, serviceName, sent[i].stderr, sent[i].line))
  }

  lemma MessagesConcat(containerId: string, serviceName: Option<string>, a: seq<Sent>, b: seq<Sent>)
    ensures Messages(containerId, serviceName, a + b)
         == Messages(containerId, serviceName, a) + Messages(containerId, serviceName, b)
  {
  }

  lemma {:induction false} TwoWritten(a: Line, b: Line)
    ensures Written([a, b]) == a + [NEWLINE] + b + [NEWLINE]
  {
    assert [a, b][..1] == [a] && [a][..0] == [] && Written([a]) == [] + a + [NEWLINE];
  }

  lemma {:induction false} TwoNonEmpty(a: Line, b: Line)
    requires a != [] && b != []
    ensures NonEmpty([a, b] + [[]]) == [a, b]
  {
    NonEmptySnoc([a, b], []);
    NonEmptySnoc([a], b);
    NonEmptySnoc([], a);
    assert [] + [a] == [a] && [a] + [b] == [a, b] && [a, b] + [] == [a, b];
  }

  lemma {:induction false} TwoLinesAreRead(a: Line, b: Line)
    requires a != [] && b != [] && IsLine(a) && IsLine(b)
    ensures PayloadLines(a + [NEWLINE] + b + [NEWLINE]) == [a, b]
  {
    TwoWritten(a, b);
    TwoNonEmpty(a, b);
    WrittenLinesAreRead([a, b], []);
    assert Written([a, b]) + [] == Written([a, b]);
  }

  /** A frame of kind 2 comes from the standard error, every other from the standard output; newlines (byte 10) end its
      lines. */
  lemma {:induction false} TwoLinesOfAFrame(kind: Byte, padding: Padding, a: Line, b: Line, containerId: string)
    requires a != [] && b != [] && 10 !in a && 10 !in b && |a| + |b| + 2 < 0x1_0000_0000
    ensures Messages(containerId, None, FrameLines(Frame(kind, padding, a + [10] + b + [10])))
         == [LogLine(containerId, None, kind == 2, a), LogLine(containerId, None, kind == 2, b)]
  {
    TwoLinesAreRead(a, b);
  }

  /** The messages for the lines of frames. */
  function FrameMessages(containerId: string, serviceName: Option<string>, frames: seq<Frame>): seq<Message> {
    if frames == [] then []
    else
      Messages(containerId, serviceName, FrameLines(frames[0]))
      + FrameMessages(containerId, serviceName, frames[1..])
  }

  lemma {:induction false} MessagesOfFrames(containerId: string, serviceName: Option<string>, frames: seq<Frame>)
    ensures Messages(containerId, serviceName, AllLines(frames)) == FrameMessages(containerId, serviceName, frames)
  {
    if frames != [] {
      MessagesOfFrames(containerId, serviceName, frames[1..]);
      MessagesConcat(containerId, serviceName, FrameLines(frames[0]), AllLines(frames[1..]));
    }
  }

  /** From frames to messages: what is sent for the bytes of complete frames, and of one that is cut short, are the
      messages for the lines of the complete ones. */
  lemma {:induction false} FramesBecomeMessages(containerId: string, serviceName: Option<string>, frames: seq<Frame>,
                                                further: Frame, rest: seq<Byte>)
    requires (forall f <- frames :: Fits(f)) && Fits(further) && rest < Encode(further)
    ensures Messages(containerId, serviceName, Decode(EncodeAll(frames) + rest, None))
         == FrameMessages(containerId, serviceName, frames)
  {
    DecodingInvertsFraming(frames, further, rest);
    MessagesOfFrames(containerId, serviceName, frames);
  }

  /** The two copies send the same messages, but for the name of the service. */
  lemma CopiesAgree(containerId: string, serviceName: string, sent: seq<Sent>)
    ensures var own, service := Messages(containerId, None, sent), Messages(containerId, Some(serviceName), sent);
            && |own| == |service|
            && forall i | 0 <= i < |own| :: service[i] == own[i].(serviceName := Some(serviceName))
  {
  }

  // ---------------------------------------------------------------------------------------------
  // The loop
  // ---------------------------------------------------------------------------------------------

  /** Fills the buffer from the stream, or fails at its end. */
  method ReadFull(input: seq<Byte>, pos: nat, buffer: array<Byte>) returns (ok: bool, next: nat)
    requires pos <= |input|
    modifies buffer
    ensures ok <==> pos + buffer.Length <= |input|
    ensures ok ==> next == pos + buffer.Length && buffer[..] == input[pos..next]
    ensures !ok ==> next == |input|
  {
    ok := pos + buffer.Length <= |input|;
    next := if ok then pos + buffer.Length else |input|;
    forall i | 0 <= i < next - pos {
      buffer[i] := input[pos + i];
    }
  }

  /** What remains to be done after a header, with the payload from `start` to `end`. */
  function DecodeBody(input: seq<Byte>, start: nat, end: nat, stderr: bool, left: Option<nat>): seq<Sent>
    requires start <= |input| && start <= end
  {
    if |input| < end then []
    else Labelled(PayloadLines(input[start..end]), stderr) + Decode(input[end..], left)
  }

  lemma {:induction false} DecodeNext(input: seq<Byte>, pos: nat, start: nat, end: nat, header: seq<Byte>,
                                      rounds: Option<nat>)
    requires start == pos + 8 <= |input| && header == input[pos..start] && rounds != Some(0)
    requires end == start + PayloadSize(header)
    ensures Decode(input[pos..], rounds) == DecodeBody(input, start, end, header[0] == STDERR, OneLess(rounds))
  {
    SameHeader(input[pos..], header);
    DecodeFirst(input[pos..], end - pos, rounds);
    if end <= |input| {
      Slices(input, pos, start, end);
    }
  }

  lemma SameHeader(s: seq<Byte>, header: seq<Byte>)
    requires |s| >= 8 && header == s[..8]
    ensures PayloadSize(s) == PayloadSize(header) && s[0] == header[0]
  {
  }

  lemma {:induction false} DecodeFirst(s: seq<Byte>, end: nat, rounds: Option<nat>)
    requires |s| >= 8 && end == 8 + PayloadSize(s) && rounds != Some(0)
    ensures Decode(s, rounds) == DecodeBody(s, 8, end, s[0] == STDERR, OneLess(rounds))
  {
    if end <= |s| {
      assert Decode(s, rounds) == Labelled(PayloadLines(s[8..end]), s[0] == STDERR) + Decode(s[end..], OneLess(rounds));
    } else {
      assert Decode(s, rounds) == [];
    }
  }

  lemma Slices(input: seq<Byte>, pos: nat, start: nat, end: nat)
    requires pos + 8 == start <= end <= |input|
    ensures input[pos..][8..end - pos] == input[start..end] && input[pos..][end - pos..] == input[end..]
  {
  }

  lemma {:induction false} EmptyPayload(input: seq<Byte>, start: nat, stderr: bool, left: Option<nat>)
    requires start <= |input|
    ensures DecodeBody(input, start, start, stderr, left) == Decode(input[start..], left)
  {
    assert PayloadLines(input[start..start]) == [];
    assert [] + Decode(input[start..], left) == Decode(input[start..], left);
  }

  /** The loop over the lines of one payload. */
  method SendLines(containerId: string, content: Line, stderr: bool) returns (messages: seq<Message>)
    ensures messages == Messages(containerId, None, Labelled(PayloadLines(content), stderr))
  {
    messages := [];
    var lines := Split(TrimRight(content));
    var i := 0;
    while i < |lines|
      invariant i <= |lines|
      invariant messages == Messages(containerId, None, Labelled(NonEmpty(lines[..i]), stderr))
    {
      var next := i + 1;
      SendNext(lines, i, next, stderr);
      if lines[i] != [] {
        MessagesConcat(containerId, None, Labelled(NonEmpty(lines[..i]), stderr), [Sent(stderr, lines[i])]);
        var m := SendLogLine(containerId, stderr, lines[i]);
        messages := messages + [m];
      }
      i := next;
    }
    assert lines[..i] == lines;
  }

  /** The same loop of a service subscription. */
  method SendServiceLines(containerId: string, serviceName: string, content: Line, stderr: bool)
    returns (messages: seq<Message>)
    ensures messages == Messages(containerId, Some(serviceName), Labelled(PayloadLines(content), stderr))
  {
    messages := [];
    var lines := Split(TrimRight(content));
    var i := 0;
    while i < |lines|
      invariant i <= |lines|
      invariant messages == Messages(containerId, Some(serviceName), Labelled(NonEmpty(lines[..i]), stderr))
    {
      var next := i + 1;
      SendNext(lines, i, next, stderr);
      if lines[i] != [] {
        MessagesConcat(containerId, Some(serviceName), Labelled(NonEmpty(lines[..i]), stderr),
                       [Sent(stderr, lines[i])]);
        var m := SendServiceLogLine(containerId, serviceName, stderr, lines[i]);
        messages := messages + [m];
      }
      i := next;
    }
    assert lines[..i] == lines;
  }

  /** Reads the header of the next frame into the buffer that serves all headers. */
  method ReadHeader(input: seq<Byte>, pos: nat, header: array<Byte>, ghost rounds: Option<nat>)
    returns (ok: bool, start: nat, end: nat, stderr: bool)
    requires pos <= |input| && header.Length == 8 && rounds != Some(0)
    modifies header
    ensures !ok ==> Decode(input[pos..], rounds) == []
    ensures ok ==> pos + 8 == start <= |input| && start <= end
    ensures ok ==> Decode(input[pos..], rounds) == DecodeBody(input, start, end, stderr, OneLess(rounds))
  {
    ok, start := ReadFull(input, pos, header);
    end, stderr := start, false;
    if ok {
      stderr := header[0] == STDERR;
      end := start + PayloadSize(header[..]);
      DecodeNext(input, pos, start, end, header[..], rounds);
    }
  }

  method ReadPayload(input: seq<Byte>, start: nat, end: nat) returns (ok: bool, payload: Line)
    requires start <= end && start <= |input|
    ensures ok <==> end <= |input|
    ensures ok ==> payload == input[start..end]
  {
    var buffer := new Byte[end - start](i => 0);
    var next;
    ok, next := ReadFull(input, start, buffer);
    payload := buffer[..];
  }

  /** Reads frames until the stream ends or the subscription is cancelled, and sends their lines. */
  method StreamMuxLogs(containerId: string, input: seq<Byte>, rounds: Option<nat>) returns (messages: seq<Message>)
    ensures messages == Messages(containerId, None, Decode(input, rounds))
  {
    messages := [];
    var header := new Byte[8](i => 0);
    var pos, left := 0, rounds;
    assert input[0..] == input;
    ghost var sent, todo := [], Decode(input, rounds);
    while left != Some(0)
      invariant pos <= |input| && todo == Decode(input[pos..], left)
      invariant sent + todo == Decode(input, rounds) && messages == Messages(containerId, None, sent)
      decreases |input| - pos
    {
      var ok, start, end, stderr := ReadHeader(input, pos, header, left);
      if !ok {
        return;
      }
      left := OneLess(left);
      if start == end {
        EmptyPayload(input, start, stderr, left);
        pos := start;
        continue;
      }
      var payload: Line;
      ok, payload := ReadPayload(input, start, end);
      if !ok {
        return;
      }
      var more := SendLines(containerId, payload, stderr);
      ghost var lines := Labelled(PayloadLines(payload), stderr);
      pos, todo := end, Decode(input[end..], left);
      Associate(sent, lines, todo);
      MessagesConcat(containerId, None, sent, lines);
      messages, sent := messages + more, sent + lines;
    }
  }

  /** The same loop of a service subscription. */
  method StreamServiceMuxLogs(containerId: string, serviceName: string, input: seq<Byte>, rounds: Option<nat>)
    returns (messages: seq<Message>)
    ensures messages == Messages(containerId, Some(serviceName), Decode(input, rounds))
  {
    messages := [];
    var header := new Byte[8](i => 0);
    var pos, left := 0, rounds;
    assert input[0..] == input;
    ghost var sent, todo := [], Decode(input, rounds);
    while left != Some(0)
      invariant pos <= |input| && todo == Decode(input[pos..], left)
      invariant sent + todo == Decode(input, rounds) && messages == Messages(containerId, Some(serviceName), sent)
      decreases |input| - pos
    {
      var ok, start, end, stderr := ReadHeader(input, pos, header, left);
      if !ok {
        return;
      }
      left := OneLess(left);
      if start == end {
        EmptyPayload(input, start, stderr, left);
        pos := start;
        continue;
      }
      var payload: Line;
      ok, payload := ReadPayload(input, start, end);
      if !ok {
        return;
      }
      var more := SendServiceLines(containerId, serviceName, payload, stderr);
      ghost var lines := Labelled(PayloadLines(payload), stderr);
      pos, todo := end, Decode(input[end..], left);
      Associate(sent, lines, todo);
      MessagesConcat(containerId, Some(serviceName), sent, lines);
      messages, sent := messages + more, sent + lines;
    }
  }

  lemma SendNext(lines: seq<Line>, i: nat, next: nat, stderr: bool)
    requires next == i + 1 <= |lines|
    ensures Labelled(NonEmpty(lines[..next]), stderr)
         == Labelled(NonEmpty(lines[..i]), stderr) + if lines[i] == [] then [] else [Sent(stderr, lines[i])]
  {
    assert lines[..next] == lines[..i] + [lines[i]];
    NonEmptySnoc(lines[..i], lines[i]);
  }
}
