/** Event streams written line by line in UTF-8, and the round trip through the decoder. */
module SseLines {
  import opened Text
  import opened SseDecoding

  // ----- UTF-8 -----

  function Utf8Char(c: char): (r: seq<Byte>)
    ensures r != []
    ensures (c as int < 128 ==> r == [c as int]) && (c as int >= 128 ==> forall b <- r :: b >= 128)
  {
    var k := c as int;
    if k < 0x80 then [k]
    else if k < 0x800 then [0xC0 + k / 64, 0x80 + k % 64]
    else if k < 0x1_0000 then [0xE0 + k / 4096, 0x80 + k / 64 % 64, 0x80 + k % 64]
    else [0xF0 + k / 262144, 0x80 + k / 4096 % 64, 0x80 + k / 64 % 64, 0x80 + k % 64]
  }

  function Utf8(s: string): seq<Byte> {
    if s == "" then [] else Utf8(s[..|s| - 1]) + Utf8Char(s[|s| - 1])
  }

  /** What `from_utf8_lossy` does with bytes that are UTF-8. */
  ghost predicate DecodesUtf8(lossy: Lossy) {
    forall s: string :: lossy(Utf8(s)) == s
  }

  function StripCr(s: string): string {
    if s != "" && s[|s| - 1] == '\r' then s[..|s| - 1] else s
  }

  lemma {:induction false} Utf8Newline(s: string)
    ensures LF in Utf8(s) <==> '\n' in s
  {
    if s != "" {
      Utf8Newline(s[..|s| - 1]);
      assert s == s[..|s| - 1] + [s[|s| - 1]];
    }
  }

  lemma Utf8WithoutCr(s: string)
    ensures WithoutCr(Utf8(s)) == Utf8(StripCr(s))
    ensures WithoutCr(Utf8(s) + [CR]) == Utf8(s)
  {
    if s != "" {
      var front, last := Utf8(s[..|s| - 1]), Utf8Char(s[|s| - 1]);
      var bytes := front + last;
      assert bytes[|bytes| - 1] == last[|last| - 1];
      if s[|s| - 1] == '\r' {
        assert last == [CR];
        assert bytes[..|bytes| - 1] == front;
      }
    }
  }

  // ----- Streams of lines -----

  /** A line and how it ends: LF alone or CR LF. */
  datatype Line = Line(text: string, crlf: bool)

  function LineBytes(line: Line): seq<Byte> {
    Utf8(line.text) + (if line.crlf then [CR] else []) + [LF]
  }

  function StreamBytes(lines: seq<Line>): seq<Byte> {
    if lines == [] then [] else LineBytes(lines[0]) + StreamBytes(lines[1..])
  }

  /** The line the decoder sees: one CR before the LF is never part of it. */
  function Seen(line: Line): string {
    if line.crlf then line.text else StripCr(line.text)
  }

  function InterpretedAll(block: Block, lines: seq<Line>): (Block, seq<Event>)
    decreases |lines|
  {
    if lines == [] then (block, [])
    else
      var (next, event) := Interpreted(block, Seen(lines[0]));
      var (last, rest) := InterpretedAll(next, lines[1..]);
      (last, AsSeq(event) + rest)
  }

  lemma FeedLine(lossy: Lossy, block: Block, line: Line, rest: seq<Byte>)
    requires DecodesUtf8(lossy) && '\n' !in line.text
    ensures var (next, event) := Interpreted(block, Seen(line));
            var (last, more) := Feed(lossy, Decoder([], next), rest);
            Feed(lossy, Decoder([], block), LineBytes(line) + rest) == (last, AsSeq(event) + more)
  {
    var content := Utf8(line.text) + (if line.crlf then [CR] else []);
    Utf8Newline(line.text);
    Utf8WithoutCr(line.text);
    FeedContent(lossy, block, content, rest);
    assert LineBytes(line) + rest == content + [LF] + rest;
    assert content == if line.crlf then Utf8(line.text) + [CR] else Utf8(line.text);
    assert WithoutCr(content) == Utf8(Seen(line));
  }

  lemma {:induction false} FeedLines(lossy: Lossy, block: Block, lines: seq<Line>)
    requires DecodesUtf8(lossy) && forall line <- lines :: '\n' !in line.text
    ensures var (last, events) := InterpretedAll(block, lines);
            Feed(lossy, Decoder([], block), StreamBytes(lines)) == (Decoder([], last), events)
    decreases |lines|
  {
    if lines != [] {
      var (next, event) := Interpreted(block, Seen(lines[0]));
      FeedLine(lossy, block, lines[0], StreamBytes(lines[1..]));
      FeedLines(lossy, next, lines[1..]);
    }
  }

  lemma {:induction false} InterpretedConcat(block: Block, a: seq<Line>, b: seq<Line>)
    ensures var (middle, first) := InterpretedAll(block, a);
            var (last, rest) := InterpretedAll(middle, b);
            InterpretedAll(block, a + b) == (last, first + rest)
    decreases |a|
  {
    if a == [] {
      assert a + b == b;
      assert [] + InterpretedAll(block, b).1 == InterpretedAll(block, b).1;
    } else {
      var (next, event) := Interpreted(block, Seen(a[0]));
      InterpretedConcat(next, a[1..], b);
      assert (a + b)[1..] == a[1..] + b;
      var (middle, more) := InterpretedAll(next, a[1..]);
      Associates(AsSeq(event), more, InterpretedAll(middle, b).1);
    }
  }

  // ----- Writing events and reading them back -----

  function FieldLine(field: string, value: string): Line {
    Line(field + " " + value, false)
  }

  function DataLines(pieces: seq<string>): seq<Line> {
    if pieces == [] then [] else [FieldLine(DATA_FIELD, pieces[0])] + DataLines(pieces[1..])
  }

  function EncodedEvent(event: Event): seq<Line> {
    [FieldLine(EVENT_FIELD, event.name)] + (DataLines(Split(event.data, '\n')) + [BLANK])
  }

  function Encoded(events: seq<Event>): seq<Line> {
    if events == [] then [] else EncodedEvent(events[0]) + Encoded(events[1..])
  }

  /** What is left of a value after it crossed the stream. */
  function Received(value: string): string {
    TrimStart(StripCr(value))
  }

  function ReceivedAll(pieces: seq<string>): (r: seq<string>)
    ensures |r| == |pieces|
  {
    if pieces == [] then [] else [Received(pieces[0])] + ReceivedAll(pieces[1..])
  }

  function ReceivedEvent(event: Event): Event {
    Event(Received(event.name), Join(ReceivedAll(Split(event.data, '\n')), '\n'))
  }

  function ReceivedEvents(events: seq<Event>): seq<Event> {
    if events == [] then [] else [ReceivedEvent(events[0])] + ReceivedEvents(events[1..])
  }

  lemma StripCrOfField(field: string, value: string)
    ensures StripCr(field + " " + value) == field + " " + StripCr(value)
  {
    var text := field + " " + value;
    if value != "" {
      assert text[|text| - 1] == value[|value| - 1];
      assert text[..|text| - 1] == field + " " + value[..|value| - 1];
    } else {
      assert text[|text| - 1] == ' ';
    }
  }

  lemma FieldOfLine(field: string, value: string)
    requires field != ""
    ensures var line := Seen(FieldLine(field, value));
            field <= line && line[0] == field[0] && TrimStart(line[|field|..]) == Received(value)
  {
    StripCrOfField(field, value);
    var rest := " " + StripCr(value);
    var line := Seen(FieldLine(field, value));
    assert line == field + rest;
    assert line[|field|..] == rest && rest[1..] == StripCr(value);
  }

  lemma FieldNames()
    ensures |EVENT_FIELD| == 6 && EVENT_FIELD[0] == 'e' && EVENT_FIELD[5] == ':'
    ensures |DATA_FIELD| == 5 && DATA_FIELD[0] == 'd' && DATA_FIELD[4] == ':'
  {
  }

  lemma EventLine(name: string)
    ensures Classified(Seen(FieldLine(EVENT_FIELD, name))) == EventField(Received(name))
  {
    FieldNames();
    FieldOfLine(EVENT_FIELD, name);
  }

  lemma DataLine(piece: string)
    ensures Classified(Seen(FieldLine(DATA_FIELD, piece))) == DataField(Received(piece))
  {
    FieldNames();
    FieldOfLine(DATA_FIELD, piece);
    var line := Seen(FieldLine(DATA_FIELD, piece));
    assert line[0] != EVENT_FIELD[0];
  }

  lemma DataStep(block: Block, piece: string, rest: seq<Line>)
    ensures InterpretedAll(block, [FieldLine(DATA_FIELD, piece)] + rest) ==
            InterpretedAll(block.(data := block.data + [Received(piece)]), rest)
  {
    DataLine(piece);
    var lines := [FieldLine(DATA_FIELD, piece)] + rest;
    assert lines[1..] == rest;
    var events := InterpretedAll(block.(data := block.data + [Received(piece)]), rest).1;
    assert [] + events == events;
  }

  const BLANK := Line("", false)

  lemma BlankStep(block: Block)
    requires block.data != []
    ensures InterpretedAll(block, [BLANK]) ==
            (Block(None, []), [Event(block.name.GetOr("message"), Join(block.data, '\n'))])
  {
    assert Classified(Seen(BLANK)) == Blank;
    var event := Event(block.name.GetOr("message"), Join(block.data, '\n'));
    assert [BLANK][1..] == [] && [event] + [] == [event];
  }

  function Collected(block: Block, pieces: seq<string>): Event {
    Event(block.name.GetOr("message"), Join(block.data + ReceivedAll(pieces), '\n'))
  }

  lemma CollectedStep(block: Block, pieces: seq<string>)
    requires pieces != []
    ensures Collected(block.(data := block.data + [Received(pieces[0])]), pieces[1..]) == Collected(block, pieces)
  {
    assert block.data + [Received(pieces[0])] + ReceivedAll(pieces[1..]) == block.data + ReceivedAll(pieces);
  }

  lemma {:induction false} DataLinesCollect(block: Block, pieces: seq<string>)
    requires block.data != [] || pieces != []
    ensures InterpretedAll(block, DataLines(pieces) + [BLANK]) == (Block(None, []), [Collected(block, pieces)])
    decreases |pieces|
  {
    if pieces == [] {
      assert DataLines(pieces) + [BLANK] == [BLANK];
      assert block.data + ReceivedAll(pieces) == block.data;
      BlankStep(block);
    } else {
      var next := block.(data := block.data + [Received(pieces[0])]);
      var tail := DataLines(pieces[1..]) + [BLANK];
      assert DataLines(pieces) + [BLANK] == [FieldLine(DATA_FIELD, pieces[0])] + tail;
      DataStep(block, pieces[0], tail);
      DataLinesCollect(next, pieces[1..]);
      CollectedStep(block, pieces);
    }
  }

  lemma EventStep(name: string, rest: seq<Line>)
    ensures InterpretedAll(Block(None, []), [FieldLine(EVENT_FIELD, name)] + rest) ==
            InterpretedAll(Block(Some(Received(name)), []), rest)
  {
    EventLine(name);
    var lines := [FieldLine(EVENT_FIELD, name)] + rest;
    assert lines[1..] == rest;
    var events := InterpretedAll(Block(Some(Received(name)), []), rest).1;
    assert [] + events == events;
  }

  lemma EncodedEventIsReceived(event: Event)
    ensures InterpretedAll(Block(None, []), EncodedEvent(event)) == (Block(None, []), [ReceivedEvent(event)])
  {
    var pieces := Split(event.data, '\n');
    var named := Block(Some(Received(event.name)), []);
    EventStep(event.name, DataLines(pieces) + [BLANK]);
    CollectedEvent(event);
    DataLinesCollect(named, pieces);
  }

  lemma CollectedEvent(event: Event)
    ensures Collected(Block(Some(Received(event.name)), []), Split(event.data, '\n')) == ReceivedEvent(event)
  {
    var pieces := ReceivedAll(Split(event.data, '\n'));
    assert [] + pieces == pieces;
  }

  lemma {:induction false} EncodedIsReceived(events: seq<Event>)
    ensures InterpretedAll(Block(None, []), Encoded(events)) == (Block(None, []), ReceivedEvents(events))
    decreases |events|
  {
    if events != [] {
      EncodedEventIsReceived(events[0]);
      EncodedIsReceived(events[1..]);
      InterpretedConcat(Block(None, []), EncodedEvent(events[0]), Encoded(events[1..]));
    }
  }

  lemma {:induction false} DataLinesHaveNoNewline(pieces: seq<string>)
    requires forall piece <- pieces :: '\n' !in piece
    ensures forall line <- DataLines(pieces) :: '\n' !in line.text
  {
    if pieces != [] {
      DataLinesHaveNoNewline(pieces[1..]);
    }
  }

  lemma {:induction false} EncodedHasNoNewline(events: seq<Event>)
    requires forall event <- events :: '\n' !in event.name
    ensures forall line <- Encoded(events) :: '\n' !in line.text
  {
    if events != [] {
      JoinOfSplit(events[0].data, '\n');
      DataLinesHaveNoNewline(Split(events[0].data, '\n'));
      EncodedHasNoNewline(events[1..]);
    }
  }

  /** Decoding what was written gives every event as it is received, in order. */
  lemma DecodeOfEncoded(lossy: Lossy, events: seq<Event>)
    requires DecodesUtf8(lossy) && forall event <- events :: '\n' !in event.name
    ensures Events(lossy, StreamBytes(Encoded(events))) == ReceivedEvents(events)
  {
    EncodedHasNoNewline(events);
    FeedLines(lossy, Block(None, []), Encoded(events));
    EncodedIsReceived(events);
    assert lossy([]) == "" by {
      assert Utf8("") == [];
    }
    assert ReceivedEvents(events) + [] == ReceivedEvents(events);
  }

  /** A value that crosses the stream unchanged. */
  predicate Clean(value: string) {
    (value != "" ==> !IsWhitespace(value[0])) && (value != "" ==> value[|value| - 1] != '\r')
  }

  predicate CleanEvent(event: Event) {
    Clean(event.name) && forall piece <- Split(event.data, '\n') :: Clean(piece)
  }

  lemma CleanIsFixed(value: string)
    ensures Received(value) == value <==> Clean(value)
  {
    TrimStartIsIdentity(StripCr(value));
  }

  lemma {:induction false} CleanPiecesAreFixed(pieces: seq<string>)
    ensures ReceivedAll(pieces) == pieces <==> forall piece <- pieces :: Clean(piece)
  {
    if pieces != [] {
      var all, rest := ReceivedAll(pieces), ReceivedAll(pieces[1..]);
      CleanIsFixed(pieces[0]);
      CleanPiecesAreFixed(pieces[1..]);
      assert pieces == [pieces[0]] + pieces[1..];
      assert all[0] == Received(pieces[0]) && all[1..] == rest;
    }
  }

  lemma {:induction false} ReceivedPiecesHaveNoNewline(pieces: seq<string>)
    requires forall piece <- pieces :: '\n' !in piece
    ensures forall piece <- ReceivedAll(pieces) :: '\n' !in piece
  {
    if pieces != [] {
      ReceivedPiecesHaveNoNewline(pieces[1..]);
      var stripped, value := StripCr(pieces[0]), Received(pieces[0]);
      TrimStartIsSuffix(stripped);
      assert forall c <- value :: c in stripped;
      assert forall c <- stripped :: c in pieces[0];
    }
  }

  lemma CleanEventIsFixed(event: Event)
    ensures ReceivedEvent(event) == event <==> CleanEvent(event)
  {
    var pieces := Split(event.data, '\n');
    CleanIsFixed(event.name);
    CleanPiecesAreFixed(pieces);
    JoinOfSplit(event.data, '\n');
    ReceivedPiecesHaveNoNewline(pieces);
    SplitOfJoin(ReceivedAll(pieces), '\n');
  }

  lemma {:induction false} CleanEventsAreFixed(events: seq<Event>)
    ensures ReceivedEvents(events) == events <==> forall event <- events :: CleanEvent(event)
  {
    if events != [] {
      var all, rest := ReceivedEvents(events), ReceivedEvents(events[1..]);
      CleanEventIsFixed(events[0]);
      CleanEventsAreFixed(events[1..]);
      assert events == [events[0]] + events[1..];
      assert all[0] == ReceivedEvent(events[0]) && all[1..] == rest;
    }
  }

  /** The round trip holds exactly for events whose name and data lines are clean. */
  lemma RoundTripExactlyWhenClean(lossy: Lossy, events: seq<Event>)
    requires DecodesUtf8(lossy) && forall event <- events :: '\n' !in event.name
    ensures Events(lossy, StreamBytes(Encoded(events))) == events <==> forall event <- events :: CleanEvent(event)
  {
    DecodeOfEncoded(lossy, events);
    CleanEventsAreFixed(events);
  }
}
