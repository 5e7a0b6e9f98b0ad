/**
 Event streams as WHATWG HTML describes them (sections 9.2.5 and 9.2.6), where the
 decoder agrees with that description, and where it does not.
 */
module SseStandard {
  import opened Text
  import opened SseDecoding
  import opened SseLines

  // ----- The standard -----

  const EVENT := "event"
  const DATA := "data"
  const BYTE_ORDER_MARK := '\U{FEFF}'

  /** The event type buffer and the data buffer. */
  datatype Buffers = Buffers(eventType: string, data: string)

  function FirstBreak(text: string): (r: Option<nat>)
    ensures r.Some? ==> r.value < |text|
  {
    if text == "" then None
    else if text[0] in {'\n', '\r'} then Some(0)
    else
      match FirstBreak(text[1..])
      case None => None
      case Some(i) => Some(i + 1)
  }

  /** Complete lines, ended by CR LF, LF or CR; an unfinished last line is discarded. */
  function StandardLines(text: string): seq<string>
    decreases |text|
  {
    match FirstBreak(text)
    case None => []
    case Some(i) =>
      var pair := text[i] == '\r' && i + 1 < |text| && text[i + 1] == '\n';
      [text[..i]] + StandardLines(text[if pair then i + 2 else i + 1..])
  }

  function OneSpaceRemoved(value: string): string {
    if value != "" && value[0] == ' ' then value[1..] else value
  }

  function StandardClassified(line: string): LineKind {
    if line == "" then Blank
    else
      match IndexOf(line, ':')
      case Some(0) => Comment
      case Some(i) => StandardField(line[..i], OneSpaceRemoved(line[i + 1..]))
      case None => StandardField(line, "")
  }

  function StandardField(field: string, value: string): LineKind {
    if field == EVENT then EventField(value) else if field == DATA then DataField(value) else Ignored
  }

  function StandardApplied(buffers: Buffers, kind: LineKind): (Buffers, Option<Event>) {
    match kind
    case Blank =>
      if buffers.data == "" then (Buffers("", ""), None)
      else
        var name := if buffers.eventType == "" then "message" else buffers.eventType;
        (Buffers("", ""), Some(Event(name, buffers.data[..|buffers.data| - 1])))
    case EventField(value) => (buffers.(eventType := value), None)
    case DataField(value) => (buffers.(data := buffers.data + value + "\n"), None)
    case _ => (buffers, None)
  }

  function StandardRun(buffers: Buffers, lines: seq<string>): seq<Event>
    decreases |lines|
  {
    if lines == [] then []
    else
      var (next, event) := StandardApplied(buffers, StandardClassified(lines[0]));
      AsSeq(event) + StandardRun(next, lines[1..])
  }

  function StandardEvents(text: string): seq<Event> {
    var body := if text != "" && text[0] == BYTE_ORDER_MARK then text[1..] else text;
    StandardRun(Buffers("", ""), StandardLines(body))
  }

  // ----- Streams of lines, as text -----

  function LineText(line: Line): string {
    line.text + (if line.crlf then "\r\n" else "\n")
  }

  function StreamText(lines: seq<Line>): string {
    if lines == [] then "" else LineText(lines[0]) + StreamText(lines[1..])
  }

  function Texts(lines: seq<Line>): seq<string> {
    if lines == [] then [] else [lines[0].text] + Texts(lines[1..])
  }

  predicate SingleLine(text: string) {
    '\n' !in text && '\r' !in text
  }

  lemma {:induction false} Utf8Concat(s: string, t: string)
    ensures Utf8(s + t) == Utf8(s) + Utf8(t)
  {
    if t == "" {
      assert s + t == s;
    } else {
      assert (s + t)[..|s + t| - 1] == s + t[..|t| - 1];
      Utf8Concat(s, t[..|t| - 1]);
    }
  }

  lemma LineBytesEncodeLineText(line: Line)
    ensures Utf8(LineText(line)) == LineBytes(line)
  {
    assert Utf8("\n") == [LF] by {
      assert "\n"[..0] == "";
      assert Utf8Char('\n') == [LF];
    }
    assert Utf8("\r\n") == [CR, LF] by {
      assert "\r\n"[..1] == "\r" && "\r"[..0] == "";
      assert Utf8Char('\r') == [CR] && Utf8Char('\n') == [LF];
    }
    Utf8Concat(line.text, if line.crlf then "\r\n" else "\n");
  }

  /** The bytes the decoder reads are the UTF-8 encoding of the text the standard reads. */
  lemma {:induction false} StreamBytesEncodeStreamText(lines: seq<Line>)
    ensures Utf8(StreamText(lines)) == StreamBytes(lines)
  {
    if lines != [] {
      LineBytesEncodeLineText(lines[0]);
      Utf8Concat(LineText(lines[0]), StreamText(lines[1..]));
      StreamBytesEncodeStreamText(lines[1..]);
    }
  }

  lemma {:induction false} FirstBreakAfter(line: string, rest: string)
    requires SingleLine(line) && rest != "" && rest[0] in {'\n', '\r'}
    ensures FirstBreak(line + rest) == Some(|line|)
  {
    if line == "" {
      assert line + rest == rest;
    } else {
      assert (line + rest)[1..] == line[1..] + rest;
      FirstBreakAfter(line[1..], rest);
    }
  }

  lemma FirstStandardLine(line: Line, rest: string)
    requires SingleLine(line.text)
    ensures StandardLines(LineText(line) + rest) == [line.text] + StandardLines(rest)
  {
    var ending := if line.crlf then "\r\n" else "\n";
    var text := line.text + (ending + rest);
    assert LineText(line) + rest == text;
    assert (ending + rest)[0] == ending[0];
    FirstBreakAfter(line.text, ending + rest);
    var i := |line.text|;
    assert text[i] == ending[0] && text[..i] == line.text;
    if line.crlf {
      assert text[i + 1] == '\n';
      assert text[i + 2..] == rest;
    } else {
      assert text[i + 1..] == rest;
    }
  }

  lemma {:induction false} StandardLinesOfStream(lines: seq<Line>)
    requires forall line <- lines :: SingleLine(line.text)
    ensures StandardLines(StreamText(lines)) == Texts(lines)
  {
    if lines != [] {
      FirstStandardLine(lines[0], StreamText(lines[1..]));
      StandardLinesOfStream(lines[1..]);
    }
  }

  // ----- Where single lines mean the same -----

  /** No leading whitespace other than one space. */
  predicate RegularValue(value: string) {
    var rest := OneSpaceRemoved(value);
    rest == "" || !IsWhitespace(rest[0])
  }

  /** A line the decoder and the standard read alike. */
  predicate Regular(line: string) {
    && line != EVENT
    && line != DATA
    && (EVENT_FIELD <= line ==> RegularValue(line[|EVENT_FIELD|..]))
    && (DATA_FIELD <= line ==> RegularValue(line[|DATA_FIELD|..]))
  }

  lemma RegularValueIsTrimmed(value: string)
    ensures RegularValue(value) <==> TrimStart(value) == OneSpaceRemoved(value)
  {
    TrimStartIsIdentity(OneSpaceRemoved(value));
    if value != "" && value[0] == ' ' {
      assert TrimStart(value) == TrimStart(value[1..]);
    }
  }

  /** A line starts with a field name and a colon exactly when its first colon ends that name. */
  lemma PrefixIsField(name: string, line: string)
    requires ':' !in name
    ensures name + ":" <= line <==> IndexOf(line, ':') == Some(|name|) && line[..|name|] == name
  {
    if name + ":" <= line {
      var rest := line[|name| + 1..];
      assert line == name + [':'] + rest;
      IndexOfFirst(name, ':', rest);
      assert line[..|name|] == name;
    }
    if IndexOf(line, ':') == Some(|name|) && line[..|name|] == name {
      assert line == line[..|name|] + [':'] + line[|name| + 1..];
    }
  }

  lemma FieldConstants()
    ensures EVENT + ":" == EVENT_FIELD && DATA + ":" == DATA_FIELD
    ensures ':' !in EVENT && ':' !in DATA && EVENT != DATA
    ensures |EVENT| == 5 && |DATA| == 4
  {
    assert EVENT[0] == 'e' && DATA[0] == 'd';
  }

  /** The two readings of a line agree exactly on the regular lines. */
  lemma SameReadingExactlyWhenRegular(line: string)
    ensures Classified(line) == StandardClassified(line) <==> Regular(line)
  {
    FieldConstants();
    PrefixIsField(EVENT, line);
    PrefixIsField(DATA, line);
    if line != "" && line[0] != ':' {
      if EVENT_FIELD <= line {
        RegularValueIsTrimmed(line[|EVENT_FIELD|..]);
      } else if DATA_FIELD <= line {
        RegularValueIsTrimmed(line[|DATA_FIELD|..]);
      }
    } else if line != "" {
      IndexOfFirst("", ':', line[1..]);
      assert line == "" + [':'] + line[1..];
    }
  }

  // ----- Where whole streams mean the same -----

  /**
   Whether both call a block the same. The decoder goes by the last name given; the standard does
   too, unless that name is empty or older than the last blank line.
   */
  predicate SameName(name: Option<string>, stale: bool) {
    name.None? || name.value == "message" || (name.value != "" && !stale)
  }

  /**
   Every block that is dispatched is called the same by both, and the last one holds no data.
   `name` is the last name given since an event, `stale` says that a blank line followed it and
   `filled` that the block has data.
   */
  predicate SameBlocks(name: Option<string>, stale: bool, filled: bool, lines: seq<string>)
    decreases |lines|
  {
    if lines == [] then !filled
    else
      match StandardClassified(lines[0])
      case Blank =>
        if filled then SameName(name, stale) && SameBlocks(None, false, false, lines[1..])
        else SameBlocks(name, true, false, lines[1..])
      case EventField(value) => SameBlocks(Some(value), false, filled, lines[1..])
      case DataField(value) => SameBlocks(name, stale, true, lines[1..])
      case _ => SameBlocks(name, stale, filled, lines[1..])
  }

  function Buffered(pieces: seq<string>): string {
    if pieces == [] then "" else Buffered(pieces[..|pieces| - 1]) + pieces[|pieces| - 1] + "\n"
  }

  lemma {:induction false} BufferedIsJoined(pieces: seq<string>)
    requires pieces != []
    ensures Buffered(pieces) == Join(pieces, '\n') + "\n"
  {
    if |pieces| > 1 {
      var n := |pieces| - 1;
      BufferedIsJoined(pieces[..n]);
      JoinLast(pieces);
      var front := Join(pieces[..n], '\n');
      assert Buffered(pieces) == front + "\n" + pieces[n] + "\n";
    } else {
      assert pieces[..0] == [];
      assert "" + pieces[0] == pieces[0];
    }
  }

  lemma {:induction false} JoinLast(pieces: seq<string>)
    requires |pieces| > 1
    ensures Join(pieces, '\n') == Join(pieces[..|pieces| - 1], '\n') + "\n" + pieces[|pieces| - 1]
  {
    if |pieces| > 2 {
      JoinLast(pieces[1..]);
      assert pieces[1..][..|pieces| - 2] == pieces[..|pieces| - 1][1..];
    }
  }

  ghost predicate Related(block: Block, stale: bool, buffers: Buffers) {
    && buffers.eventType == (if stale then "" else block.name.GetOr(""))
    && buffers.data == Buffered(block.data)
  }

  /** Both machines dispatch at the same lines, and the same data. */
  lemma StepsTogether(block: Block, stale: bool, buffers: Buffers, kind: LineKind)
    requires Related(block, stale, buffers)
    ensures var (b, e) := Applied(block, kind);
            var (s, f) := StandardApplied(buffers, kind);
            && Related(b, if kind.Blank? then block.data == [] else stale && !kind.EventField?, s)
            && (e.Some? <==> f.Some?)
            && (e.Some? <==> kind.Blank? && block.data != [])
            && (e == f <==> (e.Some? ==> SameName(block.name, stale)))
  {
    if kind.Blank? && block.data != [] {
      BufferedIsJoined(block.data);
      var joined := Join(block.data, '\n');
      assert (joined + "\n")[..|joined|] == joined;
    }
    if kind.DataField? {
      var data := block.data + [kind.value];
      assert data[..|data| - 1] == block.data;
    }
  }

  /** What is left of a run: its events, and at its end the block that is still open. */
  function RunToTheEnd(block: Block, lines: seq<Line>): seq<Event> {
    var (last, events) := InterpretedAll(block, lines);
    events + AsSeq(Dispatched(last).1)
  }

  lemma RunStep(block: Block, lines: seq<Line>)
    requires lines != []
    ensures var (next, event) := Interpreted(block, Seen(lines[0]));
            RunToTheEnd(block, lines) == AsSeq(event) + RunToTheEnd(next, lines[1..])
  {
    var (next, event) := Interpreted(block, Seen(lines[0]));
    var (last, events) := InterpretedAll(next, lines[1..]);
    Associates(AsSeq(event), events, AsSeq(Dispatched(last).1));
  }

  lemma SameHeads(e: Option<Event>, f: Option<Event>, a: seq<Event>, b: seq<Event>)
    requires e.Some? <==> f.Some?
    ensures AsSeq(e) + a == AsSeq(f) + b <==> e == f && a == b
  {
    var s, t := AsSeq(e) + a, AsSeq(f) + b;
    var n := |AsSeq(e)|;
    assert s[n..] == a && t[n..] == b;
    if e.Some? {
      assert s[0] == e.value && t[0] == f.value;
    }
  }

  lemma {:induction false} RunsAgreeExactly(block: Block, stale: bool, buffers: Buffers, lines: seq<Line>)
    requires Related(block, stale, buffers)
    requires forall line <- lines :: SingleLine(line.text) && Regular(line.text)
    ensures RunToTheEnd(block, lines) == StandardRun(buffers, Texts(lines)) <==>
              SameBlocks(block.name, stale, block.data != [], Texts(lines))
    decreases |lines|
  {
    if lines != [] {
      var kind := StandardClassified(lines[0].text);
      SameReadingExactlyWhenRegular(lines[0].text);
      assert Seen(lines[0]) == lines[0].text;
      assert Texts(lines)[1..] == Texts(lines[1..]);
      RunStep(block, lines);
      StepsTogether(block, stale, buffers, kind);
      var (b, e) := Applied(block, kind);
      var (s, f) := StandardApplied(buffers, kind);
      SameHeads(e, f, RunToTheEnd(b, lines[1..]), StandardRun(s, Texts(lines[1..])));
      RunsAgreeExactly(b, if kind.Blank? then block.data == [] else stale && !kind.EventField?, s, lines[1..]);
    }
  }

  /**
   On a stream of regular lines the decoder gives the events of the standard exactly when every
   dispatched block has the same name in both and no data is left at the end.
   */
  lemma DecoderAgreesExactly(lossy: Lossy, lines: seq<Line>)
    requires DecodesUtf8(lossy)
    requires forall line <- lines :: SingleLine(line.text) && Regular(line.text)
    requires lines != [] && lines[0].text != "" ==> lines[0].text[0] != BYTE_ORDER_MARK
    ensures Events(lossy, StreamBytes(lines)) == StandardEvents(StreamText(lines)) <==>
              SameBlocks(None, false, false, Texts(lines))
  {
    var (last, events) := InterpretedAll(Block(None, []), lines);
    RunsAgreeExactly(Block(None, []), false, Buffers("", ""), lines);
    EventsOfLines(lossy, lines, last, events);
    StandardLinesOfStream(lines);
    if lines != [] {
      var text := StreamText(lines);
      assert text[0] == (LineText(lines[0]))[0];
      assert text[0] != BYTE_ORDER_MARK;
    }
  }

  // ----- Where they differ -----

  lemma StandardFieldLine(field: string, value: string)
    requires ':' !in field && field != ""
    ensures StandardClassified(field + ": " + value) == StandardField(field, value)
  {
    var line := field + ": " + value;
    assert line == field + [':'] + (" " + value);
    IndexOfFirst(field, ':', " " + value);
    assert line[..|field|] == field && line[|field| + 1..] == " " + value;
    assert (" " + value)[1..] == value;
  }

  lemma FieldLineText(value: string)
    ensures FieldLine(EVENT_FIELD, value).text == EVENT + ": " + value
    ensures FieldLine(DATA_FIELD, value).text == DATA + ": " + value
  {
    FieldConstants();
    assert ":" + " " == ": ";
  }

  /** The standard's run over one data line and a blank line. */
  lemma StandardDataThenBlank(value: string)
    ensures StandardRun(Buffers("", ""), [DATA + ": " + value, ""]) == [Event("message", value)]
  {
    var lines := [DATA + ": " + value, ""];
    FieldConstants();
    StandardFieldLine(DATA, value);
    var filled := Buffers("", "" + value + "\n");
    assert filled.data[..|filled.data| - 1] == value;
    assert lines[1..] == [""] && [""][1..] == [];
    assert StandardRun(filled, [""]) == [Event("message", value)] + [];
    assert [] + StandardRun(filled, [""]) == [Event("message", value)];
  }

  lemma EventsOfLines(lossy: Lossy, lines: seq<Line>, block: Block, events: seq<Event>)
    requires DecodesUtf8(lossy) && forall line <- lines :: '\n' !in line.text
    requires InterpretedAll(Block(None, []), lines) == (block, events)
    ensures Events(lossy, StreamBytes(lines)) == events + AsSeq(Dispatched(block).1)
  {
    FeedLines(lossy, Block(None, []), lines);
    assert lossy([]) == "" by {
      assert Utf8("") == [];
    }
    assert Classified("") == Blank;
    var (empty, event) := Dispatched(block);
    assert Dispatched(empty) == (empty, None);
    assert AsSeq(event) + [] == AsSeq(event);
  }

  lemma DataBlock(name: Option<string>, value: string)
    ensures InterpretedAll(Block(name, []), [FieldLine(DATA_FIELD, value), BLANK]) ==
            (Block(None, []), [Event(name.GetOr("message"), Received(value))])
  {
    assert [FieldLine(DATA_FIELD, value), BLANK] == [FieldLine(DATA_FIELD, value)] + [BLANK];
    DataStep(Block(name, []), value, [BLANK]);
    assert [] + [Received(value)] == [Received(value)];
    BlankStep(Block(name, [Received(value)]));
  }

  lemma BlankKeepsName(name: string, rest: seq<Line>)
    ensures InterpretedAll(Block(Some(name), []), [BLANK] + rest) == InterpretedAll(Block(Some(name), []), rest)
  {
    assert Classified(Seen(BLANK)) == Blank;
    assert ([BLANK] + rest)[1..] == rest;
    assert [] + InterpretedAll(Block(Some(name), []), rest).1 == InterpretedAll(Block(Some(name), []), rest).1;
  }

  function NameThenBlank(name: string, value: string): seq<Line> {
    [FieldLine(EVENT_FIELD, name)] + ([BLANK] + [FieldLine(DATA_FIELD, value), BLANK])
  }

  /** A name followed by a blank line names the next event of the decoder ... */
  lemma NameSurvivesEmptyBlock(lossy: Lossy, name: string, value: string)
    requires DecodesUtf8(lossy) && SingleLine(name) && SingleLine(value) && Clean(name) && Clean(value)
    ensures Events(lossy, StreamBytes(NameThenBlank(name, value))) == [Event(name, value)]
  {
    assert InterpretedAll(Block(None, []), NameThenBlank(name, value)) == (Block(None, []), [Event(name, value)]) by {
      CleanIsFixed(name);
      CleanIsFixed(value);
      EventStep(name, [BLANK] + [FieldLine(DATA_FIELD, value), BLANK]);
      BlankKeepsName(name, [FieldLine(DATA_FIELD, value), BLANK]);
      DataBlock(Some(name), value);
    }
    NoNewlines(name, value);
    EventsOfLines(lossy, NameThenBlank(name, value), Block(None, []), [Event(name, value)]);
    assert [Event(name, value)] + [] == [Event(name, value)];
  }

  lemma NoNewlines(name: string, value: string)
    requires SingleLine(name) && SingleLine(value)
    ensures forall line <- NameThenBlank(name, value) :: '\n' !in line.text
  {
    FieldHasNoNewline(EVENT_FIELD, name);
    FieldHasNoNewline(DATA_FIELD, value);
  }

  lemma FieldHasNoNewline(field: string, value: string)
    requires field in {EVENT_FIELD, DATA_FIELD} && SingleLine(value)
    ensures '\n' !in FieldLine(field, value).text
  {
    assert '\n' !in EVENT_FIELD && '\n' !in DATA_FIELD;
  }

  /** ... and is forgotten by the standard. */
  lemma NameForgottenByStandard(name: string, value: string)
    ensures StandardRun(Buffers("", ""), Texts(NameThenBlank(name, value))) == [Event("message", value)]
  {
    FieldLineText(name);
    FieldLineText(value);
    FieldConstants();
    StandardFieldLine(EVENT, name);
    StandardDataThenBlank(value);
    var tail := [DATA + ": " + value, ""];
    TextsOfNameThenBlank(name, value);
    assert ([EVENT + ": " + name] + ([""] + tail))[1..] == [""] + tail && ([""] + tail)[1..] == tail;
    var events := StandardRun(Buffers("", ""), tail);
    assert [] + events == events;
  }

  lemma TextsOfNameThenBlank(name: string, value: string)
    ensures Texts(NameThenBlank(name, value)) == [EVENT + ": " + name] + ([""] + [DATA + ": " + value, ""])
  {
    FieldLineText(name);
    FieldLineText(value);
    var lines := NameThenBlank(name, value);
    var rest := [FieldLine(DATA_FIELD, value), BLANK];
    assert lines[1..] == [BLANK] + rest && ([BLANK] + rest)[1..] == rest && rest[1..] == [BLANK] && [BLANK][1..] == [];
    assert Texts([BLANK]) == [""] + [];
    assert Texts(rest) == [DATA + ": " + value] + [""];
    assert Texts([BLANK] + rest) == [""] + [DATA + ": " + value, ""];
  }

  /** An unfinished last block is an event for the decoder and nothing for the standard. */
  lemma UnfinishedBlockIsAnEvent(lossy: Lossy, value: string)
    requires DecodesUtf8(lossy) && SingleLine(value) && Clean(value)
    ensures Events(lossy, StreamBytes([FieldLine(DATA_FIELD, value)])) == [Event("message", value)]
  {
    CleanIsFixed(value);
    DataStep(Block(None, []), value, []);
    assert [FieldLine(DATA_FIELD, value)] + [] == [FieldLine(DATA_FIELD, value)] && [] + [value] == [value];
    FieldHasNoNewline(DATA_FIELD, value);
    EventsOfLines(lossy, [FieldLine(DATA_FIELD, value)], Block(None, [value]), []);
  }

  lemma UnfinishedBlockIsDiscarded(value: string)
    ensures StandardRun(Buffers("", ""), [DATA + ": " + value]) == []
  {
    FieldConstants();
    StandardFieldLine(DATA, value);
    assert [DATA + ": " + value][1..] == [];
  }

  /** A second leading space is lost to the decoder; the standard's run over the same lines keeps it. */
  lemma FurtherSpacesAreLost(lossy: Lossy, value: string)
    requires DecodesUtf8(lossy) && SingleLine(value) && Clean(value)
    ensures Events(lossy, StreamBytes([FieldLine(DATA_FIELD, " " + value), BLANK])) == [Event("message", value)]
    ensures StandardRun(Buffers("", ""), [DATA + ": " + (" " + value), ""]) == [Event("message", " " + value)]
  {
    CleanIsFixed(value);
    SpaceIsTrimmed(value);
    DataBlock(None, " " + value);
    FieldHasNoNewline(DATA_FIELD, " " + value);
    EventsOfLines(lossy, [FieldLine(DATA_FIELD, " " + value), BLANK], Block(None, []), [Event("message", value)]);
    StandardDataThenBlank(" " + value);
  }

  lemma SpaceIsTrimmed(value: string)
    ensures Received(" " + value) == Received(value)
  {
    var padded := " " + value;
    if value != "" {
      assert padded[|padded| - 1] == value[|value| - 1];
      assert padded[..|padded| - 1] == " " + value[..|value| - 1];
    }
    assert StripCr(padded) == " " + StripCr(value);
    assert (" " + StripCr(value))[1..] == StripCr(value);
  }
}
