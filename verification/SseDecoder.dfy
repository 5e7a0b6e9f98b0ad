/**
 The incremental decoder of Agent Builder's event stream. Chunks of bytes arrive in
 any split; complete lines are decoded and interpreted as they are found.
 */
module SseDecoding {
  import opened Text

  type Byte = b: nat | b < 256

  const LF: Byte := 10
  const CR: Byte := 13

  datatype Event = Event(name: string, data: string)

  /** The fields collected since the last dispatched event. */
  datatype Block = Block(name: Option<string>, data: seq<string>)

  /** A decoder between two bytes. */
  datatype Decoder = Decoder(pending: seq<Byte>, block: Block)

  const INITIAL := Decoder([], Block(None, []))

  // ----- The reference machine: one line, then one byte, at a time -----

  /** Hands out the event of the block, if it has data; the name stays when it has none. */
  function Dispatched(block: Block): (Block, Option<Event>) {
    if block.data == [] then (block, None)
    else (Block(None, []), Some(Event(block.name.GetOr("message"), Join(block.data, '\n'))))
  }

  datatype LineKind = Blank | Comment | EventField(value: string) | DataField(value: string) | Ignored

  const EVENT_FIELD := "event:"
  const DATA_FIELD := "data:"

  function Classified(line: string): LineKind {
    if line == "" then Blank
    else if line[0] == ':' then Comment
    else if EVENT_FIELD <= line then EventField(TrimStart(line[|EVENT_FIELD|..]))
    else if DATA_FIELD <= line then DataField(TrimStart(line[|DATA_FIELD|..]))
    else Ignored
  }

  function Applied(block: Block, kind: LineKind): (Block, Option<Event>) {
    match kind
    case Blank => Dispatched(block)
    case Comment => (block, None)
    case EventField(value) => (block.(name := Some(value)), None)
    case DataField(value) => (block.(data := block.data + [value]), None)
    case Ignored => (block, None)
  }

  function Interpreted(block: Block, line: string): (Block, Option<Event>) {
    Applied(block, Classified(line))
  }

  function WithoutCr(line: seq<Byte>): seq<Byte> {
    if line != [] && line[|line| - 1] == CR then line[..|line| - 1] else line
  }

  function AsSeq<T>(o: Option<T>): seq<T> {
    match o
    case None => []
    case Some(x) => [x]
  }

  type Lossy = seq<Byte> -> string

  function FeedByte(lossy: Lossy, d: Decoder, b: Byte): (Decoder, seq<Event>) {
    if b != LF then (d.(pending := d.pending + [b]), [])
    else
      var (block, event) := Interpreted(d.block, lossy(WithoutCr(d.pending)));
      (Decoder([], block), AsSeq(event))
  }

  /** Everything that happens while `bytes` arrive one by one. */
  function Feed(lossy: Lossy, d: Decoder, bytes: seq<Byte>): (Decoder, seq<Event>)
    decreases |bytes|
  {
    if bytes == [] then (d, [])
    else
      var (next, first) := FeedByte(lossy, d, bytes[0]);
      var (last, rest) := Feed(lossy, next, bytes[1..]);
      (last, first + rest)
  }

  /** The end of the stream: the unterminated line counts, and so does the unterminated block. */
  function Finished(lossy: Lossy, d: Decoder): (Decoder, seq<Event>) {
    var (block, event) := Interpreted(d.block, lossy(WithoutCr(d.pending)));
    var (empty, final) := Dispatched(block);
    (Decoder([], empty), AsSeq(event) + AsSeq(final))
  }

  /** The events of a whole stream. */
  function Events(lossy: Lossy, stream: seq<Byte>): seq<Event> {
    var (d, events) := Feed(lossy, INITIAL, stream);
    events + Finished(lossy, d).1
  }

  // ----- The decoder itself -----

  class SseDecoder {
    const lossy: Lossy
    var pending: seq<Byte>
    var name: Option<string>
    var data: seq<string>

    constructor (lossy: Lossy)
      ensures this.lossy == lossy && State() == INITIAL
    {
      this.lossy := lossy;
      pending, name, data := [], None, [];
    }

    function State(): Decoder
      reads this
    {
      Decoder(pending, Block(name, data))
    }

    method Dispatch() returns (event: Option<Event>)
      modifies this`name, this`data
      ensures (State().block, event) == Dispatched(old(State().block))
    {
      var lines := data;
      data := [];
      if lines != [] {
        event := Some(Event(name.GetOr("message"), Join(lines, '\n')));
        name := None;
      } else {
        event := None;
      }
    }

    method Line(line: string) returns (event: Option<Event>)
      modifies this`name, this`data
      ensures (State().block, event) == Interpreted(old(State().block), line)
    {
      if line == "" {
        event := Dispatch();
        return;
      }
      event := None;
      if line[0] == ':' {
        return;
      }
      if EVENT_FIELD <= line {
        name := Some(TrimStart(line[|EVENT_FIELD|..]));
      } else if DATA_FIELD <= line {
        data := data + [TrimStart(line[|DATA_FIELD|..])];
      }
    }

    method Push(chunk: seq<Byte>) returns (events: seq<Event>)
      requires LF !in pending
      modifies this
      ensures LF !in pending
      ensures (State(), events) == Feed(lossy, old(State()), chunk)
    {
      PushedIsFed(lossy, State(), chunk);
      ghost var fed := Feed(lossy, State(), chunk);
      pending := pending + chunk;
      events := [];
      var newline := IndexOf(pending, LF);
      while newline.Some?
        invariant newline == IndexOf(pending, LF)
        invariant Drained(lossy, State().block, pending, events) == fed
        decreases |pending|
      {
        DrainedStep(lossy, State().block, pending, events, newline.value);
        var line := pending[..newline.value];
        ghost var content := line;
        pending := pending[newline.value + 1..];
        if line != [] && line[|line| - 1] == CR {
          line := line[..|line| - 1];
        }
        assert line == WithoutCr(content);
        var event := Line(lossy(line));
        events := events + AsSeq(event);
        newline := IndexOf(pending, LF);
      }
    }

    method Finish() returns (events: seq<Event>)
      modifies this
      ensures (State(), events) == Finished(lossy, old(State()))
    {
      var line := pending;
      pending := [];
      if line != [] && line[|line| - 1] == CR {
        line := line[..|line| - 1];
      }
      var event := Line(lossy(line));
      events := AsSeq(event);
      var last := Dispatch();
      events := events + AsSeq(last);
    }
  }

  // ----- Chunks do not matter -----

  lemma {:induction false} FeedWithoutNewline(lossy: Lossy, d: Decoder, bytes: seq<Byte>)
    requires LF !in bytes
    ensures Feed(lossy, d, bytes) == (d.(pending := d.pending + bytes), [])
    decreases |bytes|
  {
    if bytes == [] {
      assert d.pending + [] == d.pending;
    } else {
      FeedWithoutNewline(lossy, d.(pending := d.pending + [bytes[0]]), bytes[1..]);
      assert d.pending + [bytes[0]] + bytes[1..] == d.pending + bytes;
      assert [] + Feed(lossy, d.(pending := d.pending + [bytes[0]]), bytes[1..]).1 == [];
    }
  }

  /** Feeding is a run of one machine: a stream can be cut anywhere. */
  lemma {:induction false} FeedConcat(lossy: Lossy, d: Decoder, a: seq<Byte>, b: seq<Byte>)
    ensures var (middle, first) := Feed(lossy, d, a);
            var (last, rest) := Feed(lossy, middle, b);
            Feed(lossy, d, a + b) == (last, first + rest)
    decreases |a|
  {
    if a == [] {
      assert a + b == b;
      assert [] + Feed(lossy, d, b).1 == Feed(lossy, d, b).1;
    } else {
      var (next, first) := FeedByte(lossy, d, a[0]);
      FeedConcat(lossy, next, a[1..], b);
      assert (a + b)[1..] == a[1..] + b;
      var (middle, more) := Feed(lossy, next, a[1..]);
      var (last, rest) := Feed(lossy, middle, b);
      Associates(first, more, rest);
    }
  }

  lemma Associates(a: seq<Event>, b: seq<Event>, c: seq<Event>)
    ensures a + (b + c) == a + b + c
  {
  }

  lemma FeedAfterPending(lossy: Lossy, d: Decoder, chunk: seq<Byte>)
    requires LF !in d.pending
    ensures Feed(lossy, d, chunk) == Feed(lossy, Decoder([], d.block), d.pending + chunk)
  {
    FeedWithoutNewline(lossy, Decoder([], d.block), d.pending);
    FeedConcat(lossy, Decoder([], d.block), d.pending, chunk);
    assert [] + d.pending == d.pending;
    assert [] + Feed(lossy, d, chunk).1 == Feed(lossy, d, chunk).1;
  }

  lemma FeedFirstLine(lossy: Lossy, block: Block, bytes: seq<Byte>, newline: nat)
    requires IndexOf(bytes, LF) == Some(newline)
    ensures var (next, event) := Interpreted(block, lossy(WithoutCr(bytes[..newline])));
            var (last, rest) := Feed(lossy, Decoder([], next), bytes[newline + 1..]);
            Feed(lossy, Decoder([], block), bytes) == (last, AsSeq(event) + rest)
  {
    NothingBeforeIndexOf(bytes, LF);
    var line, tail := bytes[..newline], bytes[newline..];
    assert bytes == line + tail && tail[0] == LF && tail[1..] == bytes[newline + 1..];
    FeedWithoutNewline(lossy, Decoder([], block), line);
    FeedConcat(lossy, Decoder([], block), line, tail);
    assert [] + line == line;
    assert [] + Feed(lossy, Decoder(line, block), tail).1 == Feed(lossy, Decoder(line, block), tail).1;
  }

  /** The drain loop's order of work: line after line, as long as there is a newline. */
  function Drained(lossy: Lossy, block: Block, pending: seq<Byte>, events: seq<Event>): (Decoder, seq<Event>)
    decreases |pending|
  {
    match IndexOf(pending, LF)
    case None => (Decoder(pending, block), events)
    case Some(newline) =>
      var (next, event) := Interpreted(block, lossy(WithoutCr(pending[..newline])));
      Drained(lossy, next, pending[newline + 1..], events + AsSeq(event))
  }

  lemma DrainedStep(lossy: Lossy, block: Block, pending: seq<Byte>, events: seq<Event>, newline: nat)
    requires IndexOf(pending, LF) == Some(newline)
    ensures var (next, event) := Interpreted(block, lossy(WithoutCr(pending[..newline])));
            Drained(lossy, block, pending, events) ==
            Drained(lossy, next, pending[newline + 1..], events + AsSeq(event))
  {
  }

  /** Draining line by line is feeding byte by byte. */
  lemma {:induction false} DrainedIsFeed(lossy: Lossy, block: Block, pending: seq<Byte>, events: seq<Event>)
    ensures var (last, rest) := Feed(lossy, Decoder([], block), pending);
            Drained(lossy, block, pending, events) == (last, events + rest)
    decreases |pending|
  {
    match IndexOf(pending, LF)
    case None =>
      FeedWithoutNewline(lossy, Decoder([], block), pending);
      assert [] + pending == pending && events + [] == events;
    case Some(newline) =>
      FeedFirstLine(lossy, block, pending, newline);
      var (next, event) := Interpreted(block, lossy(WithoutCr(pending[..newline])));
      DrainedIsFeed(lossy, next, pending[newline + 1..], events + AsSeq(event));
      var rest := Feed(lossy, Decoder([], next), pending[newline + 1..]).1;
      Associates(events, AsSeq(event), rest);
  }

  lemma PushedIsFed(lossy: Lossy, d: Decoder, chunk: seq<Byte>)
    requires LF !in d.pending
    ensures Drained(lossy, d.block, d.pending + chunk, []) == Feed(lossy, d, chunk)
  {
    FeedAfterPending(lossy, d, chunk);
    DrainedIsFeed(lossy, d.block, d.pending + chunk, []);
    assert [] + Feed(lossy, d, chunk).1 == Feed(lossy, d, chunk).1;
  }

  lemma FeedContent(lossy: Lossy, block: Block, content: seq<Byte>, rest: seq<Byte>)
    requires LF !in content
    ensures var (next, event) := Interpreted(block, lossy(WithoutCr(content)));
            var (last, more) := Feed(lossy, Decoder([], next), rest);
            Feed(lossy, Decoder([], block), content + [LF] + rest) == (last, AsSeq(event) + more)
  {
    var bytes := content + [LF] + rest;
    IndexOfFirst(content, LF, rest);
    FeedFirstLine(lossy, block, bytes, |content|);
    assert bytes[..|content|] == content && bytes[|content| + 1..] == rest;
  }

  function Flatten<T>(chunks: seq<seq<T>>): seq<T> {
    if chunks == [] then [] else chunks[0] + Flatten(chunks[1..])
  }

  lemma {:induction false} FlattenAppend<T>(chunks: seq<seq<T>>, chunk: seq<T>)
    ensures Flatten(chunks + [chunk]) == Flatten(chunks) + chunk
  {
    if chunks == [] {
      assert chunks + [chunk] == [chunk];
      assert Flatten([chunk]) == chunk + Flatten<T>([]);
    } else {
      assert (chunks + [chunk])[1..] == chunks[1..] + [chunk];
      FlattenAppend(chunks[1..], chunk);
      assert chunks[0] + (Flatten(chunks[1..]) + chunk) == chunks[0] + Flatten(chunks[1..]) + chunk;
    }
  }

  /** Decoding a stream chunk by chunk gives the events of the stream, however it was cut. */
  method DecodeChunks(lossy: Lossy, chunks: seq<seq<Byte>>) returns (events: seq<Event>)
    ensures events == Events(lossy, Flatten(chunks))
  {
    var decoder := new SseDecoder(lossy);
    events := [];
    for i := 0 to |chunks|
      invariant LF !in decoder.pending && decoder.lossy == lossy
      invariant (decoder.State(), events) == Feed(lossy, INITIAL, Flatten(chunks[..i]))
    {
      FeedConcat(lossy, INITIAL, Flatten(chunks[..i]), chunks[i]);
      FlattenAppend(chunks[..i], chunks[i]);
      assert chunks[..i + 1] == chunks[..i] + [chunks[i]];
      var more := decoder.Push(chunks[i]);
      events := events + more;
    }
    assert chunks[..|chunks|] == chunks;
    var last := decoder.Finish();
    events := events + last;
  }

  /** The end of the stream acts like two newlines, and hands out at most one event. */
  lemma FinishActsLikeTwoNewlines(lossy: Lossy, d: Decoder)
    requires lossy([]) == ""
    ensures Finished(lossy, d) == Feed(lossy, d, [LF, LF])
    ensures |Finished(lossy, d).1| <= 1
  {
    var bytes := [LF, LF];
    var (middle, first) := FeedByte(lossy, d, LF);
    var (last, second) := FeedByte(lossy, middle, LF);
    assert bytes[1..] == [LF];
    assert Feed(lossy, middle, [LF]) == (last, second + []);
    assert second + [] == second;
  }
}
