/**
 One Agent Builder turn: the events of a response stream drive a small state machine to
 one finite outcome, a completion or a failure.
 */
module AgentTurn {
  import opened Text
  import opened SseDecoding
  import Links

  // ----- Values -----

  /** A parsed JSON value; floating-point numbers and the rest of the grammar are `Other`. */
  datatype Json = Object(fields: map<string, Json>) | Str(text: string) | Integer(value: int) | Other

  datatype Usage = Usage(inputTokens: Option<nat>, outputTokens: Option<nat>)

  datatype Progress =
    | Reasoning(text: string)
    | ToolCall(toolId: string)
    | ToolProgress(text: string)
    | ToolResult(toolId: string)

  datatype Completion = Completion(conversationId: string, message: string, url: string, usage: Option<Usage>)

  datatype Failure =
    | Transport
    | Http(status: nat)
    | Protocol(event: string)
    | Remote
    | Interrupted(conversationId: Option<string>, url: Option<string>)

  /** Whether a caller may try again without asking the same question twice in one conversation. */
  predicate RetrySafe(failure: Failure) {
    !(failure.Interrupted? && failure.conversationId.Some?)
  }

  /** What one piece of the response body brings. */
  datatype Chunk = Bytes(bytes: seq<Byte>) | Broken

  datatype Response = Unreachable | Refused(status: nat) | Stream(chunks: seq<Chunk>)

  /** The functions of the surroundings: decoding, JSON parsing and URLs of the configured viewer. */
  datatype Client = Client(
    lossy: Lossy,
    parse: string -> Option<Json>,
    conversationUrl: string -> string,
    resolveLink: string -> string)

  datatype State = State(conversationId: Option<string>, message: Option<string>, usage: Option<Usage>)

  // ----- Single events -----

  datatype Kind =
    | ConversationIdSet | ReasoningKind | ToolCallKind | ToolProgressKind | ToolResultKind
    | MessageComplete | RoundComplete | ErrorKind | Unknown

  function KindOf(name: string): Kind {
    if name == "conversation_id_set" then ConversationIdSet
    else if name == "reasoning" then ReasoningKind
    else if name == "tool_call" then ToolCallKind
    else if name == "tool_progress" then ToolProgressKind
    else if name == "tool_result" then ToolResultKind
    else if name == "message_complete" then MessageComplete
    else if name == "round_complete" then RoundComplete
    else if name == "error" then ErrorKind
    else Unknown
  }

  function Get(value: Json, name: string): Option<Json> {
    if value.Object? && name in value.fields then Some(value.fields[name]) else None
  }

  /** A text member, unless it is empty. */
  function StringField(value: Json, name: string): Option<string> {
    match Get(value, name)
    case Some(Str(text)) => if text == "" then None else Some(text)
    case _ => None
  }

  function AsU64(value: Option<Json>): Option<nat> {
    match value
    case Some(Integer(n)) => if 0 <= n < 0x1_0000_0000_0000_0000 then Some(n) else None
    case _ => None
  }

  function UsageFrom(value: Option<Json>): Option<Usage> {
    match value
    case None => None
    case Some(v) =>
      var usage := Usage(AsU64(Get(v, "input_tokens")), AsU64(Get(v, "output_tokens")));
      if usage.inputTokens.Some? || usage.outputTokens.Some? then Some(usage) else None
  }

  function OrElse<T>(a: Option<T>, b: Option<T>): Option<T> {
    if a.Some? then a else b
  }

  /** The payload of an event, or nothing when its data is not JSON. */
  function Payload(client: Client, event: Event): Option<Json> {
    match client.parse(event.data)
    case None => None
    case Some(value) => Some(Get(value, "data").GetOr(value))
  }

  function FailureOf(client: Client, event: Event): Option<Failure> {
    if KindOf(event.name) == Unknown then None
    else if client.parse(event.data).None? then Some(Protocol(event.name))
    else if KindOf(event.name) == ErrorKind then Some(Remote)
    else None
  }

  function NextState(client: Client, state: State, event: Event): State {
    match Payload(client, event)
    case None => state
    case Some(payload) =>
      match KindOf(event.name)
      case ConversationIdSet =>
        state.(conversationId := OrElse(StringField(payload, "conversation_id"), state.conversationId))
      case MessageComplete => state.(message := OrElse(StringField(payload, "message_content"), state.message))
      case RoundComplete =>
        var round := Get(payload, "round");
        state.(usage := UsageFrom(if round.Some? then Get(round.value, "model_usage") else None))
      case _ => state
  }

  function ProgressOf(client: Client, event: Event): Option<Progress> {
    match Payload(client, event)
    case None => None
    case Some(payload) =>
      match KindOf(event.name)
      case ReasoningKind => MapOption(StringField(payload, "reasoning"), s => Reasoning(s))
      case ToolCallKind => MapOption(StringField(payload, "tool_id"), s => ToolCall(s))
      case ToolProgressKind => MapOption(StringField(payload, "message"), s => ToolProgress(s))
      case ToolResultKind => MapOption(StringField(payload, "tool_id"), s => ToolResult(s))
      case _ => None
  }

  function MapOption<T, U>(o: Option<T>, f: T -> U): Option<U> {
    match o
    case None => None
    case Some(x) => Some(f(x))
  }

  // ----- Lists of events -----

  /** How far a list of events gets: the state, the progress shown, and the first failure. */
  datatype Consumed = Consumed(state: State, progress: seq<Progress>, failure: Option<Failure>)

  function ConsumeAll(client: Client, state: State, events: seq<Event>): Consumed
    decreases |events|
  {
    if events == [] then Consumed(state, [], None)
    else
      match FailureOf(client, events[0])
      case Some(failure) => Consumed(state, [], Some(failure))
      case None =>
        var rest := ConsumeAll(client, NextState(client, state, events[0]), events[1..]);
        rest.(progress := AsSeq(ProgressOf(client, events[0])) + rest.progress)
  }

  function InterruptedAt(client: Client, state: State): Failure {
    Interrupted(state.conversationId, MapOption(state.conversationId, client.conversationUrl))
  }

  function Final(client: Client, state: State): Result<Completion, Failure> {
    match (state.message, state.conversationId)
    case (Some(message), Some(id)) =>
      Ok(Completion(id, Links.Resolved(client.resolveLink, message), client.conversationUrl(id), state.usage))
    case _ => Err(InterruptedAt(client, state))
  }

  // ----- The whole turn, as a function of the bytes that arrived -----

  /** The bytes up to the end of the stream or its break, and whether it broke. */
  function Arrived(chunks: seq<Chunk>): (seq<Byte>, bool) {
    if chunks == [] then ([], false)
    else
      match chunks[0]
      case Broken => ([], true)
      case Bytes(bytes) =>
        var (rest, broken) := Arrived(chunks[1..]);
        (bytes + rest, broken)
  }

  /** What the rest of a stream brings to a decoder and a turn under way. */
  function FromHere(client: Client, d: Decoder, state: State, stream: seq<Byte>, broken: bool)
    : (Result<Completion, Failure>, seq<Progress>)
  {
    var (last, events) := Feed(client.lossy, d, stream);
    var all := if broken then events else events + Finished(client.lossy, last).1;
    var consumed := ConsumeAll(client, state, all);
    (Concluded(client, consumed, broken), consumed.progress)
  }

  function Concluded(client: Client, consumed: Consumed, broken: bool): Result<Completion, Failure> {
    match consumed.failure
    case Some(failure) => Err(failure)
    case None => if broken then Err(InterruptedAt(client, consumed.state)) else Final(client, consumed.state)
  }

  function Outcome(client: Client, conversationId: Option<string>, stream: seq<Byte>, broken: bool)
    : (Result<Completion, Failure>, seq<Progress>)
  {
    FromHere(client, INITIAL, State(conversationId, None, None), stream, broken)
  }

  function Turn(client: Client, conversationId: Option<string>, response: Response)
    : (Result<Completion, Failure>, seq<Progress>)
  {
    match response
    case Unreachable => (Err(Transport), [])
    case Refused(status) => (Err(Http(status)), [])
    case Stream(chunks) =>
      var (stream, broken) := Arrived(chunks);
      Outcome(client, conversationId, stream, broken)
  }

  class StreamState {
    var conversationId: Option<string>
    var message: Option<string>
    var usage: Option<Usage>

    constructor (conversationId: Option<string>)
      ensures Value() == State(conversationId, None, None)
    {
      this.conversationId, message, usage := conversationId, None, None;
    }

    function Value(): State
      reads this
    {
      State(conversationId, message, usage)
    }

    /** Takes in one event; a failure ends the turn. */
    method Consume(client: Client, event: Event) returns (failure: Option<Failure>, shown: Option<Progress>)
      modifies this
      ensures failure == FailureOf(client, event)
      ensures failure.None? ==> Value() == NextState(client, old(Value()), event)
      ensures failure.None? ==> shown == ProgressOf(client, event)
      ensures failure.Some? ==> Value() == old(Value()) && shown.None?
    {
      failure, shown := None, None;
      var kind := KindOf(event.name);
      if kind == Unknown {
        return;
      }
      var data := client.parse(event.data);
      if data.None? {
        failure := Some(Protocol(event.name));
        return;
      }
      var payload := Get(data.value, "data").GetOr(data.value);
      match kind
      case ConversationIdSet =>
        conversationId := OrElse(StringField(payload, "conversation_id"), conversationId);
      case ReasoningKind =>
        shown := MapOption(StringField(payload, "reasoning"), s => Reasoning(s));
      case ToolCallKind =>
        shown := MapOption(StringField(payload, "tool_id"), s => ToolCall(s));
      case ToolProgressKind =>
        shown := MapOption(StringField(payload, "message"), s => ToolProgress(s));
      case ToolResultKind =>
        shown := MapOption(StringField(payload, "tool_id"), s => ToolResult(s));
      case MessageComplete =>
        message := OrElse(StringField(payload, "message_content"), message);
      case RoundComplete =>
        var round := Get(payload, "round");
        usage := UsageFrom(if round.Some? then Get(round.value, "model_usage") else None);
      case ErrorKind =>
        failure := Some(Remote);
    }

    /** Takes in events until one fails. */
    method ConsumeEach(client: Client, events: seq<Event>) returns (failure: Option<Failure>, shown: seq<Progress>)
      modifies this
      ensures Consumed(Value(), shown, failure) == ConsumeAll(client, old(Value()), events)
    {
      failure, shown := None, [];
      ghost var all := ConsumeAll(client, old(Value()), events);
      assert events[0..] == events && Shown([], all) == all;
      for i := 0 to |events|
        invariant all == Shown(shown, ConsumeAll(client, Value(), events[i..]))
        invariant failure.None?
      {
        assert events[i..][0] == events[i] && events[i..][1..] == events[i + 1..];
        ghost var earlier, state := shown, Value();
        var more: Option<Progress>;
        failure, more := Consume(client, events[i]);
        if failure.Some? {
          assert shown + [] == shown;
          return;
        }
        shown := shown + AsSeq(more);
        ShownTwice(earlier, AsSeq(more), ConsumeAll(client, Value(), events[i + 1..]));
      }
      assert shown + [] == shown;
    }
  }

  /** The same outcome after some progress was already shown. */
  function Shown(earlier: seq<Progress>, c: Consumed): Consumed {
    c.(progress := earlier + c.progress)
  }

  lemma ShownTwice(a: seq<Progress>, b: seq<Progress>, c: Consumed)
    ensures Shown(a, Shown(b, c)) == Shown(a + b, c)
  {
    assert a + (b + c.progress) == a + b + c.progress;
  }

  /** Consuming is a run: the second part of a list is reached when the first did not fail. */
  lemma {:induction false} ConsumeConcat(client: Client, state: State, a: seq<Event>, b: seq<Event>)
    ensures var first := ConsumeAll(client, state, a);
            ConsumeAll(client, state, a + b) ==
            if first.failure.Some? then first else Shown(first.progress, ConsumeAll(client, first.state, b))
    decreases |a|
  {
    if a == [] {
      assert a + b == b;
      assert Shown([], ConsumeAll(client, state, b)) == ConsumeAll(client, state, b);
    } else {
      assert (a + b)[1..] == a[1..] + b;
      if FailureOf(client, a[0]).None? {
        var next := NextState(client, state, a[0]);
        ConsumeConcat(client, next, a[1..], b);
        var first := ConsumeAll(client, next, a[1..]);
        ShownTwice(AsSeq(ProgressOf(client, a[0])), first.progress, ConsumeAll(client, first.state, b));
      }
    }
  }

  // ----- The loop over the chunks -----

  /** The turn's own order of work, chunk after chunk. */
  function Continued(client: Client, d: Decoder, state: State, shown: seq<Progress>, chunks: seq<Chunk>)
    : (Result<Completion, Failure>, seq<Progress>)
    decreases |chunks|
  {
    if chunks == [] then
      var consumed := Shown(shown, ConsumeAll(client, state, Finished(client.lossy, d).1));
      (Concluded(client, consumed, false), consumed.progress)
    else
      match chunks[0]
      case Broken => (Err(InterruptedAt(client, state)), shown)
      case Bytes(bytes) =>
        var (next, events) := Feed(client.lossy, d, bytes);
        var consumed := Shown(shown, ConsumeAll(client, state, events));
        if consumed.failure.Some? then (Err(consumed.failure.value), consumed.progress)
        else Continued(client, next, consumed.state, consumed.progress, chunks[1..])
  }

  /** A piece of the stream taken first. */
  lemma FromHereStep(client: Client, d: Decoder, state: State, bytes: seq<Byte>, rest: seq<Byte>, broken: bool)
    ensures var (next, events) := Feed(client.lossy, d, bytes);
            var first := ConsumeAll(client, state, events);
            FromHere(client, d, state, bytes + rest, broken) ==
            if first.failure.Some? then (Err(first.failure.value), first.progress)
            else After(first.progress, FromHere(client, next, first.state, rest, broken))
  {
    var (next, events) := Feed(client.lossy, d, bytes);
    var (last, later) := Feed(client.lossy, next, rest);
    var tail := if broken then later else later + Finished(client.lossy, last).1;
    FeedConcat(client.lossy, d, bytes, rest);
    Associates(events, later, Finished(client.lossy, last).1);
    ConsumeConcat(client, state, events, tail);
  }

  /** A conclusion after some progress was already shown. */
  function After(shown: seq<Progress>, outcome: (Result<Completion, Failure>, seq<Progress>))
    : (Result<Completion, Failure>, seq<Progress>)
  {
    (outcome.0, shown + outcome.1)
  }

  lemma {:induction false} ChunksDoNotMatter(client: Client, d: Decoder, state: State, shown: seq<Progress>,
                                             chunks: seq<Chunk>)
    ensures var (stream, broken) := Arrived(chunks);
            Continued(client, d, state, shown, chunks) == After(shown, FromHere(client, d, state, stream, broken))
    decreases |chunks|
  {
    if chunks == [] {
      assert [] + Finished(client.lossy, d).1 == Finished(client.lossy, d).1;
    } else if chunks[0].Broken? {
      assert shown + [] == shown;
    } else {
      var (rest, broken) := Arrived(chunks[1..]);
      FromHereStep(client, d, state, chunks[0].bytes, rest, broken);
      var (next, events) := Feed(client.lossy, d, chunks[0].bytes);
      var first := ConsumeAll(client, state, events);
      if first.failure.None? {
        ChunksDoNotMatter(client, next, first.state, shown + first.progress, chunks[1..]);
        AfterTwice(shown, first.progress, FromHere(client, next, first.state, rest, broken));
      }
    }
  }

  lemma AfterTwice(a: seq<Progress>, b: seq<Progress>, outcome: (Result<Completion, Failure>, seq<Progress>))
    ensures After(a + b, outcome) == After(a, After(b, outcome))
  {
    assert a + b + outcome.1 == a + (b + outcome.1);
  }

  lemma TurnIsContinued(client: Client, conversationId: Option<string>, chunks: seq<Chunk>)
    ensures Continued(client, INITIAL, State(conversationId, None, None), [], chunks)
         == Turn(client, conversationId, Stream(chunks))
  {
    ChunksDoNotMatter(client, INITIAL, State(conversationId, None, None), [], chunks);
    var progress := Turn(client, conversationId, Stream(chunks)).1;
    assert [] + progress == progress;
  }

  /** One turn. What comes back depends on the bytes that arrived, not on how they were cut into chunks. */
  method Ask(client: Client, conversationId: Option<string>, response: Response)
    returns (result: Result<Completion, Failure>, shown: seq<Progress>)
    ensures (result, shown) == Turn(client, conversationId, response)
    ensures response.Unreachable? ==> result == Err(Transport) && shown == []
    ensures response.Refused? ==> result == Err(Http(response.status)) && shown == []
  {
    shown := [];
    match response
    case Unreachable =>
      result := Err(Transport);
    case Refused(status) =>
      result := Err(Http(status));
    case Stream(chunks) =>
      var decoder := new SseDecoder(client.lossy);
      var state := new StreamState(conversationId);
      TurnIsContinued(client, conversationId, chunks);
      ghost var expected := Turn(client, conversationId, response);
      assert chunks[0..] == chunks;
      for i := 0 to |chunks|
        invariant LF !in decoder.pending && decoder.lossy == client.lossy
        invariant Continued(client, decoder.State(), state.Value(), shown, chunks[i..]) == expected
      {
        assert chunks[i..][0] == chunks[i] && chunks[i..][1..] == chunks[i + 1..];
        match chunks[i]
        case Broken =>
          result := Err(InterruptedAt(client, state.Value()));
          return;
        case Bytes(bytes) =>
          var events := decoder.Push(bytes);
          var failure, more := state.ConsumeEach(client, events);
          shown := shown + more;
          if failure.Some? {
            result := Err(failure.value);
            return;
          }
      }
      var last := decoder.Finish();
      var failure, more := state.ConsumeEach(client, last);
      shown := shown + more;
      result := if failure.Some? then Err(failure.value) else Final(client, state.Value());
  }

  // ----- What a turn comes to -----

  /** The names of the events that a turn takes notice of. */
  const EVENT_NAMES := {
    "conversation_id_set", "reasoning", "tool_call", "tool_progress", "tool_result", "message_complete",
    "round_complete", "error"}

  lemma NameLengths()
    ensures |"conversation_id_set"| == 19 && |"message_complete"| == 16 && |"round_complete"| == 14
    ensures |"tool_progress"| == 13 && |"tool_result"| == 11 && |"error"| == 5
    ensures |"reasoning"| == |"tool_call"| == 9 && "reasoning"[0] == 'r' && "tool_call"[0] == 't'
  {
  }

  /** Each kind of event has one name. */
  lemma KindsByName(name: string)
    ensures KindOf(name) == ConversationIdSet <==> name == "conversation_id_set"
    ensures KindOf(name) == ReasoningKind <==> name == "reasoning"
    ensures KindOf(name) == ToolCallKind <==> name == "tool_call"
    ensures KindOf(name) == ToolProgressKind <==> name == "tool_progress"
    ensures KindOf(name) == ToolResultKind <==> name == "tool_result"
    ensures KindOf(name) == MessageComplete <==> name == "message_complete"
    ensures KindOf(name) == RoundComplete <==> name == "round_complete"
    ensures KindOf(name) == ErrorKind <==> name == "error"
    ensures KindOf(name) == Unknown <==> name !in EVENT_NAMES
  {
    NameLengths();
  }

  function KnownOnly(events: seq<Event>): seq<Event>
    decreases |events|
  {
    if events == [] then []
    else (if events[0].name !in EVENT_NAMES then [] else [events[0]]) + KnownOnly(events[1..])
  }

  /** Events of unknown names can be added or removed anywhere. */
  lemma {:induction false} UnknownEventsDoNothing(client: Client, state: State, events: seq<Event>)
    ensures ConsumeAll(client, state, KnownOnly(events)) == ConsumeAll(client, state, events)
    decreases |events|
  {
    if events != [] {
      var rest := KnownOnly(events[1..]);
      KindsByName(events[0].name);
      if events[0].name !in EVENT_NAMES {
        assert KnownOnly(events) == rest;
        UnknownEventsDoNothing(client, state, events[1..]);
        var all := ConsumeAll(client, state, events[1..]);
        assert [] + all.progress == all.progress;
      } else {
        assert KnownOnly(events)[1..] == rest && KnownOnly(events)[0] == events[0];
        if FailureOf(client, events[0]).None? {
          UnknownEventsDoNothing(client, NextState(client, state, events[0]), events[1..]);
        }
      }
    }
  }

  /** What an event carries: the member `data` of its JSON text, or the whole of it. */
  predicate CarriesValue(client: Client, event: Event, payload: Json) {
    var whole := client.parse(event.data);
    && whole.Some?
    && payload == if whole.value.Object? && "data" in whole.value.fields then whole.value.fields["data"]
                  else whole.value
  }

  predicate HasMember(value: Json, name: string, member: Json) {
    value.Object? && name in value.fields && value.fields[name] == member
  }

  /** An event of this name carries a text that is not empty in this field. */
  ghost predicate CarriesText(client: Client, event: Event, name: string, field: string, text: string) {
    && event.name == name && text != ""
    && exists payload :: CarriesValue(client, event, payload) && HasMember(payload, field, Str(text))
  }

  function Carried(client: Client, event: Event, name: string, field: string): Option<string> {
    match Payload(client, event)
    case None => None
    case Some(payload) => if event.name == name then StringField(payload, field) else None
  }

  lemma CarriedExactly(client: Client, event: Event, name: string, field: string, text: string)
    ensures Carried(client, event, name, field) == Some(text) <==> CarriesText(client, event, name, field, text)
  {
    if Carried(client, event, name, field) == Some(text) {
      var payload := Payload(client, event).value;
      assert CarriesValue(client, event, payload) && HasMember(payload, field, Str(text));
    }
  }

  ghost predicate CarriesSome(client: Client, event: Event, name: string, field: string) {
    exists text :: CarriesText(client, event, name, field, text)
  }

  /** The last such text of a list of events, else what was there before. */
  function LastCarried(client: Client, events: seq<Event>, name: string, field: string, before: Option<string>)
    : Option<string>
    decreases |events|
  {
    if events == [] then before
    else
      var last := Carried(client, events[|events| - 1], name, field);
      OrElse(last, LastCarried(client, events[..|events| - 1], name, field, before))
  }

  lemma CarriesSomeExactly(client: Client, event: Event, name: string, field: string)
    ensures CarriesSome(client, event, name, field) <==> Carried(client, event, name, field).Some?
  {
    if CarriesSome(client, event, name, field) {
      var text :| CarriesText(client, event, name, field, text);
      CarriedExactly(client, event, name, field, text);
    }
    if Carried(client, event, name, field).Some? {
      CarriedExactly(client, event, name, field, Carried(client, event, name, field).value);
    }
  }

  /** The text is that of event `k - 1`, and no later event carries one; `k` is 0 when none does. */
  lemma {:induction false} LastCarriedExactly(client: Client, events: seq<Event>, name: string, field: string,
                                              before: Option<string>) returns (k: nat)
    ensures k <= |events| && forall j :: k <= j < |events| ==> !CarriesSome(client, events[j], name, field)
    ensures var last := LastCarried(client, events, name, field, before);
            if k == 0 then last == before
            else last.Some? && CarriesText(client, events[k - 1], name, field, last.value)
    decreases |events|
  {
    k := |events|;
    if events != [] {
      var last := events[k - 1];
      CarriesSomeExactly(client, last, name, field);
      if Carried(client, last, name, field).Some? {
        CarriedExactly(client, last, name, field, Carried(client, last, name, field).value);
      } else {
        k := LastCarriedExactly(client, events[..k - 1], name, field, before);
      }
    }
  }

  const ID_EVENT := "conversation_id_set"
  const ID_FIELD := "conversation_id"
  const MESSAGE_EVENT := "message_complete"
  const MESSAGE_FIELD := "message_content"

  /** An event fails a turn: one of the known names whose text is not JSON, or an error. */
  predicate Fails(client: Client, event: Event) {
    (event.name in EVENT_NAMES && client.parse(event.data).None?) || event.name == "error"
  }

  lemma FailsExactly(client: Client, event: Event)
    ensures FailureOf(client, event).Some? <==> Fails(client, event)
    ensures FailureOf(client, event) == Some(Remote) <==>
              event.name == "error" && client.parse(event.data).Some?
    ensures FailureOf(client, event) == Some(Protocol(event.name)) <==>
              event.name in EVENT_NAMES && client.parse(event.data).None?
  {
    KindsByName(event.name);
  }

  ghost predicate NoFailure(client: Client, events: seq<Event>) {
    forall k :: 0 <= k < |events| ==> !Fails(client, events[k])
  }

  lemma {:induction false} StateOfRun(client: Client, state: State, events: seq<Event>)
    requires NoFailure(client, events)
    ensures var c := ConsumeAll(client, state, events);
            && c.failure.None?
            && c.state.conversationId ==
               LastCarried(client, events, ID_EVENT, ID_FIELD, state.conversationId)
            && c.state.message == LastCarried(client, events, MESSAGE_EVENT, MESSAGE_FIELD, state.message)
    decreases |events|
  {
    if events != [] {
      var front, last := events[..|events| - 1], events[|events| - 1];
      assert events == front + [last];
      assert NoFailure(client, front) by {
        assert forall k :: 0 <= k < |front| ==> front[k] == events[k];
      }
      StateOfRun(client, state, front);
      ConsumeConcat(client, state, front, [last]);
      ConsumeOne(client, ConsumeAll(client, state, front).state, last);
    }
  }

  lemma ConsumeOne(client: Client, state: State, event: Event)
    requires !Fails(client, event)
    ensures var c := ConsumeAll(client, state, [event]);
            && c.failure.None?
            && c.state.conversationId == OrElse(Carried(client, event, ID_EVENT, ID_FIELD), state.conversationId)
            && c.state.message == OrElse(Carried(client, event, MESSAGE_EVENT, MESSAGE_FIELD), state.message)
  {
    FailsExactly(client, event);
    KindsByName(event.name);
    assert [event][1..] == [];
  }

  lemma {:induction false} FailureOfRun(client: Client, state: State, events: seq<Event>)
    ensures ConsumeAll(client, state, events).failure.None? <==> NoFailure(client, events)
    decreases |events|
  {
    if events != [] {
      FailsExactly(client, events[0]);
    }
    if events != [] && FailureOf(client, events[0]).None? {
      FailureOfRun(client, NextState(client, state, events[0]), events[1..]);
      assert events == [events[0]] + events[1..];
    }
  }

  /** The failure of a run is that of its first event to fail. */
  lemma {:induction false} FirstFailure(client: Client, state: State, events: seq<Event>) returns (k: nat)
    requires ConsumeAll(client, state, events).failure.Some?
    ensures k < |events| && NoFailure(client, events[..k])
    ensures FailureOf(client, events[k]) == ConsumeAll(client, state, events).failure
    decreases |events|
  {
    FailsExactly(client, events[0]);
    if FailureOf(client, events[0]).Some? {
      k := 0;
    } else {
      var i := FirstFailure(client, NextState(client, state, events[0]), events[1..]);
      k := i + 1;
      assert events[..k] == [events[0]] + events[1..][..i];
    }
  }

  /**
   A turn over an unbroken stream completes exactly when no known event is malformed or an error, some
   message arrived and the conversation is known; it then reports the last of each.
   */
  lemma CompletesExactly(client: Client, conversationId: Option<string>, stream: seq<Byte>)
    ensures var events := Events(client.lossy, stream);
            var id := LastCarried(client, events, ID_EVENT, ID_FIELD, conversationId);
            var message := LastCarried(client, events, MESSAGE_EVENT, MESSAGE_FIELD, None);
            var result := Outcome(client, conversationId, stream, false).0;
            && (result.Ok? <==> NoFailure(client, events) && id.Some? && message.Some?)
            && (result.Ok? ==> && result.value.conversationId == id.value
                               && result.value.url == client.conversationUrl(id.value)
                               && result.value.message == Links.Resolved(client.resolveLink, message.value))
  {
    var events := Events(client.lossy, stream);
    var state := State(conversationId, None, None);
    FailureOfRun(client, state, events);
    if NoFailure(client, events) {
      StateOfRun(client, state, events);
    }
  }

  // ----- Usage and progress -----

  const ROUND_EVENT := "round_complete"

  /** The usage that an event carries: the member `model_usage` of the member `round` of its value. */
  ghost predicate CarriesUsage(client: Client, event: Event, usage: Json) {
    exists payload, round ::
      && CarriesValue(client, event, payload) && HasMember(payload, "round", round)
      && HasMember(round, "model_usage", usage)
  }

  /** An unsigned 64-bit number under this name in the usage that an event carries. */
  ghost predicate CarriesCount(client: Client, event: Event, name: string, n: nat) {
    && n < 0x1_0000_0000_0000_0000
    && exists usage :: CarriesUsage(client, event, usage) && HasMember(usage, name, Integer(n))
  }

  /** Each count under its own name, and nothing when there is neither. */
  ghost predicate IsUsageOf(client: Client, event: Event, usage: Option<Usage>) {
    && (usage.Some? ==> usage.value.inputTokens.Some? || usage.value.outputTokens.Some?)
    && (forall n: nat :: usage.Some? && usage.value.inputTokens == Some(n) <==>
                    CarriesCount(client, event, "input_tokens", n))
    && (forall n: nat :: usage.Some? && usage.value.outputTokens == Some(n) <==>
                    CarriesCount(client, event, "output_tokens", n))
  }

  function UsageIn(client: Client, event: Event): Option<Usage> {
    match Payload(client, event)
    case None => None
    case Some(payload) =>
      var round := Get(payload, "round");
      UsageFrom(if round.Some? then Get(round.value, "model_usage") else None)
  }

  lemma CountExactly(client: Client, event: Event, name: string, n: nat)
    ensures CarriesCount(client, event, name, n) <==>
              && Payload(client, event).Some? && Get(Payload(client, event).value, "round").Some?
              && Get(Get(Payload(client, event).value, "round").value, "model_usage").Some?
              && AsU64(Get(Get(Get(Payload(client, event).value, "round").value, "model_usage").value, name))
                 == Some(n)
  {
    if CarriesCount(client, event, name, n) {
      var usage :| CarriesUsage(client, event, usage) && HasMember(usage, name, Integer(n));
      var payload, round :| CarriesValue(client, event, payload) && HasMember(payload, "round", round)
                            && HasMember(round, "model_usage", usage);
    } else if Payload(client, event).Some? && Get(Payload(client, event).value, "round").Some? {
      var payload := Payload(client, event).value;
      var round := Get(payload, "round").value;
      if Get(round, "model_usage").Some? {
        var usage := Get(round, "model_usage").value;
        assert CarriesValue(client, event, payload) && HasMember(payload, "round", round);
        assert HasMember(round, "model_usage", usage);
        assert CarriesUsage(client, event, usage);
        assert !HasMember(usage, name, Integer(n)) || n >= 0x1_0000_0000_0000_0000;
      }
    }
  }

  lemma UsageInExactly(client: Client, event: Event)
    ensures IsUsageOf(client, event, UsageIn(client, event))
  {
    var usage := UsageIn(client, event);
    forall n: nat
      ensures usage.Some? && usage.value.inputTokens == Some(n) <==> CarriesCount(client, event, "input_tokens", n)
      ensures usage.Some? && usage.value.outputTokens == Some(n) <==> CarriesCount(client, event, "output_tokens", n)
    {
      CountExactly(client, event, "input_tokens", n);
      CountExactly(client, event, "output_tokens", n);
    }
  }

  lemma RoundOfOne(client: Client, state: State, event: Event)
    requires !Fails(client, event)
    ensures ConsumeAll(client, state, [event]).state.usage ==
            if event.name == ROUND_EVENT then UsageIn(client, event) else state.usage
  {
    FailsExactly(client, event);
    KindsByName(event.name);
    assert [event][1..] == [];
  }

  lemma UsageOfLonger(client: Client, state: State, front: seq<Event>, last: Event)
    requires NoFailure(client, front) && !Fails(client, last)
    ensures ConsumeAll(client, state, front + [last]).state.usage ==
            if last.name == ROUND_EVENT then UsageIn(client, last) else ConsumeAll(client, state, front).state.usage
  {
    FailureOfRun(client, state, front);
    ConsumeConcat(client, state, front, [last]);
    RoundOfOne(client, ConsumeAll(client, state, front).state, last);
  }

  /** The number of events up to and with the last that ends a round; 0 when none does. */
  function LastRound(events: seq<Event>): (k: nat)
    ensures k <= |events|
    decreases |events|
  {
    if events == [] then 0
    else if events[|events| - 1].name == ROUND_EVENT then |events|
    else LastRound(events[..|events| - 1])
  }

  lemma {:induction false} LastRoundIsLast(events: seq<Event>)
    ensures var k := LastRound(events);
            && (k > 0 ==> events[k - 1].name == ROUND_EVENT)
            && forall j :: k <= j < |events| ==> events[j].name != ROUND_EVENT
    decreases |events|
  {
    if events != [] && events[|events| - 1].name != ROUND_EVENT {
      LastRoundIsLast(events[..|events| - 1]);
    }
  }

  /** The usage after a run is that of the last event that ends a round. */
  lemma {:induction false} UsageOfRun(client: Client, state: State, events: seq<Event>)
    requires NoFailure(client, events)
    ensures ConsumeAll(client, state, events).state.usage ==
            if LastRound(events) == 0 then state.usage else UsageIn(client, events[LastRound(events) - 1])
    decreases |events|
  {
    if events != [] {
      var front, last := events[..|events| - 1], events[|events| - 1];
      FrontOfRun(client, events);
      UsageOfLonger(client, state, front, last);
      if last.name != ROUND_EVENT {
        UsageOfRun(client, state, front);
      }
    }
  }

  lemma FrontOfRun(client: Client, events: seq<Event>)
    requires NoFailure(client, events) && events != []
    ensures var front, last := events[..|events| - 1], events[|events| - 1];
            NoFailure(client, front) && !Fails(client, last) && events == front + [last]
  {
    assert forall j :: 0 <= j < |events| - 1 ==> events[..|events| - 1][j] == events[j];
  }

  /** What an event shows: the text or the tool that the four progress events carry. */
  ghost predicate Shows(client: Client, event: Event, progress: Progress) {
    match progress
    case Reasoning(text) => CarriesText(client, event, "reasoning", "reasoning", text)
    case ToolCall(id) => CarriesText(client, event, "tool_call", "tool_id", id)
    case ToolProgress(text) => CarriesText(client, event, "tool_progress", "message", text)
    case ToolResult(id) => CarriesText(client, event, "tool_result", "tool_id", id)
  }

  lemma ShowsExactly(client: Client, event: Event, progress: Progress)
    ensures ProgressOf(client, event) == Some(progress) <==> Shows(client, event, progress)
  {
    KindsByName(event.name);
    match progress
    case Reasoning(text) => CarriedExactly(client, event, "reasoning", "reasoning", text);
    case ToolCall(id) => CarriedExactly(client, event, "tool_call", "tool_id", id);
    case ToolProgress(text) => CarriedExactly(client, event, "tool_progress", "message", text);
    case ToolResult(id) => CarriedExactly(client, event, "tool_result", "tool_id", id);
  }

  /** The progress of the events, in their order. */
  ghost predicate ShownInOrder(client: Client, events: seq<Event>, shown: seq<Progress>)
    decreases |events|
  {
    if events == [] then shown == []
    else if exists p :: Shows(client, events[0], p) then
      shown != [] && Shows(client, events[0], shown[0]) && ShownInOrder(client, events[1..], shown[1..])
    else ShownInOrder(client, events[1..], shown)
  }

  /** A run shows the progress of the events before the first that fails, or of all of them. */
  lemma {:induction false} ProgressOfRun(client: Client, state: State, events: seq<Event>)
    requires NoFailure(client, events)
    ensures ShownInOrder(client, events, ConsumeAll(client, state, events).progress)
    decreases |events|
  {
    if events != [] {
      var event, next := events[0], NextState(client, state, events[0]);
      FailsExactly(client, event);
      ProgressOfRun(client, next, events[1..]);
      var rest := ConsumeAll(client, next, events[1..]).progress;
      var own := ProgressOf(client, event);
      if own.Some? {
        ShowsExactly(client, event, own.value);
        assert ([own.value] + rest)[1..] == rest;
      } else {
        forall p
          ensures !Shows(client, event, p)
        {
          ShowsExactly(client, event, p);
        }
        assert [] + rest == rest;
      }
    }
  }

  lemma {:induction false} ProgressBeforeFailure(client: Client, state: State, events: seq<Event>, k: nat)
    requires k < |events| && NoFailure(client, events[..k]) && Fails(client, events[k])
    ensures ConsumeAll(client, state, events).progress == ConsumeAll(client, state, events[..k]).progress
    ensures ConsumeAll(client, state, events).failure == FailureOf(client, events[k])
  {
    assert events == events[..k] + events[k..];
    FailsExactly(client, events[k]);
    FailureOfRun(client, state, events[..k]);
    ConsumeConcat(client, state, events[..k], events[k..]);
    var c := ConsumeAll(client, state, events[..k]);
    assert c.progress + [] == c.progress;
  }

  /** What a turn reports besides its answer: the usage of its last round, and its progress in order. */
  lemma ReportsExactly(client: Client, conversationId: Option<string>, stream: seq<Byte>) returns (k: nat)
    requires Outcome(client, conversationId, stream, false).0.Ok?
    ensures var events := Events(client.lossy, stream);
            var (result, shown) := Outcome(client, conversationId, stream, false);
            && k <= |events| && (forall j :: k <= j < |events| ==> events[j].name != ROUND_EVENT)
            && (if k == 0 then result.value.usage == None
                else events[k - 1].name == ROUND_EVENT && IsUsageOf(client, events[k - 1], result.value.usage))
            && ShownInOrder(client, events, shown)
  {
    var events, state := Events(client.lossy, stream), State(conversationId, None, None);
    FailureOfRun(client, state, events);
    UsageOfRun(client, state, events);
    k := LastRound(events);
    LastRoundIsLast(events);
    if k > 0 {
      UsageInExactly(client, events[k - 1]);
    }
    ProgressOfRun(client, state, events);
  }

  lemma FailuresAreNotInterruptions(client: Client, state: State, events: seq<Event>)
    ensures var failure := ConsumeAll(client, state, events).failure;
            failure.Some? ==> !failure.value.Interrupted?
  {
    if ConsumeAll(client, state, events).failure.Some? {
      var k := FirstFailure(client, state, events);
    }
  }

  /** The conversation that was cut off, if it is known, with its URL. */
  predicate IsInterruption(client: Client, failure: Failure, id: Option<string>) {
    match id
    case None => failure == Interrupted(None, None)
    case Some(text) => failure == Interrupted(Some(text), Some(client.conversationUrl(text)))
  }

  lemma UnsafeConclusions(client: Client, conversationId: Option<string>, events: seq<Event>, broken: bool)
    ensures var id := LastCarried(client, events, ID_EVENT, ID_FIELD, conversationId);
            var message := LastCarried(client, events, MESSAGE_EVENT, MESSAGE_FIELD, None);
            var result := Concluded(client, ConsumeAll(client, State(conversationId, None, None), events), broken);
            && (result.Err? && !RetrySafe(result.error) <==>
                NoFailure(client, events) && id.Some? && (broken || message.None?))
            && (result.Err? && NoFailure(client, events) ==> IsInterruption(client, result.error, id))
            && (result.Err? && !RetrySafe(result.error) ==> NoFailure(client, events))
  {
    var state := State(conversationId, None, None);
    FailureOfRun(client, state, events);
    FailuresAreNotInterruptions(client, state, events);
    if NoFailure(client, events) {
      StateOfRun(client, state, events);
    }
  }

  /** Retrying is unsafe exactly when no event failed and a known conversation was cut off or left without an answer. */
  lemma UnsafeRetriesExactly(client: Client, conversationId: Option<string>, stream: seq<Byte>, broken: bool)
    ensures var events := if broken then Feed(client.lossy, INITIAL, stream).1 else Events(client.lossy, stream);
            var id := LastCarried(client, events, ID_EVENT, ID_FIELD, conversationId);
            var message := LastCarried(client, events, MESSAGE_EVENT, MESSAGE_FIELD, None);
            var result := Outcome(client, conversationId, stream, broken).0;
            && (result.Err? && !RetrySafe(result.error) <==>
                NoFailure(client, events) && id.Some? && (broken || message.None?))
            && (result.Err? && NoFailure(client, events) ==> IsInterruption(client, result.error, id))
  {
    var events := if broken then Feed(client.lossy, INITIAL, stream).1 else Events(client.lossy, stream);
    UnsafeConclusions(client, conversationId, events, broken);
  }
}
