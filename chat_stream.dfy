/**
 * The `useChatStream` hook as an object: the session state it keeps and the
 * operations that change it in place. Network replies, identifiers and clock
 * readings are parameters; each method is proved to leave exactly the state
 * the matching function of StreamSpec describes.
 */
module ChatStream {
  import opened Optional
  import opened Text
  import opened Json
  import opened Transcript
  import opened Frames
  import opened InputSlots
  import opened StreamSpec

  class ChatSession {
    var messages: seq<ChatMessage>
    var status: Status
    var botSettings: Option<Json>
    var lastError: Option<string>
    var turn: nat
    /** The conversation identifier reference, kept outside React state in the hook. */
    var conversationId: Option<string>
    /** How payload and slot text is parsed and how a parsed reply renders its content. */
    const codec: Codec

    /** The state as a value. */
    function Snapshot(): Session
      reads this
    {
      Session(messages, status, turn, conversationId, botSettings, lastError)
    }

    constructor (codec: Codec)
      ensures Snapshot() == Initial && this.codec == codec
    {
      messages := [];
      status := Idle;
      botSettings := None;
      lastError := None;
      turn := 0;
      conversationId := None;
      this.codec := codec;
    }

    /** `updateAssistantMessage`: patches every message carrying `id`. */
    method UpdateAssistantMessage(id: string, patch: Patch)
      modifies this
      ensures Snapshot() == old(Snapshot()).(messages := UpdateMessage(old(messages), id, patch))
    {
      messages := UpdateMessage(messages, id, patch);
    }

    /** `finishStream`. */
    method FinishStream(id: string)
      modifies this
      ensures Snapshot() == Finish(old(Snapshot()), id)
    {
      UpdateAssistantMessage(id, StreamingOff());
      status := Ready;
      turn := turn + 1;
    }

    /** `handlePayload`; `complete` is the stream-complete flag it may raise. */
    method HandlePayload(payload: string, id: string) returns (complete: bool)
      modifies this
      ensures Step(Snapshot(), complete) == Handle(old(Snapshot()), id, payload, codec)
    {
      if payload == Done {
        FinishStream(id);
        return true;
      }
      match codec.parse(payload) {
        case Some(parsed) =>
          var content := codec.contentOf(parsed);
          if content.Some? {
            UpdateAssistantMessage(id, AppendText(content.value));
          }
        case None =>
          UpdateAssistantMessage(id, AppendText(payload));
      }
      complete := false;
    }

    /**
     * `flushBuffer`: decodes the events of `input` (all of them when
     * `finalChunk`, all but the last otherwise), handing each payload on
     * until one completes the stream; returns the carry-over.
     */
    method FlushBuffer(input: string, finalChunk: bool, id: string) returns (remainder: string, complete: bool)
      modifies this
      ensures var f := Flush(old(Snapshot()), id, input, finalChunk, codec);
        Snapshot() == f.session && complete == f.complete && remainder == f.remainder
    {
      var segments := Split(input, EventSeparator);
      if finalChunk {
        remainder := "";
      } else {
        remainder := segments[|segments| - 1];
        segments := segments[..|segments| - 1];
      }
      assert Frame(input, finalChunk) == Framed(EventsPayloads(segments), remainder);
      ghost var target := Consume(Snapshot(), id, EventsPayloads(segments), codec);
      assert segments[0..] == segments;
      complete := false;
      for i := 0 to |segments|
        invariant target == Consume(Snapshot(), id, EventsPayloads(segments[i..]), codec)
      {
        var lines := Split(segments[i], LineSeparator);
        EventsPayloadsFrom(segments, i);
        ghost var later := EventsPayloads(segments[i + 1..]);
        assert lines[0..] == lines;
        for j := 0 to |lines|
          invariant target == Consume(Snapshot(), id, LinesPayloads(lines[j..]) + later, codec)
        {
          var line := lines[j];
          LinesPayloadsFrom(lines, j);
          ghost var after := LinesPayloads(lines[j + 1..]) + later;
          Regroup(LinePayloads(line), LinesPayloads(lines[j + 1..]), later);
          ghost var before := Snapshot();
          ConsumeLine(before, id, line, after, codec);
          match LinePayload(line) {
            case Some(payload) =>
              complete := HandlePayload(payload, id);
              if complete {
                return;
              }
            case None =>
          }
        }
        assert lines[|lines|..] == [];
        assert LinesPayloads([]) + later == later;
      }
      assert segments[|segments|..] == [];
    }

    /**
     * `sendMessage`. `drawn` holds the identifiers and clock readings it
     * draws, `open` how the stream request resolves and `events` the reads of
     * the body that resolve. Returns the request body sent, if any.
     */
    method SendMessage(text: string, config: ChatFormConfig, drawn: Fresh, open: StreamOpen, events: seq<ReadEvent>)
      returns (request: Option<StreamRequest>, outcome: SendOutcome)
      modifies this
      ensures var r := Send(old(Snapshot()), text, drawn, open, events, codec);
        Snapshot() == r.session && outcome == r.outcome
      ensures request == if HasConversation(old(Snapshot())) then Some(Request(old(Snapshot()), text, config, drawn, codec.parse)) else None
    {
      if conversationId.None? || conversationId.value == "" {
        return None, NotInitialized;
      }
      var userMessage := ChatMessage(drawn.userId, User, text, drawn.userTime, false, false);
      var assistantId := drawn.assistantId;
      var assistantShell := ChatMessage(assistantId, Assistant, "", drawn.shellTime, true, false);
      var shown := messages;
      messages := messages + [userMessage, assistantShell];
      status := Streaming;
      lastError := None;

      var history := History(shown + [userMessage]);
      var index := if config.indexOverride.Some? then config.indexOverride.value else turn;
      var requestId := if config.requestId.Some? && config.requestId.value != "" then config.requestId.value else drawn.requestId;
      var slots := ParseInputSlots(config.inputSlots, codec.parse);
      request := Some(StreamRequest(conversationId.value, text, history, config.requestFrom, index,
                                    Truthy(config.customerPhone), Truthy(config.callcenterPhone), requestId, slots));

      match open
      case OpenRejected(reason) =>
        return request, TransportRejected(reason);
      case OpenNotOk(code, errorText) =>
        status := Error;
        lastError := Some(StreamFailedMessage(code, errorText));
        UpdateAssistantMessage(assistantId, ErrorPatch(errorText));
        return request, StreamRejected(errorText);
      case Opened =>
        outcome := ReadStream(assistantId, events);
    }

    /**
     * The read loop of `sendMessage` and its `catch`: reads the body of the
     * stream that fills the reply `assistantId` until it completes, is
     * aborted, fails, or no further read resolves.
     */
    method ReadStream(assistantId: string, events: seq<ReadEvent>) returns (outcome: SendOutcome)
      modifies this
      ensures var d := Drain(old(Snapshot()), assistantId, "", events, codec);
        Snapshot() == d.session && outcome == d.outcome
    {
      var buffer := "";
      var streamComplete := false;
      var i := 0;
      outcome := Pending;
      while !streamComplete
        invariant 0 <= i <= |events|
        invariant !streamComplete ==> outcome == Pending
        invariant !streamComplete ==> Drain(old(Snapshot()), assistantId, "", events, codec) == Drain(Snapshot(), assistantId, buffer, events[i..], codec)
        invariant streamComplete ==> Drain(old(Snapshot()), assistantId, "", events, codec) == Sent(Snapshot(), Completed) && outcome == Completed
        decreases |events| - i
      {
        if i == |events| {
          assert events[i..] == [];
          return;
        }
        var event := events[i];
        assert events[i..][0] == event && events[i..][1..] == events[i + 1..];
        i := i + 1;
        match event
        case Chunk(value) =>
          buffer := buffer + value;
          buffer, streamComplete := FlushBuffer(buffer, false, assistantId);
          if streamComplete {
            outcome := Completed;
          }
        case EndOfStream =>
          buffer, streamComplete := FlushBuffer(buffer, true, assistantId);
          if !streamComplete {
            FinishStream(assistantId);
            streamComplete := true;
          }
          outcome := Completed;
        case Aborted =>
          UpdateAssistantMessage(assistantId, StreamingOff());
          status := Ready;
          return Cancelled;
        case ReadFailed(errorMessage) =>
          UpdateAssistantMessage(assistantId, ErrorPatch(errorMessage));
          status := Error;
          lastError := Some(errorMessage);
          return Failed(errorMessage);
      }
    }

    /**
     * `initConversation`. `freshId` is the identifier drawn when none is
     * supplied, `reply` how the request resolves, `openingId` and `now` the
     * identifier and time of the opening message. Returns the request body.
     */
    method InitConversation(config: InitConfig, freshId: string, reply: InitReply, openingId: string, now: int)
      returns (request: InitRequest, outcome: InitOutcome)
      modifies this
      ensures var r := Init(old(Snapshot()), config, freshId, reply, openingId, now);
        Snapshot() == r.session && outcome == r.outcome
      ensures request == InitBody(config, freshId)
    {
      status := Initializing;
      lastError := None;
      turn := 0;
      var id := freshId;
      if config.conversationId.Some? {
        var trimmed := Trim(config.conversationId.value);
        if trimmed != "" {
          id := trimmed;
        }
      }
      conversationId := Some(id);
      request := InitRequest(id, Truthy(config.botId), Truthy(config.customerPhone), Truthy(config.callcenterPhone));
      match reply
      case InitUnreachable(reason) =>
        outcome := InitThrew(reason);
      case InitNotOk(code, body) =>
        status := Error;
        lastError := Some(InitFailedMessage(code, body));
        outcome := InitThrew(body);
      case InitOk(startMessage, botSetting) =>
        botSettings := Some(botSetting);
        messages := [ChatMessage(openingId, Assistant, startMessage, now, false, false)];
        status := Ready;
        outcome := Initialized(id);
    }

    /** `cancel`: a streaming session becomes ready. */
    method Cancel()
      modifies this
      ensures Snapshot() == old(Snapshot()).(status := CancelStatus(old(status)))
    {
      if status == Streaming {
        status := Ready;
      }
    }

    /** `reset`: back to the state of a new session. */
    method Reset()
      modifies this
      ensures Snapshot() == Initial
    {
      conversationId := None;
      messages := [];
      botSettings := None;
      status := Idle;
      lastError := None;
      turn := 0;
    }
  }
}
