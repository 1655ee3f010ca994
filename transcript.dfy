/**
 * The transcript: the ordered list of chat messages, the patch-by-id update
 * the engine applies to one in-flight message, and the role/content history
 * sent with every streaming request.
 */
module Transcript {
  import opened Optional

  datatype Role = User | Assistant | System

  /** One message. The optional `streaming` and `error` flags are `false` when absent. */
  datatype ChatMessage = ChatMessage(
    id: string,
    role: Role,
    content: string,
    timestamp: int,
    streaming: bool,
    error: bool)

  /** A partial message: each field is either given or left as it is. */
  datatype Fields = Fields(
    id: Option<string>,
    role: Option<Role>,
    content: Option<string>,
    timestamp: Option<int>,
    streaming: Option<bool>,
    error: Option<bool>)

  /** An update: merge a partial message into the current one, or compute a replacement from it. */
  datatype Patch = Merge(fields: Fields) | Apply(f: ChatMessage -> ChatMessage)

  /** The merge `{ ...msg, ...patch }`: every given field wins, every other field is kept. */
  function MergeFields(m: ChatMessage, f: Fields): ChatMessage {
    ChatMessage(
      f.id.GetOr(m.id),
      f.role.GetOr(m.role),
      f.content.GetOr(m.content),
      f.timestamp.GetOr(m.timestamp),
      f.streaming.GetOr(m.streaming),
      f.error.GetOr(m.error))
  }

  function Patched(m: ChatMessage, p: Patch): ChatMessage {
    match p
    case Merge(f) => MergeFields(m, f)
    case Apply(f) => f(m)
  }

  function Ids(msgs: seq<ChatMessage>): set<string> {
    set i | 0 <= i < |msgs| :: msgs[i].id
  }

  /**
   * Patches every message whose id is `id` and keeps every other message as
   * it is, in place: same length, same order.
   */
  function UpdateMessage(msgs: seq<ChatMessage>, id: string, p: Patch): (r: seq<ChatMessage>)
    ensures |r| == |msgs|
    ensures forall i :: 0 <= i < |msgs| && msgs[i].id != id ==> r[i] == msgs[i]
    ensures forall i :: 0 <= i < |msgs| && msgs[i].id == id ==> r[i] == Patched(msgs[i], p)
  {
    if msgs == [] then []
    else
      var head := if msgs[0].id == id then Patched(msgs[0], p) else msgs[0];
      [head] + UpdateMessage(msgs[1..], id, p)
  }

  /** Patching an id that no message carries leaves the transcript unchanged. */
  lemma UpdateUnknownId(msgs: seq<ChatMessage>, id: string, p: Patch)
    requires id !in Ids(msgs)
    ensures UpdateMessage(msgs, id, p) == msgs
  {
    var r := UpdateMessage(msgs, id, p);
    forall i | 0 <= i < |msgs| ensures r[i] == msgs[i] {
      assert msgs[i].id in Ids(msgs);
    }
  }

  /** Patching the one message that carries `id` replaces that message and no other. */
  lemma UpdateOneMessage(msgs: seq<ChatMessage>, k: nat, p: Patch)
    requires k < |msgs|
    requires forall i :: 0 <= i < |msgs| && i != k ==> msgs[i].id != msgs[k].id
    ensures UpdateMessage(msgs, msgs[k].id, p) == msgs[k := Patched(msgs[k], p)]
  {
  }

  /** Patching commutes with appending more messages behind. */
  lemma UpdateAppend(a: seq<ChatMessage>, b: seq<ChatMessage>, id: string, p: Patch)
    ensures UpdateMessage(a + b, id, p) == UpdateMessage(a, id, p) + UpdateMessage(b, id, p)
  {
  }

  /** One entry of the history sent to the server. */
  datatype HistoryEntry = HistoryEntry(role: Role, content: string)

  /** `msgs.filter(m => m.role !== 'system').map(m => ({ role, content }))`. */
  function History(msgs: seq<ChatMessage>): (r: seq<HistoryEntry>)
    ensures |r| <= |msgs|
    ensures forall e :: e in r ==> e.role != System
  {
    if msgs == [] then []
    else if msgs[0].role == System then History(msgs[1..])
    else [HistoryEntry(msgs[0].role, msgs[0].content)] + History(msgs[1..])
  }

  /** The history of a concatenation is the concatenation of the histories. */
  lemma {:induction false} HistoryAppend(a: seq<ChatMessage>, b: seq<ChatMessage>)
    ensures History(a + b) == History(a) + History(b)
  {
    if a == [] {
      assert a + b == b;
    } else {
      assert (a + b)[0] == a[0];
      assert (a + b)[1..] == a[1..] + b;
      HistoryAppend(a[1..], b);
      if a[0].role != System {
        var e := [HistoryEntry(a[0].role, a[0].content)];
        assert e + (History(a[1..]) + History(b)) == (e + History(a[1..])) + History(b);
      }
    }
  }

  /** Without system messages, the history keeps every message's role and content, in order. */
  lemma {:induction false} HistoryWithoutSystem(msgs: seq<ChatMessage>)
    requires forall i :: 0 <= i < |msgs| ==> msgs[i].role != System
    ensures |History(msgs)| == |msgs|
    ensures forall i :: 0 <= i < |msgs| ==>
      History(msgs)[i] == HistoryEntry(msgs[i].role, msgs[i].content)
  {
    if msgs != [] {
      HistoryWithoutSystem(msgs[1..]);
    }
  }
}
