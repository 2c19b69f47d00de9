/**
 * The rows of `ingest_turns` and `ingest_fragments`, and the queries that read them.
 *
 * Row ids are positions: both tables use AUTOINCREMENT keys, nothing is ever deleted, and a rolled
 * back insert gives its key back, so the n-th committed row has the n-th key.
 */
module Tables {
  import opened Options

  /** An RFC 3339 timestamp; the SQL compares the strings, whose order is the order of time. */
  type Time = int

  datatype Status = Open | Finalized | Processing | Stored | Aborted | Failed | Exhausted

  datatype Terminality = Unmarked | Soft | Hard {
    function Rank(): nat {
      match this
      case Unmarked => 0
      case Soft => 1
      case Hard => 2
    }
  }

  datatype Body =
    | UserMessage(text: string)
    | AssistantMessage(text: string)
    | ToolCall(name: string, input: string)
    | ToolResult(name: string, output: string)
    | Thinking(text: string)
    | Other

  datatype Step =
    | CallStep(name: string, input: string)
    | ResultStep(name: string, output: string)
    | ThinkingStep(text: string)

  datatype Projection = Projection(userMessage: string, assistantReply: string, steps: seq<Step>)

  const EMPTY_PROJECTION := Projection("", "", [])

  datatype Turn = Turn(
    conversation: string,
    external: Option<string>,
    index: nat,
    status: Status,
    projection: Projection,
    terminality: Terminality,
    finalizedAt: Option<Time>,
    attempts: nat,
    lastError: Option<string>,
    nextAttemptAt: Option<Time>,
    processingStartedAt: Option<Time>,
    storedAt: Option<Time>)

  datatype Fragment = Fragment(
    id: nat,
    fragmentId: string,
    conversation: string,
    turn: nat,
    hint: Option<nat>,
    terminality: Terminality,
    body: Body)

  datatype Tables = Tables(turns: seq<Turn>, fragments: seq<Fragment>)

  /** The table CHECK that ties a turn's status to its four nullable timestamps. */
  predicate RowCheck(t: Turn) {
    match t.status
    case Open => t.finalizedAt.None? && t.nextAttemptAt.None? && t.processingStartedAt.None? && t.storedAt.None?
    case Finalized => t.finalizedAt.Some? && t.nextAttemptAt.Some? && t.processingStartedAt.None? && t.storedAt.None?
    case Processing => t.finalizedAt.Some? && t.nextAttemptAt.Some? && t.processingStartedAt.Some? && t.storedAt.None?
    case Stored => t.finalizedAt.Some? && t.nextAttemptAt.None? && t.processingStartedAt.None? && t.storedAt.Some?
    case Aborted => t.finalizedAt.None? && t.nextAttemptAt.None? && t.processingStartedAt.None? && t.storedAt.None?
    case Failed => t.finalizedAt.Some? && t.nextAttemptAt.None? && t.processingStartedAt.None? && t.storedAt.None?
    case Exhausted => t.finalizedAt.Some? && t.nextAttemptAt.None? && t.processingStartedAt.None? && t.storedAt.None?
  }

  /** The turn a delivery with `external` as its turn id belongs to. */
  function FindExternal(turns: seq<Turn>, conversation: string, external: string): (r: Option<nat>)
    ensures r.Some? ==> r.value < |turns| && turns[r.value].conversation == conversation
                        && turns[r.value].external == Some(external)
    ensures r.None? ==>
              forall i :: 0 <= i < |turns| && turns[i].conversation == conversation
                ==> turns[i].external != Some(external)
  {
    if turns == [] then None
    else
      var last := |turns| - 1;
      if turns[last].conversation == conversation && turns[last].external == Some(external) then Some(last)
      else FindExternal(turns[..last], conversation, external)
  }

  predicate OpenInternal(t: Turn, conversation: string) {
    t.conversation == conversation && t.status.Open? && t.external.None?
  }

  function FindOpen(turns: seq<Turn>, conversation: string): (r: Option<nat>)
    ensures r.Some? ==> r.value < |turns| && OpenInternal(turns[r.value], conversation)
    ensures r.None? ==> forall i :: 0 <= i < |turns| ==> !OpenInternal(turns[i], conversation)
  {
    if turns == [] then None
    else
      var last := |turns| - 1;
      if OpenInternal(turns[last], conversation) then Some(last) else FindOpen(turns[..last], conversation)
  }

  /** The turn holding `index` in a conversation. */
  function FindIndex(turns: seq<Turn>, conversation: string, index: nat): (r: Option<nat>)
    ensures r.Some? ==> r.value < |turns|
                        && turns[r.value].conversation == conversation && turns[r.value].index == index
    ensures r.None? ==>
              forall i :: 0 <= i < |turns| && turns[i].conversation == conversation ==> turns[i].index != index
  {
    if turns == [] then None
    else
      var last := |turns| - 1;
      if turns[last].conversation == conversation && turns[last].index == index then Some(last)
      else FindIndex(turns[..last], conversation, index)
  }

  function FindFragment(fragments: seq<Fragment>, fragmentId: string): (r: Option<nat>)
    ensures r.Some? ==> r.value < |fragments| && fragments[r.value].fragmentId == fragmentId
    ensures r.None? ==> forall i :: 0 <= i < |fragments| ==> fragments[i].fragmentId != fragmentId
  {
    if fragments == [] then None
    else
      var last := |fragments| - 1;
      if fragments[last].fragmentId == fragmentId then Some(last) else FindFragment(fragments[..last], fragmentId)
  }

  predicate HasFragments(fragments: seq<Fragment>, turn: nat) {
    exists k :: 0 <= k < |fragments| && fragments[k].turn == turn
  }

  /** `COALESCE(MAX(turn_index), 0)` over a conversation. */
  function MaxIndex(turns: seq<Turn>, conversation: string): (m: nat)
    ensures forall i :: 0 <= i < |turns| && turns[i].conversation == conversation ==> turns[i].index <= m
    ensures m == 0 || exists i :: 0 <= i < |turns| && turns[i].conversation == conversation && turns[i].index == m
  {
    if turns == [] then 0
    else
      var last := turns[|turns| - 1];
      var m := MaxIndex(turns[..|turns| - 1], conversation);
      if last.conversation == conversation && last.index > m then last.index else m
  }
}
