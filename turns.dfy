/**
 * One line of transcript.jsonl: the `TurnRecord` written by the replayer and
 * read back by the feature extractor and the judge prompt builder.
 */
module Turns {
  import opened Wrappers

  datatype Role = System | User | Assistant

  /** The role as it is spelled in the transcript ("system", "user", "assistant"). */
  function RoleName(r: Role): (s: string)
    ensures s != []
  {
    match r
    case System => "system"
    case User => "user"
    case Assistant => "assistant"
  }

  datatype TurnRecord = TurnRecord(
    turnIndex: nat,
    role: Role,
    content: string,
    nodeId: Option<string>,
    phase: Option<string>)

  /**
   * A transcript row as the analysis steps read it back from transcript.jsonl.
   * `turnIndex` is `None` for a missing or non-integer `turn_index`; a missing
   * role is `""`, and `content`/`phase` are already `str(x or "")`.
   */
  datatype Row = Row(turnIndex: Option<int>, role: string, content: string, phase: string)

  /** The row a replay record reads back as. */
  function RowOf(r: TurnRecord): Row {
    Row(Some(r.turnIndex), RoleName(r.role), r.content, if r.phase.Some? then r.phase.value else "")
  }
}
