/** The row of a workflow run. */
module WorkflowRuns {
  import opened Collections
  import opened WorkflowGraphs
  import opened WorkflowWalk

  datatype RunStatus = PENDING | RUNNING | COMPLETED | FAILED | CANCELLED

  predicate Terminal(s: RunStatus)
  {
    s == COMPLETED || s == FAILED || s == CANCELLED
  }

  /** `completedAt` records whether the timestamp is set. */
  datatype RunRow = RunRow(workflowId: string, version: nat, snapshot: Option<Graph>, status: RunStatus,
                           context: Vars, currentNode: Option<string>, error: Option<string>, completedAt: bool)

  /** `message.slice(0, 1000)` */
  function Clip(message: string): string
  {
    if |message| <= 1000 then message else message[..1000]
  }

  function Begun(row: RunRow): RunRow
  {
    row.(status := RUNNING)
  }

  function Succeeded(row: RunRow, vars: Vars): RunRow
  {
    row.(status := COMPLETED, completedAt := true, currentNode := None, context := vars)
  }

  function Failed(row: RunRow, message: string): RunRow
  {
    row.(status := FAILED, completedAt := true, error := Some(Clip(message)))
  }

  /** The row is that of a failed run and holds the message, or its first 1000 characters. */
  ghost predicate RecordsError(row: RunRow, message: string)
  {
    && row.status == FAILED && row.completedAt
    && row.error.Some? && row.error.value <= message
    && |row.error.value| == (if |message| < 1000 then |message| else 1000)
  }

  function Progressed(row: RunRow, node: Node, vars: Vars): RunRow
  {
    row.(currentNode := Some(node.id), context := vars)
  }

  function Cancelled(row: RunRow): RunRow
  {
    row.(status := CANCELLED, completedAt := true)
  }

  /** What a cancel request makes of the row it reads. */
  function AfterCancel(row: RunRow): RunRow
  {
    if Terminal(row.status) then row else Cancelled(row)
  }
}
