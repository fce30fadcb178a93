/** The three stack operations and the provider statuses that end them
    (the constants at the top of src/main/cloudformation.js). */
module Operations {

  datatype OperationKind = Create | Update | Delete

  const CreateTerminalStatuses: set<string> := {
    "CREATE_COMPLETE", "CREATE_FAILED", "ROLLBACK_COMPLETE",
    "ROLLBACK_FAILED", "DELETE_FAILED", "DELETE_COMPLETE" }

  const UpdateTerminalStatuses: set<string> := {
    "UPDATE_COMPLETE", "UPDATE_ROLLBACK_COMPLETE", "UPDATE_ROLLBACK_FAILED",
    "DELETE_FAILED", "DELETE_COMPLETE" }

  const DeleteTerminalStatuses: set<string> := { "DELETE_FAILED", "DELETE_COMPLETE" }

  /** The statuses at which polling for an operation of this kind stops.
      A stack that gets deleted ends every kind of operation. */
  function TerminalStatuses(kind: OperationKind): (r: set<string>)
    ensures {"DELETE_FAILED", "DELETE_COMPLETE"} <= r
    ensures kind == Delete ==> r == {"DELETE_FAILED", "DELETE_COMPLETE"}
  {
    match kind
    case Create => CreateTerminalStatuses
    case Update => UpdateTerminalStatuses
    case Delete => DeleteTerminalStatuses
  }

  /** The one terminal status that counts as success; it is itself terminal,
      so a successful operation does stop the polling. */
  function SuccessStatus(kind: OperationKind): (s: string)
    ensures s in TerminalStatuses(kind)
  {
    match kind
    case Create => "CREATE_COMPLETE"
    case Update => "UPDATE_COMPLETE"
    case Delete => "DELETE_COMPLETE"
  }

  /** The word used for the kind in the caller-visible failure message. */
  function Verb(kind: OperationKind): (v: string)
    // the word tells the kinds apart
    ensures v == "create" <==> kind == Create
    ensures v == "update" <==> kind == Update
    ensures v == "delete" <==> kind == Delete
  {
    match kind
    case Create => "create"
    case Update => "update"
    case Delete => "delete"
  }

  /** Different kinds succeed on different statuses. */
  lemma SuccessStatusesDistinct(k1: OperationKind, k2: OperationKind)
    ensures SuccessStatus(k1) == SuccessStatus(k2) <==> k1 == k2
  {
  }

  /** Create and update stop on disjoint statuses apart from the deletion
      statuses they share. */
  lemma CreateUpdateOverlap()
    ensures TerminalStatuses(Create) * TerminalStatuses(Update) == {"DELETE_FAILED", "DELETE_COMPLETE"}
  {
  }
}
