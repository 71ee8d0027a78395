/** Session statuses, event classes and the decision the commit notifier takes. */
module Events {
  import opened Text

  datatype Status = Ongoing | Awaiting | Idle | Concluded | Crashed | Cancelled

  /** The finished states; the same three are the ones an environment message cannot revive. */
  predicate Terminal(s: Status) {
    s.Concluded? || s.Crashed? || s.Cancelled?
  }

  datatype Event =
    | UserEvent
    | MessageEvent(fromEnvironment: bool)
    | ChildResultEvent(child: string, verdict: Status)
    | RecoverEvent
    | ToolResultEvent
    | SystemEvent
    | AssistantEvent(toolCalls: nat)

  /** `db.IsInput`: whether an event revives a dormant session. */
  predicate IsInput(e: Event) {
    match e
    case UserEvent => true
    case MessageEvent(_) => true
    case ChildResultEvent(_, verdict) => verdict.Concluded?
    case RecoverEvent => true
    case _ => false
  }

  /** `db.IsSpine`: what crash recovery resumes. */
  predicate IsSpine(status: Status, parent: string) {
    match status
    case Ongoing => true
    case Awaiting => true
    case Crashed => parent == ""
    case _ => false
  }

  predicate IsNoToolAssistant(e: Event) {
    e.AssistantEvent? && e.toolCalls == 0
  }

  /** Whether a committed event starts a goroutine for a session that has none; `status` is
      what the status function reports, if there is one and the session can be read. */
  predicate Revives(e: Event, status: Option<Status>) {
    && IsInput(e)
    && !(e.MessageEvent? && e.fromEnvironment && status.Some? && Terminal(status.value))
  }
}
