/** What a worker says about tasks and about itself (src/events/outbound.ts). */
module TaskEvents {
  type TaskId = string

  datatype Stage = FirstToken | ToolInvoked

  datatype FailureClass =
    | Timeout | RateLimited | ContextLengthExceeded | InvalidInput | ModelError
    | NetworkError | GuardrailViolation | DeterminismViolation | Aborted | Unknown

  datatype Fact =
    | Accepted
    | Progress(stage: Stage)
    | Completed(outputHash: string)
    | Failed(failureClass: FailureClass)

  datatype OutboundEvent =
    | TaskEvent(taskId: TaskId, fact: Fact, ts: int)
    | WorkerDraining(ts: int)

  predicate IsCompletion(e: OutboundEvent) {
    e.TaskEvent? && e.fact.Completed?
  }
}
