/** Payloads and the durable row record (packages/queue/src/persist/contracts.ts). */
module Records {
  import opened Options

  /** Application data; the queue never looks inside. */
  type Payload(==, !new)

  /** An item is a job envelope with an application id, or any other payload. */
  datatype Item = Job(jobId: string, enqueuedAt: real, payload: Payload) | Plain(payload: Payload)

  /** `attempt` and `handoff` are absent until they leave their defaults 1 and 0. */
  datatype Record = Record(
    id: nat, item: Item, availableAt: real,
    lease: Option<nat>, leaseExpiresAt: Option<real>,
    attempt: Option<int>, handoff: Option<int>)
}
