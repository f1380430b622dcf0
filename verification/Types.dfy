/** The gateway's shared enumerations and records. */
module Types {
  // Identifiers are opaque: the code only ever compares them for equality.
  type SessionId(==, !new)
  type AgentId(==, !new)
  type BackendId(==, !new)

  /** A reading of the monotonic clock, in seconds. */
  type Time = real

  /** The weight of a (session, backend) pair; which hash computes it does not matter. */
  type Score = (SessionId, BackendId) -> nat

  datatype Option<+T> = None | Some(value: T)

  datatype Tier = Small | Big | Auto

  datatype BackendStatus = Healthy | Degraded | Down

  datatype BackendInfo = BackendInfo(
    id: BackendId,
    tier: Tier,
    baseUrl: string,
    gpu: int,
    maxInflight: int,
    model: string,
    status: BackendStatus)
}
