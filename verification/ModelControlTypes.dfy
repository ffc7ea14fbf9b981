/** The model-control contract shared by the two controlled paths: descriptors,
    grants, usage and receipts. `genuine` says that an object's carried hash is the
    hash of its contents: the identity check accepts it. */
module ModelControlTypes {
  import opened Prelude

  datatype DemandMode = DirectRequest | OpaqueRuntimeEnvelope

  datatype UsageSource = Reported | ConservativeAllowance

  datatype Descriptor = Descriptor(
    genuine: bool,
    ref: Ref,
    operationRef: Ref,
    modelProfileRef: Ref,
    mode: DemandMode,
    requestAllowance: nat,
    tokenAllowance: nat,
    outputTokenAllowance: nat,
    idempotencyKey: string)

  datatype ModelGrant = ModelGrant(
    genuine: bool,
    ref: Ref,
    reservationId: string,
    handleId: string,
    descriptorRef: Ref,
    modelProfileRef: Ref,
    fencingToken: nat,
    requestAllowance: nat,
    tokenAllowance: nat,
    outputTokenLimit: nat)
  {
    /** `validate_descriptor` does not raise. */
    predicate Binds(d: Descriptor)
    {
      && descriptorRef == d.ref
      && modelProfileRef == d.modelProfileRef
      && requestAllowance == d.requestAllowance
      && tokenAllowance == d.tokenAllowance
      && outputTokenLimit == d.outputTokenAllowance
    }

    /** `validate_usage` does not raise. */
    predicate Admits(u: ModelUsage)
    {
      && u.requests <= requestAllowance
      && u.chargedTokens <= tokenAllowance
      && u.outputTokens <= outputTokenLimit
    }

    /** `ModelControlUsageV2.conservative` at the grant's full allowance. */
    function FullAllowance(): ModelUsage
    {
      ModelUsage(requestAllowance, tokenAllowance, 0, 0, 0, tokenAllowance, ConservativeAllowance)
    }
  }

  datatype ModelUsage = ModelUsage(
    requests: nat,
    inputTokens: nat,
    outputTokens: nat,
    cacheCreationTokens: nat,
    cacheReadTokens: nat,
    chargedTokens: nat,
    source: UsageSource)

  const ZERO_USAGE := ModelUsage(0, 0, 0, 0, 0, 0, Reported)

  datatype ReceiptOutcome = Succeeded | Backpressured | BlockedPolicy | BlockedCapability | Failed

  datatype CancellationOutcome = Cancelled | AlreadyFinished | CancellationFailed

  datatype CancellationRequest = CancellationRequest(
    genuine: bool,
    requestId: string,
    handleId: string,
    reservationId: string,
    fencingToken: nat)

  /** The recorded answer to a cancellation request. */
  datatype CancellationAnswer = CancellationAnswer(
    request: CancellationRequest,
    outcome: CancellationOutcome,
    completedAt: int)
}
