/** What every part of the platform says about a stored record: its type and a digest-carrying
    reference to it. */
module EvidenceTypes {

  datatype Ref = Ref(evidenceId: string, digest: string)

  datatype Kind = RawKind | SemanticKind | ContextKind | PolicyKind | CorrelationKind | TelemetryKind

  function TypeName(k: Kind): string {
    match k
    case RawKind => "synthetic_protocol_event"
    case SemanticKind => "protocol_semantic_event"
    case ContextKind => "asset_context_event"
    case PolicyKind => "communication_policy_finding"
    case CorrelationKind => "correlation_finding"
    case TelemetryKind => "simulator_telemetry"
  }
}
