/** The memory record that every backend stores. */
module MemoryTypes {
  import opened Prelude

  /** `Other` is any type name outside the six known ones. */
  datatype MemoryType =
    | Working | Episodic | Semantic | Procedural | Declarative | Feedback
    | Other(name: string)

  datatype PIIField = PIIField(kind: string, start: int, end: int)

  datatype AttestationRef = AttestationRef(attestationId: Uuid, agentDid: string, claim: string, timestamp: Time)

  datatype Metadata = Metadata(
    source: string,
    confidence: real,
    tags: seq<string>,
    pii: seq<PIIField>,
    attestations: seq<AttestationRef>)

  datatype Memory = Memory(
    id: Uuid,
    kind: MemoryType,
    namespace: string,
    agentDid: string,
    content: string,
    embedding: seq<real>,
    metadata: Metadata,
    validFrom: Option<Time>,
    validUntil: Option<Time>,
    distilledFrom: Option<Uuid>,
    createdAt: Time,
    updatedAt: Time)

  /** What comes back from a JSON round trip: the embedding is not encoded, absent content reads `null`. */
  function WireImage(m: Memory): Memory {
    m.(embedding := [], content := if m.content == "" then "null" else m.content)
  }
}
