/**
  The protocol's values and the validity rules every operation shares. Hexadecimal fields are the
  bytes they spell; metadata is its canonical JSON text.
 */
module Objects {
  import opened Wrappers
  import opened Binary

  const MAX_TRANSFERS_PER_BILL_PER_DAY: nat := 10
  const MAX_TRANSFER_FUTURE_SKEW_SECONDS: nat := 300
  const MAX_TRANSFER_METADATA_BYTES: nat := 256
  const SECONDS_PER_DAY: nat := 86400

  /** The cryptographic and JSON primitives everything is built on, left abstract. */
  datatype Primitives = Primitives(
    sha3: bytes -> Hash,
    verify: (Hash, bytes, bytes) -> bool,      // Ed25519: public key, signature, message
    addressOf: Hash -> bytes,                  // the address of a public key
    addressChecks: bytes -> bool,              // prefix, alphabet and checksum of an address
    jsonText: bytes -> Option<bytes>,          // the canonical text of JSON, plain or in packed form
    jsonIsObject: bytes -> bool,               // a JSON object within the structural limits
    spendDigest: SpendState -> Hash,           // SHA3 of the canonical JSON of a spent state
    conflictDigest: ConflictIdentity -> Hash,  // SHA3 of the canonical JSON of a conflict's identity
    genesisTrusted: Option<Hash> -> bool)      // local trust policy on manifest hashes

  /** The derived operations the protocol rules use. `Commitments.Standard` builds them from the
      primitives and the codec; what the rules alone imply is proved for every suite. */
  datatype Suite = Suite(
    transferHash: Transfer -> Hash,
    transferSigned: Transfer -> bool,
    addressOf: Hash -> bytes,
    validAddress: bytes -> bool,
    validMetadata: bytes -> bool,
    displayIdParts: bytes -> Option<(nat, nat)>,
    displayIdHash: bytes -> Hash,
    checkpointHash: CheckpointCore -> Hash,
    segmentHash: ArchiveSegment -> Option<Hash>,
    spendKey: SpendState -> Hash,
    conflictHash: ConflictProof -> Option<Hash>,
    conflictKey: ConflictIdentity -> Hash,
    genesisTrusted: Option<Hash> -> bool)

  /** What a verifier knows: its operations, its network and its clock. */
  datatype Context = Context(suite: Suite, networkId: nat, now: nat)

  /** The state a transfer spends; at most one transfer may spend it. */
  datatype SpendState = SpendState(tokenId: Hash, previousHash: Hash, sequence: nat, senderAddress: bytes)

  /** What makes two conflict proofs the same conflict; the two hashes are in order. */
  datatype ConflictIdentity = ConflictIdentity(
    networkId: nat, spent: SpendState, transferHashA: Hash, transferHashB: Hash)

  datatype State = State(
    sequence: nat,
    ownerAddress: bytes,
    lastTransferHash: Hash,
    lastTransferTimestamp: nat,
    lastTransferDay: nat,
    transfersInLastDay: nat,
    displayId: bytes,
    value: nat)

  datatype Transfer = Transfer(
    networkId: nat,
    signatureAlgorithm: nat,
    tokenId: Hash,
    sequence: nat,
    previousHash: Hash,
    senderAddress: bytes,
    senderPublicKey: Hash,
    recipientAddress: bytes,
    timestamp: nat,
    metadata: bytes,
    signature: bytes)
  {
    function Spends(): SpendState {
      SpendState(tokenId, previousHash, sequence, senderAddress)
    }
  }

  datatype GenesisRef = GenesisRef(
    networkId: nat,
    genesisHash: Hash,
    manifestHash: Option<Hash>,
    issuerKeyId: Option<Hash>,
    issueIndex: nat,
    issuedAt: nat)

  datatype CheckpointCore = CheckpointCore(
    networkId: nat,
    tokenId: Hash,
    genesisHash: Hash,
    sequence: nat,
    ownerAddress: bytes,
    value: nat,
    displayId: bytes,
    displayIdHash: Hash,
    lastTransferHash: Hash,
    lastTransferTimestamp: nat,
    lastTransferDay: nat,
    transfersInLastDay: nat,
    previousCheckpointHash: Option<Hash>,
    checkpointHash: Hash)
  {
    /** The replay state a checkpoint commits to. */
    function Tip(): State {
      State(sequence, ownerAddress, lastTransferHash, lastTransferTimestamp,
                  lastTransferDay, transfersInLastDay, displayId, value)
    }
  }

  datatype ArchiveSegment = ArchiveSegment(
    networkId: nat,
    tokenId: Hash,
    value: nat,
    displayId: bytes,
    genesisRef: GenesisRef,
    baseState: State,
    startSequence: nat,
    endSequence: nat,
    previousSegmentHash: Option<Hash>,
    previousCheckpointHash: Option<Hash>,
    checkpointHash: Hash,
    transfers: seq<Transfer>,
    segmentHash: Hash)

  datatype ProofBundleRef = ProofBundleRef(
    networkId: nat,
    logId: bytes,
    signedRootHash: Hash,
    treeSize: nat,
    algorithm: nat,
    bundleHash: Hash)

  datatype Bill = Bill(
    networkId: nat,
    tokenId: Hash,
    value: nat,
    genesisRef: GenesisRef,
    checkpointCore: CheckpointCore,
    proofBundleRef: ProofBundleRef,
    recentTransfers: seq<Transfer>)

  /** Two transfers that spend one state. */
  datatype ConflictProof = ConflictProof(
    networkId: nat,
    spent: SpendState,
    spendKey: Hash,
    transferHashA: Hash,
    transferHashB: Hash,
    transferA: Transfer,
    transferB: Transfer,
    detectedAt: nat,
    proofHash: Hash)

  // ------------------------------------------------------------------ validity

  /** A display id that spells `value`. */
  predicate DisplayIdHasValue(c: Suite, displayId: bytes, value: nat) {
    var parts := c.displayIdParts(displayId);
    parts.Some? && parts.value.0 == value
  }

  predicate ValidState(c: Suite, s: State) {
    c.validAddress(s.ownerAddress) && DisplayIdHasValue(c, s.displayId, s.value)
  }

  /** The shape of a transfer, including the bound on its distance into the future. */
  predicate ValidShape(ctx: Context, t: Transfer) {
    && t.networkId == ctx.networkId
    && t.signatureAlgorithm == SIGNATURE_ALGORITHM_ID
    && t.sequence >= 1
    && ctx.suite.validAddress(t.senderAddress)
    && ctx.suite.validAddress(t.recipientAddress)
    && t.timestamp <= ctx.now + MAX_TRANSFER_FUTURE_SKEW_SECONDS
    && ctx.suite.validMetadata(t.metadata)
  }

  predicate SignatureShape(t: Transfer) {
    |t.signature| == 64
  }

  /** The numbers the encoder refuses beyond 2^63-1. */
  predicate InRange(t: Transfer) {
    t.networkId <= MAX_UVARINT && t.sequence <= MAX_UVARINT && t.timestamp <= MAX_UVARINT
  }

  predicate Encodable(ctx: Context, t: Transfer) {
    ValidShape(ctx, t) && SignatureShape(t) && InRange(t)
  }

  predicate KeyMatches(c: Suite, publicKey: Hash, address: bytes) {
    c.validAddress(address) && c.addressOf(publicKey) == address
  }

  predicate ValidSignature(c: Suite, t: Transfer) {
    KeyMatches(c, t.senderPublicKey, t.senderAddress) && c.transferSigned(t)
  }

  /** The key is checked first, then the transfer is encoded, then the signature is checked. */
  function CheckAuthority(c: Suite, t: Transfer, verifySignature: bool): Result<()> {
    if !KeyMatches(c, t.senderPublicKey, t.senderAddress) then Err(BadKey) else
    :- Require(InRange(t), NotEncodable);
    :- Require(!verifySignature || c.transferSigned(t), BadSignature);
    Ok(())
  }

  predicate ValidGenesisRef(ctx: Context, g: GenesisRef) {
    g.networkId == ctx.networkId && g.issueIndex >= 1 && ctx.suite.genesisTrusted(g.manifestHash)
  }

  /** The display id spells the value, a positive denomination, and the genesis issue index. */
  predicate IssueIndexMatches(c: Suite, displayId: bytes, value: nat, issueIndex: nat) {
    c.displayIdParts(displayId) == Some((value, issueIndex)) && value >= 1
  }

  predicate ValidCheckpointCore(c: Suite, networkId: nat, core: CheckpointCore) {
    && core.networkId == networkId
    && core.sequence >= 1
    && c.validAddress(core.ownerAddress)
    && DisplayIdHasValue(c, core.displayId, core.value)
    && core.displayIdHash == c.displayIdHash(core.displayId)
    && core.transfersInLastDay >= 1
  }

  predicate CoreInRange(core: CheckpointCore) {
    && core.networkId <= MAX_UVARINT && core.sequence <= MAX_UVARINT && core.lastTransferTimestamp <= MAX_UVARINT
    && core.lastTransferDay <= MAX_UVARINT && core.transfersInLastDay <= MAX_UVARINT
  }

  /** Encoding a core validates it first. */
  predicate CoreEncodable(c: Suite, core: CheckpointCore) {
    ValidCheckpointCore(c, core.networkId, core) && CoreInRange(core)
  }

  /** Self-hashes are taken with the hash field zeroed. */
  function CheckpointCoreHash(c: Suite, core: CheckpointCore): Hash {
    c.checkpointHash(core.(checkpointHash := ZERO_HASH))
  }

  function SegmentHash(c: Suite, a: ArchiveSegment): Option<Hash> {
    c.segmentHash(a.(segmentHash := ZERO_HASH))
  }

  predicate SelfHashed(c: Suite, core: CheckpointCore) {
    core.checkpointHash == CheckpointCoreHash(c, core)
  }

  function Zeroed(core: CheckpointCore): CheckpointCore {
    core.(checkpointHash := ZERO_HASH)
  }

  /** No two of these cores share a hash without being equal. */
  predicate Distinguishes(c: Suite, cores: set<CheckpointCore>) {
    forall x, y :: x in cores && y in cores && CheckpointCoreHash(c, x) == CheckpointCoreHash(c, y) ==>
      Zeroed(x) == Zeroed(y)
  }
}
