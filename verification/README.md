# IND bill chain: a verified model

This project models the BillV3 protocol of IND and the node state around it, in Dafny, and proves what the
protocol is for. A bill is a numbered banknote whose owner changes by signed transfers. Its history can be carried
whole, cut into linked archive segments, or compacted behind a checkpoint that a transparency log vouches for. The
main results say exactly what each verdict accepts, that these forms mean the same thing, when two branches of one
history are found and proven, how much of a history one hash fixes, that the genesis manifest issues each serial once,
and that the node's limits hold over every run.

## How it is organised

| file | what it holds |
|---|---|
| `Wrappers.dfy` | options, results and the reasons for refusal |
| `Binary.dfy`, `Fields.dfy`, `Codec.dfy`, `DisplayId.dfy` | varints (minimal unsigned LEB128, DWARF 5 section 7.6), bounded fields, the reader, the layout of every object, and display ids |
| `Objects.dfy` | the protocol's values and their validity rules; the operations the rules use (`Suite`) |
| `Layouts.dfy` | the bytes of every object, part by part |
| `Commitments.dfy` | the suite the code uses, and what its hashes and signatures commit to |
| `Replay.dfy` | folding transfers over a state |
| `Segments.dfy`, `Limits.dfy` | archive segments: building, verifying, cutting, and the size limit |
| `Bundles.dfy`, `Bills.dfy` | proof bundles, compact bills, the cached path, making transfers |
| `Conflicts.dfy`, `Forks.dfy` | conflict proofs and where two histories part |
| `Pins.dfy` | how much one hash fixes: a whole archive, a whole history |
| `Meaning.dfy`, `Verdicts.dfy` | what acceptance of transfers, archives, bills, orders and conflicts means in plain terms |
| `Genesis.dfy` | the fixed supply, manifests and first states |
| `RateLimit.dfy`, `RateBounds.dfy` | token buckets and their bounds |
| `Gossip.dfy`, `Ingest.dfy`, `IngestQueue.dfy` | connections, seen keys and the pool; a message's attempts; messages that wait for theirs |
| `Settlement.dfy` | peer settlement |
| `Witnesses.dfy` | concrete runs of the conditions the theorems turn on |

Rules about replay, segments, bundles and bills are proved for every `Suite` of operations. `Commitments.Standard`
builds the one the code uses from SHA3, Ed25519 (RFC 8032) and JSON, which stay abstract. Nothing is assumed about
SHA3: where a result needs hashes to be distinct it names the two colliding preimages as the alternative, or takes
"no collision in this finite set" as a hypothesis that a lemma shows can fail only by a named collision. Ed25519 is
used only through the hypothesis, in the soundness of conflict proofs, that the transfers which verify under the keys
of an address were emitted by its holder. Hexadecimal fields are the bytes they spell, and metadata is its
canonical JSON text.

Python's recursion limit is a `depth` parameter of segment verification, because that recursion runs before the hash
comparison and is not well founded by itself. Bundle recursion needs no bound: it ends by the hashes visited.

## Where the code does less than one might expect

- **One segment holds at most about 64 KiB.** Hashed payloads are limited, so long blocks have no segment hash and
  cannot be archived. `Limits.ArchivesIffSmall` is the exact condition; 128 transfers always fit, 283 never do
  (`Witnesses.LongBlock`).
- **Segment links compare states, not token ids.** `Segments.ArchiveReplaysIffOneToken` and
  `Bills.CompactIsFullIffOneToken` show that one shared token id is exactly what is missing.
  `Witnesses.TwoTokenArchive` is an accepted archive without it.
- **Nor do they compare geneses.** A bill's history starts on the genesis the bill names exactly when its first
  archived segment names it (`Bills.StartsOnBillsGenesisIff`); `Witnesses.TwoGenesisArchive` shows it need not.
- **A resolver whose answers come back to a link exhausts any stack**, because the recursion precedes the comparison of
  hashes. `Segments.EndsUnlessItComesBack` is the exact condition.
- **A resolved checkpoint's hash is taken on trust**, so any state passes under any hash
  (`Segments.AnyStateUnderAnyHash`, `Witnesses.ForgedCheckpoint`). The answer is the checkpoint that was named exactly
  when its hash recomputes (`Segments.ResolvedIsNamedIffSelfHashed`), which the log server checks before it answers.
- **A fork compacted below either checkpoint is not found** (`Forks.ForkedHistoriesConvict`,
  `Witnesses.CompactedForkIsMissed`).
- **Metadata is re-canonicalised on decoding**, so other spellings decode too (`Codec.TransferReencodes`).
- **The retry hint is not honest for costs above a burst** (`RateBounds.RetryIsHonestIffCostFits`). This is about the
  limiter's own `cost` parameter: every call in the repository charges one.
- **A key can be dropped by the very call that adds it** (`Gossip.NewKeyIsDroppedIff`), so an accepted message can be
  forgotten (`Ingest.KeyIsForgottenIff`); a message its queue refuses unmarks keys that were held before
  (`IngestQueue.GossipIngestQueue.Enqueue`); and **a normal message can evict an urgent one**
  (`Gossip.UrgentSurvivesIffRoom`).
- **Requiring all peers decides nothing** (`Settlement.RequireAllOnlyExplains`).

## Model

Each row names the member whose contract states the property.

| member | source | states |
|---|---|---|
| `Binary.EncodeUvarint` | ind/binary_v3.py:32-42 | the encoding loop writes the minimal unsigned LEB128 form of any value it is given, and refuses exactly the negative ones and those above 2^63-1 |
| `Binary.UvarintExact` | ind/binary_v3.py:175-194 | a varint parses to `v` with `rest` left if and only if the input is the one minimal encoding of `v <= 2^63-1` followed by `rest`: padded, oversized and truncated input is refused |
| `Binary.Reader.ReadUvarint` | ind/binary_v3.py:175-194 | the reader's loop does what that parse says from the current offset, never looking at more than ten bytes |
| `Binary.Reader.Read` | ind/binary_v3.py:165-173 | advances by exactly the bytes asked for, or refuses when they are not there |
| `Binary.Reader.ReadBytes` | ind/binary_v3.py:197-202 | a length-prefixed read agrees with the parse of bounded bytes, errors included |
| `Binary.Reader.ReadAscii` | ind/binary_v3.py:204-210 | an ASCII read agrees with its parse, and refuses non-ASCII bytes |
| `Binary.Reader.ReadHash` | ind/binary_v3.py:224-225 | reads exactly 32 bytes or refuses |
| `Binary.Reader.ReadNullableHash` | ind/binary_v3.py:216-222 | tag 0 is no hash, tag 1 a hash, any other tag is refused |
| `Binary.BytesExact` | ind/binary_v3.py:54-59 | bounded bytes read back if and only if they are within the bound and written minimally |
| `Binary.NullableExact` | ind/binary_v3.py:81-84 | both directions of the nullable-hash encoding |
| `Binary.ObjectPreimageInjective` | ind/binary_v3.py:115-120 | the hashed bytes of an object fix both its domain and its payload |
| `Binary.SigningPreimageInjective` | ind/binary_v3.py:124-148 | the signed bytes fix all six arguments |
| `DisplayId.DisplayIdExact` | ind/protocol_v3.py:224-244 | a display id parses to a value and serial if and only if it is their canonical spelling and the serial is within the denomination's cap |
| `DisplayId.CanonicalIsShort` | ind/protocol_v3.py:429-451 | a display id that parses is ASCII and within the 64 bytes its encoding allows, so that bound never decides |
| `Fields.FieldsExact` | ind/protocol_v3.py:429-474 | for any layout: reading yields these fields and leaves this rest exactly when the input is the fields written out before it |
| `Fields.ReadFields` | ind/protocol_v3.py:455-474 | the field-by-field reader does what the parse of the layout says |
| `Codec.EnvelopeExact` | ind/protocol_v3.py:300-319 | magic, version and network id: accepted exactly when written by the encoder |
| `Codec.CheckpointCoreExact` | ind/protocol_v3.py:429-474 | decoding and re-encoding a checkpoint core are inverse in both directions |
| `Codec.GenesisRefExact` | ind/protocol_v3.py:359-384 | decoding and re-encoding a genesis reference are inverse in both directions |
| `Codec.StateExact` | ind/protocol_v3.py:398-425 | decoding and re-encoding a base state are inverse in both directions |
| `Codec.BundleRefExact` | ind/proof_bundle_v3.py:122-145 | decoding and re-encoding a proof-bundle reference are inverse in both directions |
| `Codec.TransferReadsBack` | ind/protocol_v3.py:494-542 | a well-formed transfer decodes to itself and leaves the rest |
| `Codec.TransferReencodes` | ind/protocol_v3.py:293-297 | re-encoding a decoded transfer gives the input back if and only if its metadata was canonical JSON: the decoder accepts other spellings |
| `Codec.SegmentReadsBack` | ind/archive_segment_v3.py:93-174 | a well-formed segment decodes to itself and leaves whatever follows it, so that as a whole message it is refused exactly when something follows |
| `Codec.SegmentReencodes` | ind/archive_segment_v3.py:93-174 | re-encoding a decoded segment gives its input back if and only if every transfer spelled its metadata canonically: nothing else in it has two spellings |
| `Codec.BillReadsBack` | ind/protocol_v3.py:560-613 | a well-formed bill decodes to itself and leaves whatever follows it, so that as a whole message it is refused exactly when something follows |
| `Codec.BillReencodes` | ind/protocol_v3.py:560-613 | re-encoding a decoded bill gives its input back if and only if every transfer spelled its metadata canonically |
| `Codec.ReadTransfers` | ind/archive_segment_v3.py:148-153 | the counted list of transfers is read as its parse says |
| `Codec.DecodeCheckpointCore` | ind/protocol_v3.py:487-490 | the decoder over a reader agrees with the parse, and refuses trailing bytes |
| `Codec.DecodeSegment` | ind/archive_segment_v3.py:169-174 | the decoder over a reader agrees with the parse, and refuses trailing bytes |
| `Codec.DecodeBill` | ind/protocol_v3.py:593-613 | the decoder over a reader agrees with the parse, and refuses trailing bytes; nested objects take the envelope's network id |
| `Layouts.PartsOfRef` | ind/protocol_v3.py:359-384 | at which place each field of a genesis reference stands in its bytes |
| `Layouts.PartsOfState` | ind/protocol_v3.py:398-425 | at which place each field of a base state stands in its bytes |
| `Layouts.PartsOfCheckpoint` | ind/protocol_v3.py:429-474 | at which place each field of a checkpoint core stands in its bytes |
| `Layouts.PartsOfBundleRef` | ind/proof_bundle_v3.py:122-145 | at which place each field of a proof-bundle reference stands in its bytes |
| `Layouts.PartsOfTransfer` | ind/protocol_v3.py:494-514 | at which place each field of a signed transfer stands in its bytes |
| `Layouts.SegmentLayout` | ind/archive_segment_v3.py:93-124 | the bytes of a whole archive segment, part by part |
| `Layouts.BillLayout` | ind/protocol_v3.py:560-592 | the bytes of a whole bill, part by part |
| `Layouts.TransferPreimages` | ind/protocol_v3.py:874-917 | exactly which bytes are hashed and signed for a transfer |
| `Layouts.ObjectPreimages` | ind/binary_v3.py:115-120 | exactly which bytes are hashed for a checkpoint, a segment and a conflict proof |
| `Commitments.TransferHashCommits` | ind/protocol_v3.py:874-876 | equal transfer hashes mean equal transfers, or two named preimages that collide under SHA3 |
| `Commitments.SigningCommits` | ind/protocol_v3.py:908-917 | equal signed bytes mean transfers equal in everything but the signature |
| `Commitments.CheckpointHashCommits` | ind/protocol_v3.py:1123-1134 | equal checkpoint hashes mean cores equal in every other field, or a named collision |
| `Commitments.CoresDistinguished` | ind/protocol_v3.py:1123-1128 | any finite set of encodable cores is told apart by its hashes unless it contains a collision |
| `Commitments.SegmentHashCommits` | ind/archive_segment_v3.py:178-195 | equal segment hashes mean segments equal in every other field, or a named collision |
| `Commitments.DisplayIdHashCommits` | ind/protocol_v3.py:1138-1164 | equal display-id hashes mean equal display ids, or a named collision |
| `Commitments.ConflictHashCommits` | ind/protocol_v3.py:1960-2024 | equal proof hashes mean equal conflict proofs, or a named collision |
| `Commitments.TransferEncodingIsSmall` | ind/binary_v3.py:115-120 | no transfer reaches the 64 KiB limit on hashed payloads |
| `Commitments.EncodableCoreFits` | ind/protocol_v3.py:429-451 | a core that passes validation and is in range always encodes |
| `Commitments.DomainsSeparate` | ind/binary_v3.py:115-120 | objects of different types never share a hash preimage |
| `Replay.Replayer.ReplayTransfers` | ind/protocol_v3.py:1000-1051 | the loop over transfers computes the fold of single steps, stopping at the first refusal with its reason |
| `Replay.ReplayComposes` | ind/protocol_v3.py:1000-1051 | replaying `a` then `b` is replaying `b` from where `a` ended, failures included |
| `Replay.AcceptedAt` | ind/protocol_v3.py:1014-1037 | in an accepted list every transfer is well formed, authorized, numbered by its position, linked to the one before and sent by its recipient |
| `Replay.AcceptedEnd` | ind/protocol_v3.py:1041-1051 | an accepted list ends at its last transfer: sequence counted, owner its recipient, tip its hash; value and display id never change |
| `Replay.UnsignedFoldAgrees` | ind/protocol_v3.py:1035-1040 | replay without signature checks accepts exactly what full replay accepts once every signature holds, and computes the same state |
| `Replay.LaterClockAgrees` | ind/protocol_v3.py:1012-1027 | a list accepted at one time is accepted at every later time with the same state |
| `Replay.TimestampsIncrease` | ind/protocol_v3.py:1023-1025 | timestamps strictly increase between any two positions of an accepted list |
| `Replay.DayExact` | ind/protocol_v3.py:1028-1034 | days are 86400 seconds long and start at the epoch |
| `Replay.CounterIsTrue` | ind/protocol_v3.py:1028-1049 | from a day-consistent base the stored counter equals the true number of transfers on the last day |
| `Replay.DailyBound` | ind/protocol_v3.py:1028-1034 | an accepted list holds at most ten transfers on any UTC day, whatever the base claims |
| `Replay.ThreadsJoin` | ind/protocol_v3.py:1014-1022 | threads join where one ends at the state the other starts from, so numbering, links and owners run on across blocks of different tokens |
| `Replay.FoldKeepsChronicle` | ind/protocol_v3.py:1012-1050 | replaying on, under any token, keeps the state's day and counter true to the whole history behind it, its timestamps increasing and its days within the limit |
| `Meaning.SignedExact` | ind/protocol_v3.py:920-985 | the shape, range and authority checks accept exactly the transfers of this network, dated at most 300 seconds ahead, with checksummed addresses, canonical metadata and a 64-byte signature under a key of the sender |
| `Meaning.StepExact` | ind/protocol_v3.py:1014-1050 | one step of replay, in those terms: when it is taken and the state it leads to |
| `Meaning.ReplayExact` | ind/protocol_v3.py:1000-1051 | a whole replay accepts exactly the declared histories: each transfer signed, numbered, linked, owned and later than the one before, no more than ten a day; and it returns the state where they end |
| `Segments.CheckpointKeepsState` | ind/protocol_v3.py:1138-1164 | a derived checkpoint commits to the state it was derived from, under its own hash |
| `Segments.AcceptedIsLinked` | ind/archive_segment_v3.py:300-382 | an accepted segment ends a chain linked hash by hash, state by state and checkpoint by checkpoint, each segment passing its checks, down to genesis or to a resolved checkpoint whose state it continues |
| `Segments.AcceptedExactly` | ind/archive_segment_v3.py:300-382 | acceptance asks for nothing beyond such a chain on such ground, but that it fits the stack |
| `Segments.AcceptedIsConnected` | ind/archive_segment_v3.py:300-382 | without a checkpoint resolver that chain reaches genesis, whatever the segment resolver returned |
| `Segments.AcceptedReplaysFromGround` | ind/archive_segment_v3.py:338-382 | with one, under one token, the chain's transfers carry the resolved checkpoint's state to the one derived |
| `Segments.ResolvedHashIsTrusted` | ind/archive_segment_v3.py:341-348 | the resolved checkpoint's hash field is trusted, not recomputed: cores that differ in token, genesis or predecessor get the same verdict |
| `Segments.AnyStateUnderAnyHash` | ind/archive_segment_v3.py:341-348 | otherwise any state passes under any hash: a segment built on it is accepted from a resolver that answers the hash with a checkpoint claiming that state |
| `Segments.ResolvedIsNamedIffSelfHashed` | ind/archive_segment_v3.py:341-348 | over any resolver, what an accepted chain rests on is the checkpoint under the hash it names if and only if the answer's hash recomputes; then it starts from that checkpoint's state |
| `Segments.RecomputingResolverIsSound` | ind/transparency_server.py:1790-1809 | over a resolver that recomputes the hash before it answers, as the log server's does, an accepted chain rests on the checkpoint it names and starts from its state, whatever the table behind it holds |
| `Segments.ConnectedTiles` | ind/archive_segment_v3.py:358-372 | the sequence ranges of a connected chain start at 1 and follow each other with no gap, each holding its transfers |
| `Segments.ConnectedLength` | ind/archive_segment_v3.py:363-372 | the last sequence number is the number of archived transfers |
| `Segments.LinkedReplays` | ind/archive_segment_v3.py:340-382 | when all segments name one token, replaying the whole archive from the chain's base gives the derived checkpoint's state |
| `Segments.LinkedTokens` | ind/archive_segment_v3.py:275-280 | every segment archives at least one transfer, and all its transfers name its token |
| `Segments.MixedTokensAreAccepted` | ind/archive_segment_v3.py:344-351 | a segment of another token built on a verified one is accepted, as one chain of two tokens |
| `Segments.MixedGenesesAreAccepted` | ind/archive_segment_v3.py:344-357 | links do not compare geneses either: with one token, a chain that starts on one genesis hash and derives a checkpoint naming another is accepted |
| `Segments.StartsOnNamedGenesisIff` | ind/archive_segment_v3.py:350-357 | an archived history starts on the genesis hash its checkpoint names if and only if the first segment names it too |
| `Segments.ArchiveReplaysIffOneToken` | ind/archive_segment_v3.py:344-351 | the link compares states and not token ids: the archive replays under the checkpoint's token if and only if all its segments name that token |
| `Segments.LinkedThreads` | ind/archive_segment_v3.py:344-366 | every archived transfer is numbered after, linked to and sent by the recipient of the one before it, across segments and tokens |
| `Segments.LinkedChronicle` | ind/archive_segment_v3.py:344-366 | the links carry the day and the counter, so they stay true to the history of the whole chain, whatever its tokens |
| `Segments.ChainDailyBound` | ind/archive_segment_v3.py:344-366 | over every accepted chain at most ten transfers fall on a UTC day and timestamps strictly increase, across segments and tokens |
| `Segments.MadeChecks` | ind/archive_segment_v3.py:198-252 | a segment just built passes the verifier's own header and body checks and derives the tip it was built from |
| `Segments.CutAccepted` | ind/archive_segment_v3.py:198-382 | a history from genesis cut into blocks and archived: every segment is accepted from a store that holds the chain |
| `Segments.CutTips` | ind/archive_segment_v3.py:198-252 | the checkpoint after the i-th block is the state of the uncut history up to there |
| `Segments.CutsAgree` | ind/archive_segment_v3.py:198-252 | the state of the final checkpoint does not depend on where the history was cut |
| `Segments.CutLinks` | ind/archive_segment_v3.py:232-250 | each segment built names the previous segment's hash and checkpoint, and its own token, genesis and transfers |
| `Segments.OnlyLimitsStopArchiving` | ind/archive_segment_v3.py:198-252 | archiving an accepted history fails only because something is too large to encode or hash |
| `Segments.DeeperAgrees` | ind/archive_segment_v3.py:318-333 | a verdict other than running out of stack does not depend on the stack's depth |
| `Segments.TooDeepIffFollowed` | ind/archive_segment_v3.py:318-342 | a stack of some depth is too shallow if and only if that many links can be walked, every header on the way passing |
| `Segments.EndsUnlessItComesBack` | ind/archive_segment_v3.py:318-342 | over any finite store, a stack deeper than the store is too shallow if and only if the walk comes back to a link already followed with every header passing, and then no stack is deep enough |
| `Segments.SelfLinkExhaustsStack` | ind/archive_segment_v3.py:327-337 | because the recursion precedes the hash comparison, a resolver answering with the segment itself is followed until the stack runs out |
| `Meaning.SegmentExact` | ind/archive_segment_v3.py:255-382 | a segment's own checks accept exactly the segments that hold a declared history of their base, are labelled, numbered and sized as they say, and name their own hash and the checkpoint that history leads to |
| `Meaning.MakeExact` | ind/archive_segment_v3.py:198-252 | a segment is made exactly from parts that make a declared segment and name both a segment and a checkpoint below it or neither, and it is that segment |
| `Meaning.ArchiveExact` | ind/archive_segment_v3.py:300-382 | verifying a segment accepts exactly the chains of such segments, each naming the hash and checkpoint of the one below and starting where it ends, from genesis or a well-formed resolved checkpoint |
| `Limits.ArchivesIffSmall` | ind/archive_segment_v3.py:178-252 | a block of an accepted history archives if and only if the base's numbers are in range and the segment's encoding is within 64 KiB |
| `Limits.BlockSizeLimits` | ind/binary_v3.py:115-120 | so up to 128 transfers always fit in a segment and 283 or more never do |
| `Limits.SmallCutsArchive` | ind/archive_segment_v3.py:198-252 | every accepted history cut into blocks of 1 to 128 transfers archives to the end |
| `Limits.SegmentSize` | ind/archive_segment_v3.py:93-124 | a segment's encoding is its transfers' plus at most 700 bytes |
| `Limits.TransferSize` | ind/protocol_v3.py:494-514 | what a signed transfer takes: 229 bytes, its sequence, its timestamp and its metadata |
| `Limits.TransfersSize` | ind/protocol_v3.py:494-514 | each signed transfer takes between 232 and 505 bytes |
| `Bundles.AncestorsProven` | ind/proof_bundle_v3.py:614-693 | accepting a bundle means every checkpoint on the path back is included under its signed root, mirrored, and settled by the only transfer claimed for its spend, down to one that names no predecessor |
| `Bundles.SpendProofExact` | ind/proof_bundle_v3.py:574-611 | a spend proof is good exactly if it opens to claims that are all of the checkpoint's last transfer, the first of which carries that transfer, signed, to the checkpoint's owner and on its date |
| `Bundles.ContestedIsRefused` | ind/proof_bundle_v3.py:606-610 | a bundle is refused as soon as its spend proof holds a claim of any other transfer |
| `Bundles.SourceExact` | ind/proof_bundle_v3.py:465-505 | a source derives a checkpoint exactly if it names, by hash, a segment at hand that ends a connected chain within the stack, and that segment's checkpoint |
| `Bundles.BundleAcceptedExactly` | ind/proof_bundle_v3.py:614-693 | a bundle is accepted exactly if it was not visited, proves the checkpoint expected of it, and ends a path of bundles that each prove theirs and name the one below |
| `Bundles.BundleFacts` | ind/proof_bundle_v3.py:625-693 | what one acceptance says: the derived checkpoint is proven, the bundle was not visited before, and the step below was accepted for the named predecessor |
| `Bundles.Shrinks` | ind/proof_bundle_v3.py:643-646 | visiting a known bundle shrinks the set of known bundles not yet visited: the measure by which the mutual recursion ends over any resolver |
| `Bundles.PathNeverRepeats` | ind/proof_bundle_v3.py:509-531 | an accepted ancestry never visits one bundle twice |
| `Bundles.SourceSelfHashed` | ind/proof_bundle_v3.py:465-505 | a bundle's source rests on a connected segment chain and derives a checkpoint under its own hash |
| `Bundles.PathMatchesChain` | ind/proof_bundle_v3.py:500-534 | unless two of the checkpoints collide, the checkpoints proven by the bundles are, one by one, those of the segment chain |
| `Bundles.PathProvesChain` | ind/proof_bundle_v3.py:500-534 | so each segment's checkpoint is logged, mirrored and settled by the bundle at its place |
| `Bundles.SettledIsArchived` | ind/proof_bundle_v3.py:585-605 | the transfer a proven spend settles and the last transfer archived have the same hash, the one in the checkpoint |
| `Bundles.VouchedChainVerifies` | ind/proof_bundle_v3.py:465-534 | conversely, when each checkpoint of an archived chain is honestly logged and bundled, every bundle verifies back to genesis |
| `Bundles.BuiltIsArchived` | ind/archive_segment_v3.py:318-382 | every segment of a chain just archived verifies from the store at the depth at hand |
| `Bills.AnchorRestsOnArchive` | ind/protocol_v3.py:1363-1383 | an anchored bill's checkpoint is the one its archived chain derives, for the bill's token and genesis |
| `Bills.CompactIsFull` | ind/protocol_v3.py:1328-1390 | verifying a compact bill is replaying its whole history: the archive starts at sequence 0 on the genesis hash its first segment names, tiles every sequence up to the checkpoint, and with one token the verdict equals, failures included, the verdict on all archived transfers followed by the recent ones |
| `Bills.CompactIsFullIffOneToken` | ind/protocol_v3.py:1328-1390 | for an accepted bill that equality holds if and only if all archived segments name the bill's token |
| `Bills.StartsOnBillsGenesisIff` | ind/protocol_v3.py:1328-1390 | the history behind an anchored bill starts on the genesis hash the bill names if and only if the first archived segment names it: no check compares the two |
| `Bills.BillDailyBound` | ind/protocol_v3.py:1384-1390 | over an accepted bill's whole history, archived and recent, at most ten transfers fall on a UTC day and timestamps strictly increase, whatever the tokens |
| `Bills.ArchiveIsProven` | ind/protocol_v3.py:1363-1379 | behind an anchored bill every archived segment's checkpoint is logged, mirrored and settled by one bundle, if no two of the checkpoints share a hash |
| `Bills.ArchiveIsProvenOrCollides` | ind/protocol_v3.py:1363-1379 | in the code's own suite the alternative is a SHA3 collision between two of those checkpoints |
| `Bills.ArchiveIsUncontested` | ind/proof_bundle_v3.py:606-610 | behind an anchored bill no spend is contested: the log holds claims of one transfer only for each, the last one archived in its segment |
| `Bills.CompactionInvariant` | ind/protocol_v3.py:1328-1390 | two anchored bills with the same base and the same overall history get the same verdict wherever each was cut |
| `Bills.CompactedBillReplays` | ind/protocol_v3.py:1384-1390 | a bill on the last checkpoint of an archived history means what the uncut history means |
| `Bills.AcceptedBillShows` | ind/protocol_v3.py:1328-1390 | an accepted bill's state has the face value the bill shows and a display id naming that value and the issue index; the bill, its checkpoint and its recent transfers agree on token and network, and bill and checkpoint on the genesis hash |
| `Verdicts.AnchorExact` | ind/protocol_v3.py:1328-1385 | a bill is anchored exactly if its labels agree with each other and its checkpoint, and the chosen bundle is the one it refers to and ends a path of proven checkpoints in the bill's own |
| `Verdicts.BillExact` | ind/protocol_v3.py:1328-1390 | a bill is accepted exactly if it is so anchored and its recent transfers are a declared history of its checkpoint, whose end is returned |
| `Verdicts.CachedExact` | ind/protocol_v3.py:1394-1435 | the cached path accepts exactly the labelled bills with such a history, signatures aside |
| `Bills.ReferenceIsExact` | ind/proof_bundle_v3.py:368-420 | a reference is accepted for a bundle if and only if the bundle's log id and self-hash are consistent and the reference is the one made from it for this network and algorithm |
| `Bills.AnchoredIffCreated` | ind/protocol_v3.py:1168-1208 | a bundle anchors exactly the bills that creating a bill from it and a checkpoint can return |
| `Bills.HonestBillIsFull` | ind/protocol_v3.py:1168-1208 | end to end: cut, archived, logged and compacted, a history from genesis is accepted as a bill exactly when the uncut history is, with the same state |
| `Bills.CachedAgrees` | ind/protocol_v3.py:1394-1432 | the full path accepts if and only if the cached path accepts, the bill is anchored and every recent signature holds; then the states agree |
| `Bills.CreatedExtends` | ind/protocol_v3.py:1073-1119 | a transfer created from a state extends that state: only the daily limit can refuse it |
| `Bills.CreatedAsOrdered` | ind/protocol_v3.py:1073-1118 | the transfer made is the one ordered: recipient, metadata, key and date, the date pushed to one second past the last transfer only if it is not later |
| `Bills.FreshDayHasRoom` | ind/protocol_v3.py:1073-1118 | an order dated on a later day than the last transfer is dated so and never stopped by the daily limit |
| `Verdicts.OrderExact` | ind/protocol_v3.py:1073-1118 | an order is carried out exactly if its key owns the valid state and what it makes is a well-formed, signed transfer |
| `Bills.AppendedState` | ind/protocol_v3.py:1547-1549 | the cached state of a bill with one more transfer is one step from the state without it |
| `Bills.CachedCreationAgrees` | ind/protocol_v3.py:1523-1558 | given the right cached state, replaying only the new transfer returns the state a full cached replay of the new bill returns |
| `Bills.FullCreationAgrees` | ind/protocol_v3.py:1473-1520 | the full and the cached path make the same bill in the same state, and after the first verification only the daily limit can stop the full one |
| `Pins.SegmentPinsChain` | ind/archive_segment_v3.py:318-333 | one segment hash fixes the whole chain behind it |
| `Pins.AcceptedArchivesAgree` | ind/archive_segment_v3.py:318-333 | two verifications of one segment hash, over any two resolvers, rest on the same archive, or two of its segments collide |
| `Pins.TipPinsHistory` | ind/archive_segment_v3.py:300-382 | archives that agree on length and last transfer hash hold one history, however it is cut, or two of their transfers collide |
| `Pins.CheckpointPinsHistory` | ind/protocol_v3.py:1123-1164 | one checkpoint hash fixes the whole history: bills under it, verified against any evidence, have one checkpoint and one archived history from one origin, or a collision is named |
| `Pins.SettledIsLastArchived` | ind/proof_bundle_v3.py:585-605 | the transfer a proven spend settles is the last one archived, or the two are a named collision |
| `Conflicts.SortedIffConflicting` | ind/protocol_v3.py:2027-2049 | two transfers sort into a pair if and only if they are valid, signed, different spends of one state; sorting forgets their order |
| `Conflicts.BeforeExact` | ind/protocol_v3.py:2044-2048 | hashes are ordered by their first differing byte |
| `Conflicts.VerifiesIffCreated` | ind/protocol_v3.py:2173-2211 | a proof verifies if and only if it is the one its own two transfers and detection time create |
| `Verdicts.ProofExact` | ind/protocol_v3.py:2173-2211 | a proof is accepted exactly if it shows two signed transfers of the one state it names, in the order of their hashes, under its own keys and hash |
| `Conflicts.ConflictsAreProvable` | ind/protocol_v3.py:2052-2087 | any two conflicting transfers make a proof that verifies, the same one whichever is named first |
| `Conflicts.ProofEncodes` | ind/protocol_v3.py:1960-2024 | such a proof exists exactly when the detection time is at most 2^63-1 |
| `Conflicts.KeyIsStable` | ind/protocol_v3.py:2150-2170 | the dedupe key ignores the order of the transfers and the detection time |
| `Conflicts.KeyIsExact` | ind/protocol_v3.py:2150-2170 | two proofs have one key exactly if they are of one conflict: one network, one spent state, the same two transfers; or two named identities collide |
| `Conflicts.ConflictKeyCommits` | ind/protocol_v3.py:2150-2170 | in the code's own suite, equal keys mean one conflict, or two identities with one digest |
| `Conflicts.KeyIgnoresHashOrder` | ind/protocol_v3.py:2150-2158 | nor does it see which of the two hashes a message lists first |
| `Conflicts.ConvictedSignedBoth` | ind/protocol_v3.py:2173-2211 | an accepted proof holds two different valid signed transfers of the state it names |
| `Conflicts.HonestNeverConvicted` | ind/protocol_v3.py:2173-2211 | a signer who emits at most one transfer per state is never convicted, whatever other messages the keys of the address sign |
| `Conflicts.SignedWasEmitted` | ind/protocol_v3.py:960-970 | a transfer signed under a key whose signed transfers are those emitted is one of them, as it stands |
| `Conflicts.CheapFilterDecomposes` | ind/node_client.py:972-1036 | a proof verifies if and only if the cheap filter passes it, the network is this one, the transfers come in hash order, both signatures hold and the proof hash matches |
| `Verdicts.CheapExact` | ind/node_client.py:972-1036 | the cheap filter passes exactly the well-formed proofs of one spend whose listed hashes are those of its two transfers in order, keys and signatures aside |
| `Forks.FindConflictingPair` | ind/protocol_v3.py:2090-2099 | the dictionary and nested loops return the first transfer of the second list that another transfer of the first spends differently |
| `Forks.SearchIsExact` | ind/protocol_v3.py:2090-2099 | the search returns a clashing pair if there is one and nothing otherwise |
| `Forks.ClashesOnlyAtFork` | ind/protocol_v3.py:2094-2098 | two threaded histories clash at their first divergence if they start from one origin and it names one token, and nowhere else |
| `Forks.ForkIsFound` | ind/protocol_v3.py:2090-2099 | for accepted lists from one state the search is empty exactly when one continues the other, and otherwise returns the transfers at the first divergence |
| `Forks.SearchSeesAboveCheckpoints` | ind/protocol_v3.py:2090-2099 | with histories partly compacted, the search finds the fork of the full histories if and only if it lies at or beyond both checkpoints and before both ends, and finds nothing else |
| `Forks.ForkedBillsConvict` | ind/protocol_v3.py:2102-2146 | two verified branches of one checkpoint either continue each other or yield a proof that verifies and names the state where they part |
| `Forks.ForkedHistoriesConvict` | ind/protocol_v3.py:2102-2146 | two verified bills, on any checkpoints and whatever tokens their archives name, yield such a proof exactly when they are of one token and their full histories start from one origin and part at or beyond both checkpoints and before both ends |
| `Forks.TransfersToldApart` | ind/protocol_v3.py:874-886 | the hypothesis on hashes holds for any finite set without a collision in it |
| `Genesis.ValidateRanges` | ind/genesis_manifest_v3.py:157-196 | the loops, the sort and the scan of neighbours compute the specified verdict, order and totals |
| `Genesis.ValidationExact` | ind/genesis_manifest_v3.py:157-196 | ranges are accepted if and only if there are some, each is valid and no serial is issued twice; the supply-cap check never fires |
| `Genesis.NeighboursSuffice` | ind/genesis_manifest_v3.py:190-193 | in sorted order, comparing neighbours rules out any overlap |
| `Genesis.SortSorts` | ind/genesis_manifest_v3.py:190 | sorting orders the ranges and keeps every one |
| `Genesis.FullSupplyIsExact` | ind/genesis_manifest_v3.py:351-352 | validated ranges total the fixed supply if and only if every serial of every denomination is issued exactly once; their face value is then fixed |
| `Genesis.CapsAddUp` | ind/protocol.py:42-64 | the denomination caps add up to the fixed supply |
| `Genesis.RangeForSerial` | ind/genesis_manifest_v3.py:373-379 | the lookup loop returns the first range that issues a serial |
| `Genesis.RangeIsUnique` | ind/genesis_manifest_v3.py:373-379 | after validation the lookup succeeds exactly on issued serials, and no other range issues the serial |
| `Genesis.FullSupplyRanges` | ind/genesis_manifest_v3.py:223-252 | one whole range per denomination, exactly when every denomination has a valid owner |
| `Genesis.FullSupplyValidates` | ind/genesis_manifest_v3.py:223-252 | those ranges validate, total the fixed supply and have the full face value |
| `Genesis.MadeManifestVerifies` | ind/genesis_manifest_v3.py:256-298 | a manifest just made verifies wherever its hash is trusted, with the totals of the ranges it was made from |
| `Genesis.ManifestExact` | ind/genesis_manifest_v3.py:301-369 | a manifest is accepted exactly if it is of the expected network, names its issuer's key, issues valid ranges with no serial twice, states what they total, is trusted under its own hash and signed; with the full supply, exactly if every serial is issued once |
| `Genesis.MadeManifestShows` | ind/genesis_manifest_v3.py:256-300 | a manifest is made exactly from such ranges, and shows them in order, with the maker's key, date, network, totals, signature and hash |
| `Genesis.FirstStateShows` | ind/genesis_manifest_v3.py:421-450 | a first state and its reference show the bill's value and serial, its manifest and issuer, and the date of issue |
| `Genesis.GenesisTellsBillsApart` | ind/genesis_manifest_v3.py:401-450 | bills whose histories start on one genesis hash are one bill of one manifest, or two derivations are a named collision |
| `Genesis.BaseStateIsUnique` | ind/genesis_manifest_v3.py:437-450 | a bill has a first state exactly when it is issued, owned by the owner of the one range that issues it |
| `Genesis.FullManifestIssuesAll` | ind/genesis_manifest_v3.py:437-450 | a manifest verified with the full supply gives every valid serial, and nothing else, a first state |
| `Genesis.DerivedBaseStartsHistory` | ind/genesis_manifest_v3.py:421-450 | the derived state attaches at genesis, matches its own reference, is valid, counts its day truthfully and is in range of the encoder |
| `Genesis.IssuedBillArchives` | ind/genesis_manifest_v3.py:421-450 | from the manifest on: any accepted history of an issued bill archives in blocks of up to 128 and keeps the daily limit |
| `RateLimit.TokenBucket.Refill` | ind/node_client.py:491-496 | adds rate times elapsed time up to the burst; a clock that went back adds nothing |
| `RateLimit.TokenBucket.RetryAfter` | ind/node_client.py:498-502 | the time until the missing tokens are earned |
| `RateLimit.TokenBucket.Consume` | ind/node_client.py:504-505 | takes the cost, never below zero |
| `RateLimit.PeerRateLimiter.Check` | ind/node_client.py:565-583 | one request refills three distinct buckets, is charged to all or none, and trims; the whole new state is stated |
| `RateLimit.PeerRateLimiter.Trim` | ind/node_client.py:530-536 | only the overflow is evicted, those updated longest ago first and, among equals, those created first; the others keep their order |
| `RateLimit.TrimIsDetermined` | ind/node_client.py:530-536 | that says everything: two ways to trim like this are the same |
| `RateLimit.PeerRateLimiter.BucketFor` | ind/node_client.py:538-544 | the bucket under a key, created full and last in order if missing, refilled; every other bucket is untouched |
| `RateLimit.LanesByName` | ind/node_client.py:554-563 | which names of traffic each lane takes, all others being control traffic |
| `RateLimit.VisitedAt` | ind/node_client.py:546-552 | the three scopes never share a key, so each bucket is judged on its state before the request |
| `RateBounds.AdmitsIffAvailable` | ind/node_client.py:565-583 | a request is admitted if and only if all three buckets hold its cost |
| `RateBounds.WindowBound` | ind/node_client.py:484-583 | over any run on a clock that never goes back, the cost admitted under a key within a window is at most its burst plus rate times the window, and one burst more for every eviction of the key on the way |
| `RateBounds.LaneBound` | ind/node_client.py:546-583 | over any run all peers together get no more out of a lane in a window than the lane's global burst and rate, and a burst more for each eviction of that bucket |
| `RateBounds.SubnetBound` | ind/node_client.py:546-583 | nor all peers of a subnet more than the subnet's burst and rate |
| `RateBounds.AddressBound` | ind/node_client.py:546-583 | nor all requests of an address more than its burst and rate |
| `RateBounds.DenialsAreFree` | ind/node_client.py:577-579 | after a denial every bucket that stays offers what it would have offered |
| `RateBounds.RetryIsHonestIffCostFits` | ind/node_client.py:571-579 | waiting the returned delay with no other traffic guarantees admission if and only if the cost fits every burst it is charged to |
| `RateBounds.EveryRequestIsDecided` | ind/node_client.py:565-583 | every request in every sound state has a decision and a next state |
| `RateBounds.StepKeepsClock` | ind/node_client.py:491-496 | no bucket is dated later than the last request |
| `Gossip.ActivePeerConnections.TryAcquire` | ind/node_client.py:650-657 | acquires exactly when both caps leave room; the total stays the sum of the per-peer counts |
| `Gossip.ActivePeerConnections.Release` | ind/node_client.py:659-668 | gives one connection of the peer back, or nothing if none is held |
| `Gossip.BoundedSeenSet.Add` | ind/node_client.py:679-687 | the new contents and order, evictions included, and whether the key was new |
| `Gossip.BoundedSeenSet.Discard` | ind/node_client.py:697-699 | forgets the key and leaves the order as it is |
| `Gossip.HeldMeansAdded` | ind/node_client.py:672-699 | over every run of adds and discards the set is within its limit and holds a key only if the last operation on it was an add |
| `Gossip.NewKeyIsDroppedIff` | ind/node_client.py:679-687 | a key just added is dropped by the same call if and only if the set is full and its oldest entry is a stale copy of that key |
| `Gossip.YoungKeysStay` | ind/node_client.py:679-687 | without discards a key stays for as many adds as there are older entries and free places |
| `Gossip.GossipPool.Add` | ind/node_client.py:761-773 | the exact new contents; keys stay distinct and equal to the dedupe index |
| `Gossip.GossipPool.Trim` | ind/node_client.py:755-759 | what is kept: the front after a high-priority add, the back otherwise |
| `Gossip.PoolStaysBounded` | ind/node_client.py:755-773 | over every run of adds keys stay distinct and the entries within the limit |
| `Gossip.FullPoolLosesItsFront` | ind/node_client.py:755-759 | a normal add to a full pool evicts the front entry, whatever its priority |
| `Gossip.UrgentSurvivesIffRoom` | ind/node_client.py:755-773 | so a high-priority message survives the next normal one if and only if the pool still had room |
| `Ingest.QueueStoreResult` | ind/node_client.py:840-858 | the messages the store hands back are pooled in order, urgent kinds at high priority, and a conflict proof last |
| `Ingest.OnlyRelayedIsPooled` | ind/node_client.py:1180-1192 | a message that is not accepted for relay leaves no trace of its own in the pool |
| `Ingest.IngestPrepared` | ind/node_client.py:1132-1199 | one attempt: how each verdict of the store changes the seen keys and the pool, queued messages and conflict proofs included |
| `Ingest.IngestWithRetry` | ind/node_client.py:1202-1235 | the attempts, status, pool and seen set, for any seen set: keys marked before stay exactly as they were when the message is accepted; with room, its keys are held if and only if it is accepted and no other key changes; a full set holds all fresh keys; and none is held if it is not accepted |
| `Ingest.FreshKeysStay` | ind/node_client.py:679-687 | keys the order does not know survive being added any number of times, even in a full set, if it has as many places |
| `Ingest.OnceIsEnough` | ind/node_client.py:1202-1235 | once one pass leaves all of a message's keys held, further passes change nothing |
| `Ingest.RoomHoldsAll` | ind/node_client.py:679-687 | a set with a place for every key holds what it held and all keys added |
| `Ingest.KeyIsForgottenIff` | ind/node_client.py:679-687 | exactly which of a message's keys are forgotten while it is added: those of which a stale copy is dropped at or after their own add |
| `Ingest.OthersOnlyEvicted` | ind/node_client.py:679-687 | any other key stays exactly if it is not among the entries dropped to make place |
| `IngestQueue.MarkedThenIngested` | ind/node_client.py:1237-1260 | marking the keys and then making the attempts is making one more pass: accepted keys that were held once marked stay held and nothing else happens; with room they are held if and only if the message is accepted |
| `IngestQueue.IngestSlots.MarkAndIngest` | ind/node_client.py:1237-1260 | a message ingested in the background: refused without a trace if no slot is free, and otherwise marked, ingested and the slot given back |
| `IngestQueue.GossipIngestQueue.Enqueue` | ind/node_client.py:1296-1309 | a message is marked and queued at the end of its lane, or refused if and only if the lane is full, and then none of its keys is held, even those held before |
| `IngestQueue.GossipIngestQueue.Work` | ind/node_client.py:1311-1336 | a worker takes the oldest urgent message, or else the oldest other one, and ingests it with all its attempts |
| `Settlement.Gather` | ind/node_client.py:1747-1792 | the loop's tallies, or that an ingested message proved a conflict, which it reports exactly when one did |
| `Settlement.Reconcile` | ind/node_client.py:1712-1816 | the whole verdict, reason included; with the quorum enabled it settles if and only if no conflict is proven, no peer diverges and the number of confirming results reaches the minimum |
| `Settlement.SettlesIff` | ind/node_client.py:1794-1803 | the verdict's branches over lists and tallies settle exactly on those counts |
| `Settlement.ReportedConflictOnlyComplains` | ind/node_client.py:1794-1803 | a response that reports a conflict adds no confirmation and no contradiction, only a complaint |
| `Settlement.OrderDoesNotDecide` | ind/node_client.py:1723-1816 | the decision is the same for every order in which peers answer |
| `Settlement.RequireAllOnlyExplains` | ind/node_client.py:1798-1816 | with the requirement of all peers on or off the verdicts are equal or both wait for confirmations: only the reason changes |
| `Witnesses.TwoTokenArchive` | ind/archive_segment_v3.py:344-351 | an archive of two tokens, in the code's own suite over concrete primitives, that is accepted |
| `Witnesses.TwoGenesisArchive` | ind/archive_segment_v3.py:350-357 | an accepted archive of one token that starts on one genesis hash and names another in its checkpoint |
| `Witnesses.ForgedCheckpoint` | ind/archive_segment_v3.py:341-348 | an accepted segment resting on a resolved checkpoint whose hash does not recompute |
| `Witnesses.LongBlock` | ind/archive_segment_v3.py:178-252 | an accepted history of 283 daily transfers that no one segment holds and three do |
| `Witnesses.CompactedForkIsMissed` | ind/protocol_v3.py:2090-2146 | two accepted bills whose archived histories are a provable double spend, and a search of the bills that finds nothing |
| `Witnesses.AddedAndGone` | ind/node_client.py:679-699 | adding, discarding and adding a key again in a set of one place drops it in its own second add |

## Left out

- Ingest.IngestWithRetry: waiting between attempts and penalties for invalid messages are not modelled; when stale copies of a message's own keys are dropped, the exact condition is given for the first pass over distinct keys that are not held, and not for passes after one that forgot a key.
- Settlement.Reconcile: the local conflict status is a monotone function of the responses ingested; the store behind it, and conflicts stored by other threads in the meantime, are not part of this model.
- Bundles.AncestorsProven: inclusion, mirroring, operator keys and the claims of a spend map are abstract functions of the log; the bundle and signed-root encodings are not modelled.
- Dynamic typing: negative integers, wrong JSON types, missing or extra dictionary fields and wrong type or version strings are excluded by the types, and texts of errors are reduced to one reason per kind.
- Hexadecimal case: fields are bytes, so upper-case spellings that some validators accept are not distinguished.
- `expected_network_id=None`: verification is modelled for a node that expects its own network.
- One clock value per verification: the code reads the clock again for archived segments, later and never earlier, and acceptance only widens with time (`Replay.LaterClockAgrees`).
- Trust in a genesis reference is one local predicate, also consulted when encoding; the environment and settings behind it are left out.
- SHA3, Ed25519, base58, base85, zlib, JSON parsing and address checksums: abstract functions.
- Network names of manifests, and the derivation of nonces and range seeds, which only feed abstract digests.
- Wire announcements, base85 envelopes, disabled receipts and the binary form of conflict proofs beyond its hash preimage: easy members next to the codec proved here.
- Aliasing of Python dictionaries shared between calls, locks, threads and sockets: each method is one atomic step.
- IngestQueue.GossipIngestQueue.Work: the worker threads and the time a message waits; between marking and its turn other messages may evict its keys, and the contract then speaks of the set found at the turn.
- IngestQueue.IngestSlots.MarkAndIngest: is one atomic step, where the code returns at once and ingests on a thread.
- `PeerPenaltyBook` and close counters: simple maps and counters.
- Operator storage, node services, desktop and printing tools, updates, port forwarding and environment handling: plumbing around the protocol.
