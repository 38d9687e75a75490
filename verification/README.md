# GPPN and Veritas core, modelled in Dafny

This project models the logic at the heart of two cooperating systems and proves properties of it.

**GPPN**, the payment network:
- payment messages, their signing payload and protobuf field mapping, and the payment state machine;
- the message digest, payload encryption framing and the Merkle root;
- the distributed routing table, route advertisements, routes and the bounded route search;
- hash-time-locked contracts, the internal settlement ledger and the settlement manager;
- the three Go settlement adapters (stablecoin, Ethereum, Bitcoin) and the Go services' config-file parser.

**Veritas**, the identity layer:
- DIDs and credential states;
- verifiable credentials, the schema registry, the verifier and the holder's wallet;
- the trust graph, the GPPN DID manager and documents, and the composite DID resolver;
- commitments, range and set-membership proofs, and the age, KYC-level and residency proofs built on them;
- selective disclosure and peer discovery.

Every stateful component is an immutable value. Each operation is a pure function from the old state to the new state and its result. Concurrency wrappers (DashMap, RwLock, sync.Mutex) become plain maps.

The following become function-typed parameters:
- hashing (BLAKE3), signing and verification (Ed25519);
- base58, hex and UTF-8;
- multiaddr parsing and fee computation.

Clock readings, UUIDs and random nonces become explicit arguments. Where the source iterates over a hash map, the iteration order is an argument, together with a predicate saying that it lists every key once. Fixed-width integers are `nat`/`int` subset types. Wrap-around and overflow are written out only for the five cases under "## Findings". Elsewhere fixed-width arithmetic is unbounded. The sums that can leave their range for inputs the types admit are listed under "## Left out". `usize` counters are taken as unbounded.

Each module follows one source file; `Wrappers`, `Bytes`, `Text`, `Decimal`, `Merkle` and `DidSyntax` hold the shared pieces.

## Model

| member | source | states |
|---|---|---|
| PaymentStates.Transition | crates/gppn-core/src/state_machine.rs:123-180 | a success moves to the event's target; any other pair is InvalidStateTransition from the current state to the event's nominal target; Settled, Expired and Cancelled reject every event; Failed leaves only by RetryRoute; Settling accepts only SettlementConfirmed and SettlementFailed |
| PaymentStates.PaymentState.IsFinal | crates/gppn-core/src/state_machine.rs:28-30 | Settled, Expired and Cancelled are the final states; `Transition` refuses every event from them |
| PaymentStates.TransitionTable | crates/gppn-core/src/state_machine.rs:127-150 | `transition` succeeds exactly for the (state, event) pairs of the table, and then moves to the state the table lists |
| PaymentStates.CanTransition | crates/gppn-core/src/state_machine.rs:182-184 | holds exactly for the pairs `transition` accepts |
| PaymentStates.ToProto | crates/gppn-core/src/state_machine.rs:33-45 | every state has a code in 1..8 |
| PaymentStates.FromProto | crates/gppn-core/src/state_machine.rs:47-62 | accepts exactly the codes 1..8; any other integer is a validation error |
| PaymentStates.ProtoRoundTrip | crates/gppn-core/src/state_machine.rs:33-62 | decoding the code of any state gives that state back |
| PaymentStates.ProtoCodeRoundTrip | crates/gppn-core/src/state_machine.rs:33-62 | encoding the state of any accepted code gives the code back, so the table is a bijection with 1..8 |
| PaymentStates.TransitionCount | crates/gppn-core/src/state_machine.rs:127-150 | the table holds fourteen transitions |
| GppnTypes.FiatFromCode | crates/gppn-core/src/types.rs:161-175 | a parsed fiat currency has the given code; no fiat currency has a code that is refused |
| GppnTypes.CryptoFromCode | crates/gppn-core/src/types.rs:211-220 | a parsed crypto currency has the given code; no crypto currency has a code that is refused |
| GppnTypes.FiatCodeRoundTrip | crates/gppn-core/src/types.rs:137-175 | every one of the ten ISO 4217 codes parses back to its currency |
| GppnTypes.CryptoCodeRoundTrip | crates/gppn-core/src/types.rs:190-220 | every one of the five crypto codes parses back to its currency |
| GppnTypes.CurrencyToProto | crates/gppn-core/src/types.rs:69-88 | the proto carries the currency's kind and code, and its decimals: JPY 0, other fiat 2, BTC 8, ETH 18, SOL 9, USDC and USDT 6, custom 0 |
| GppnTypes.CurrencyFromProto | crates/gppn-core/src/types.rs:90-107 | accepts a known fiat or crypto code of its kind, or any custom code, and keeps the code; an unknown code or kind is a validation error |
| GppnTypes.CurrencyProtoRoundTrip | crates/gppn-core/src/types.rs:69-107 | every currency survives the protobuf mapping |
| GppnTypes.AmountToProto | crates/gppn-core/src/types.rs:23-30 | the two u64 halves recombine to the u128 value: high * 2^64 + low |
| GppnTypes.AmountFromProto | crates/gppn-core/src/types.rs:32-43 | a missing currency is MissingField("currency"); otherwise the amount is (high << 64) \| low and fails exactly when the currency does |
| GppnTypes.AmountProtoRoundTrip | crates/gppn-core/src/types.rs:23-43 | every u128 amount with its currency survives the hi/lo mapping |
| GppnTypes.NewDid | crates/gppn-core/src/types.rs:230-245 | accepts exactly the URIs that start with "did:gppn:" and have at least three ':' (four parts), keeping the URI; others are InvalidDid |
| GppnTypes.DidFromParts | crates/gppn-core/src/types.rs:248-266 | the DID is "did:gppn:" + method + ":" + identifier, it is accepted by `Did::new`, and for a colon-free method `method()` and `identifier()` give back the parts |
| GppnTypes.Did.Method | crates/gppn-core/src/types.rs:258-260 | the third ':'-separated part of the URI, as `DidSyntax.Method` states |
| GppnTypes.Did.Identifier | crates/gppn-core/src/types.rs:263-266 | everything after the third ':', as `DidSyntax.Identifier` states |
| DidSyntax.WellFormedByColons | crates/gppn-core/src/types.rs:230-245 | "at least four ':'-separated parts" is the same as "at least three ':'" |
| DidSyntax.FromParts | crates/gppn-core/src/types.rs:248-251 | the URI starts with "did:<ns>:" and has the length of its parts plus separators |
| DidSyntax.Method | crates/gppn-core/src/types.rs:258-261 | there is a method exactly when the URI has at least two ':', and it holds no ':' |
| DidSyntax.Identifier | crates/gppn-core/src/types.rs:263-266 | there is an identifier exactly when the URI has at least three ':' |
| DidSyntax.FromPartsWellFormed | crates/gppn-core/src/types.rs:230-251 | a URI built from parts with a colon-free namespace passes the `Did::new` check |
| DidSyntax.FromPartsMethod | crates/gppn-core/src/types.rs:248-261 | `method()` of `from_parts(m, i)` is m when m is colon-free |
| DidSyntax.FromPartsIdentifier | crates/gppn-core/src/types.rs:248-266 | `identifier()` of `from_parts(m, i)` is i, any ':' in i included |
| PaymentMessages.Validate | crates/gppn-core/src/payment_message.rs:48-74 | rejects, in this order, an empty sender URI, an empty receiver URI, sender == receiver, a zero amount, ttl 0 and timestamp 0, each with its own error; it succeeds exactly when none of these holds and the version is non-zero |
| PaymentMessages.IsExpiredAt | crates/gppn-core/src/payment_message.rs:84-87 | with the deadline timestamp + ttl * 1000 taken without wrap-around: never expired at or before the timestamp; always expired once past the largest deadline a u32 ttl allows |
| PaymentMessages.ExpiryBoundary | crates/gppn-core/src/payment_message.rs:84-87 | not expired exactly at timestamp + ttl * 1000, expired one millisecond later, and once expired stays expired as time grows |
| PaymentMessages.IsExpiredAtAsWritten | crates/gppn-core/src/payment_message.rs:84-87 | with the `u64` deadline sum wrapping: the same answer as `IsExpiredAt` while timestamp + ttl * 1000 fits in 64 bits, and otherwise a comparison against the deadline minus 2^64 |
| PaymentMessages.LateTimestampExpiresEarly | crates/gppn-core/src/payment_message.rs:84-87 | a message stamped at 2^64 - 1 ms with a one-second ttl reads as expired at 1000 ms as written, but not with the deadline taken without wrap-around |
| PaymentMessages.SigningPayload | crates/gppn-core/src/payment_message.rs:91-130 | the payload is 57 bytes plus the three UTF-8 text lengths, plus 32 when metadata is non-empty, and it decodes back to the version, id, sender, receiver, u128 amount, currency code, ttl, timestamp and metadata hash |
| PaymentMessages.SigningPayloadIgnoresSignature | crates/gppn-core/src/payment_message.rs:91-130 | changing the signature or the state leaves the signing payload unchanged |
| PaymentMessages.ConditionCode | crates/gppn-core/src/payment_message.rs:166-172 | every condition type has a code in 1..4 |
| PaymentMessages.ConditionFromCode | crates/gppn-core/src/payment_message.rs:231-237 | codes 1..4 decode to the type with that code; any other code becomes TimeExpiry |
| PaymentMessages.HintFromProto | crates/gppn-core/src/payment_message.rs:221-225 | the u32 priority is truncated to its low byte; a hint whose priority is below 256 maps back to itself |
| PaymentMessages.HintsRoundTrip | crates/gppn-core/src/payment_message.rs:154-226 | settlement hints survive to_proto followed by from_proto |
| PaymentMessages.ConditionsRoundTrip | crates/gppn-core/src/payment_message.rs:163-240 | conditions survive to_proto followed by from_proto |
| PaymentMessages.MessageToProto | crates/gppn-core/src/payment_message.rs:147-191 | the proto carries the id, version, both URIs, the amount, ttl, timestamp and state code, and one entry per hint and per condition |
| PaymentMessages.RebuildDid | crates/gppn-core/src/payment_message.rs:215-216 | a DID rebuilt from a proto URI always has the "did:gppn:key:" prefix and passes `Did::new` |
| PaymentMessages.RebuildKeyDid | crates/gppn-core/src/payment_message.rs:215-216 | a key DID whose identifier does not itself contain "did:gppn:key:" is rebuilt as itself |
| PaymentMessages.MessageFromProto | crates/gppn-core/src/payment_message.rs:194-256 | a pm_id that is not 16 bytes and a missing amount are rejected with their errors; it succeeds exactly when the amount and the state also decode, keeping id, amount, ttl, timestamp and state, truncating the version to a byte and rebuilding both DIDs as key DIDs |
| PaymentMessages.ProtoRoundTrip | crates/gppn-core/src/payment_message.rs:147-256 | from_proto(to_proto(pm)) is pm with both DIDs rebuilt as key DIDs |
| PaymentMessages.ProtoRoundTripKeyDids | crates/gppn-core/src/payment_message.rs:147-256 | for key DIDs the protobuf round trip gives back the message unchanged |
| PaymentMessages.ProtoStateRoundTrip | crates/gppn-core/src/payment_message.rs:189-254 | the state survives the protobuf mapping |
| PaymentMessages.Build | crates/gppn-core/src/payment_message.rs:322-353 | missing sender, receiver or amount fail in that order with MissingField; a built message has version 1, state Created, no signature, ttl 300 when none was set, and passes `validate`; it is built exactly when all three parts are set and valid |
| PayloadCodec.TakeLenPrefixed | crates/gppn-core/src/payment_message.rs:100-108 | a BE u32 length followed by the bytes reads back as those bytes and the rest |
| PayloadCodec.PrefixedOfTake | crates/gppn-core/src/payment_message.rs:100-108 | whatever reads as a length-prefixed field was written that way |
| PayloadCodec.TailRoundTrip | crates/gppn-core/src/payment_message.rs:117-127 | the BE ttl, BE timestamp and optional 32-byte metadata hash read back as written |
| PayloadCodec.TailExact | crates/gppn-core/src/payment_message.rs:117-127 | every byte string that reads as a tail is the encoding of what was read |
| PayloadCodec.MiddleRoundTrip | crates/gppn-core/src/payment_message.rs:110-115 | the 16-byte BE amount and the length-prefixed currency code read back as written |
| PayloadCodec.MiddleExact | crates/gppn-core/src/payment_message.rs:110-115 | every byte string that reads as amount and currency is the encoding of what was read |
| PayloadCodec.HeadRoundTrip | crates/gppn-core/src/payment_message.rs:94-108 | the version byte, the 16-byte id and the length-prefixed sender and receiver read back as written |
| PayloadCodec.HeadExact | crates/gppn-core/src/payment_message.rs:94-108 | every byte string that reads as a head is the encoding of what was read |
| PayloadCodec.EncodePayload | crates/gppn-core/src/payment_message.rs:91-130 | the payload's length is the sum of its fixed fields and its length-prefixed fields |
| PayloadCodec.DecodeEncode | crates/gppn-core/src/payment_message.rs:91-130 | decoding the signing payload gives back every field |
| PayloadCodec.EncodeDecode | crates/gppn-core/src/payment_message.rs:91-130 | every byte string that decodes is the payload of the decoded fields, so the layout is unambiguous |
| PaymentHashing.HashIgnoresSignature | crates/gppn-crypto/src/hashing.rs:10-13 | the message hash is unchanged by signature or state, and equal for messages with equal signing payloads |
| PaymentHashing.HashPaymentMessage | crates/gppn-crypto/src/hashing.rs:10-13 | the digest of the canonical signing payload; `HashIgnoresSignature` states what it does and does not depend on |
| Encryption.ToBytes | crates/gppn-crypto/src/encryption.rs:23-30 | the frame is the 32-byte ephemeral key, then the 12-byte nonce, then the ciphertext |
| Encryption.FromBytes | crates/gppn-crypto/src/encryption.rs:32-50 | fails with "payload too short" exactly below 44 bytes; otherwise splits the input 32 / 12 / rest |
| Encryption.PayloadRoundTrip | crates/gppn-crypto/src/encryption.rs:23-50 | from_bytes(to_bytes(p)) == p |
| Encryption.BytesRoundTrip | crates/gppn-crypto/src/encryption.rs:23-50 | any frame of at least 44 bytes parses and serialises back to itself |
| Encryption.HeaderOnly | crates/gppn-crypto/src/encryption.rs:32-50 | exactly 44 bytes parse, with an empty ciphertext |
| Merkle.NextLevel | crates/veritas-crypto/src/hashing.rs:38-53 | one level up has ceil(n/2) nodes, node i being the hash of nodes 2i and 2i+1, an odd last node paired with itself |
| Merkle.Root | crates/veritas-crypto/src/hashing.rs:27-57 | the empty list has the zero hash as root, a single hash is its own root |
| Merkle.SmallRoots | crates/gppn-crypto/src/hashing.rs:18-48 | the roots of two and three leaves are H(a‖b) and H(H(a‖b)‖H(c‖c)) |
| Merkle.RootOfNextLevel | crates/gppn-crypto/src/hashing.rs:26-47 | with two or more leaves the root is the root of the next level up |
| Merkle.ComputeRoot | crates/gppn-crypto/src/hashing.rs:18-48 | the loop over levels computes the recursive root |
| Merkle.BuildLevel | crates/gppn-crypto/src/hashing.rs:29-43 | the chunk loop builds exactly the next level: pairs hashed left to right, an odd last node hashed with itself |
| Merkle.PathReachesRoot | crates/veritas-crypto/src/zkp.rs:234-279 | climbing from a leaf along the sibling path built for it reaches the root |
| Commitments.CommitmentOpens | crates/veritas-crypto/src/hashing.rs:11-22 | a commitment verifies with the value and nonce it was made from |
| Commitments.CommitmentBinding | crates/veritas-crypto/src/hashing.rs:11-22 | with a collision-free hash a commitment verifies with exactly one (value, nonce), the 32-byte nonce fixing the split |
| Zkp.CommitWithNonce | crates/veritas-crypto/src/zkp.rs:25-28 | the commitment verifies against its value and nonce |
| Zkp.Commit | crates/veritas-crypto/src/zkp.rs:17-22 | returns the nonce it used together with the commitment made from it |
| Zkp.CommitVerifies | crates/veritas-crypto/src/zkp.rs:25-33 | with a collision-free hash a commitment verifies with its own value and nonce and with no others |
| Zkp.ProveRange | crates/veritas-crypto/src/zkp.rs:80-131 | fails with ValueOutOfRange exactly outside [min, max]; a proof carries min and max, a commitment to the LE value that opens with the returned nonce, and the two boundary commitments to value - min and max - value |
| Zkp.VerifyRange | crates/veritas-crypto/src/zkp.rs:134-161 | min > max is InvalidRange, a boundary count other than two is an error, and otherwise the proof is accepted exactly when the challenge is the hash of the public data |
| Zkp.RangeProofVerifies | crates/veritas-crypto/src/zkp.rs:80-161 | every value in range gets a proof that verifies |
| Zkp.TamperedChallengeRejected | crates/veritas-crypto/src/zkp.rs:144-155 | a proof with any other challenge verifies to false |
| Zkp.ProveRangeAsWritten | crates/veritas-crypto/src/zkp.rs:80-97 | the prover as written, with Rust's overflow check on i64 subtraction: it overflows exactly when value - min or max - value leaves the i64 range, and otherwise builds the proof from the two differences as little-endian i64 bytes |
| Zkp.AsWrittenAgreesInside | crates/veritas-crypto/src/zkp.rs:80-131 | without overflow the prover as written and the corrected one agree |
| Zkp.RangeProofOverflowWitness | crates/veritas-crypto/src/zkp.rs:96-97 | value 0 in [i64::MIN, 0] overflows as written, while the corrected prover issues the proof |
| Zkp.Position | crates/veritas-crypto/src/zkp.rs:168-172 | the index of the first member equal to the value, none exactly when it is absent |
| Zkp.Leaves | crates/veritas-crypto/src/zkp.rs:174-175 | one hash per member, in order |
| Zkp.BuildMerkleProof | crates/veritas-crypto/src/zkp.rs:234-279 | the path has one entry per level, is empty for at most one leaf, and climbs from the leaf to the Merkle root |
| Zkp.ProveSetMembership | crates/veritas-crypto/src/zkp.rs:164-207 | fails with ValueNotInSet exactly when the value is absent; a proof carries the root of the members' hashes, a commitment that opens with the value, and a path from the value's hash to that root |
| Zkp.VerifySetMembership | crates/veritas-crypto/src/zkp.rs:210-230 | never an error; true exactly when the root is the expected one and the challenge is the hash of commitment and root |
| Zkp.MembershipProofVerifies | crates/veritas-crypto/src/zkp.rs:164-230 | a member's proof verifies against a root exactly when it is the root of the set |
| RoutingTable.ValidateEntry | crates/gppn-routing/src/drt.rs:76-98 | an entry is valid exactly when the next hop is non-empty, fee rate and trust score lie in [0, 1] and the currency list is non-empty; every rejection is InvalidRouteEntry |
| RoutingTable.RouteEntry.IsExpired | crates/gppn-routing/src/drt.rs:60-63 | expired exactly when at least ttl has elapsed since the last update; a clock reading before the last update never expires |
| RoutingTable.RouteEntry.SupportsCurrency | crates/gppn-routing/src/drt.rs:66-68 | the currency is one the entry lists |
| RoutingTable.Insert | crates/gppn-routing/src/drt.rs:122-128 | the entry is stored under (destination URI, next hop), every other key is untouched, the replaced entry is returned, and the size grows exactly when nothing was replaced |
| RoutingTable.GetRoutes | crates/gppn-routing/src/drt.rs:131-138 | exactly the entries whose key names the destination's URI |
| RoutingTable.RemoveExpired | crates/gppn-routing/src/drt.rs:142-146 | exactly the unexpired entries are kept, unchanged, and the count returned is the number dropped |
| RoutingTable.Update | crates/gppn-routing/src/drt.rs:151-162 | true exactly when the key is present; then only that entry changes, to the updater's result; the key set never changes |
| RoutingTable.Remove | crates/gppn-routing/src/drt.rs:165-168 | returns the entry exactly when the key is present, which is then gone and the size one less; otherwise the table is unchanged |
| RoutingTable.AllEntries | crates/gppn-routing/src/drt.rs:193-195 | one entry per key in iteration order, so every stored entry appears |
| RoutingTable.Destinations | crates/gppn-routing/src/drt.rs:181-190 | sorted without duplicates, and containing exactly the destination URIs of the keys |
| Advertisements.ValidateAdvert | crates/gppn-routing/src/advertisement.rs:121-151 | valid exactly when the peer id is non-empty, there is at least one destination and every fee rate and trust score lies in [0, 1] |
| Advertisements.ValidateAnnouncements | crates/gppn-routing/src/advertisement.rs:132-149 | the loop accepts exactly when every announcement's fee rate and trust score lie in [0, 1] |
| Advertisements.SelfAdvertisement | crates/gppn-routing/src/advertisement.rs:94-113 | one announcement of the node itself with hop count 0, latency 0 and trust 1.0; valid exactly when the peer id is non-empty and the fee rate lies in [0, 1] |
| Advertisements.InsertAcceptedKeys | crates/gppn-routing/src/advertisement.rs:168-196 | after the loop the keys are the old keys plus one per announcement within the hop limit |
| Advertisements.InsertAcceptedValues | crates/gppn-routing/src/advertisement.rs:168-196 | every new or changed entry is the entry built from an accepted announcement, with the hop count raised by one |
| Advertisements.InsertAcceptedFrame | crates/gppn-routing/src/advertisement.rs:168-196 | entries whose next hop is another peer are untouched |
| Advertisements.ProcessAdvertisement | crates/gppn-routing/src/advertisement.rs:161-199 | an invalid advert is returned as its validation error; otherwise the count is the number of announcements with hop count + 1 <= max_hops, each is stored with the advertiser as next hop and a hop count in [1, max_hops], and entries through other peers are untouched |
| Advertisements.HopLimitBoundary | crates/gppn-routing/src/advertisement.rs:170-179 | an announcement at hop count 9 is accepted under max_hops 10 and skipped, leaving the table unchanged, under max_hops 9 |
| Advertisements.Reannounced | crates/gppn-routing/src/advertisement.rs:211-224 | the announcements are exactly the entries with hop count + 1 <= max_hops, re-announced with that hop count, so every hop count lies in [1, max_hops] |
| Advertisements.CreateReadvertisement | crates/gppn-routing/src/advertisement.rs:203-233 | the advert is the local node's, and its announcements are exactly the stored entries within the hop limit with their hop count raised by one |
| Advertisements.ReannouncedFromTable | crates/gppn-routing/src/advertisement.rs:211-224 | every re-announcement comes from a stored entry within the hop limit |
| Advertisements.WrappingIncrement | crates/gppn-routing/src/advertisement.rs:170 | a u32 increment in a release build: one more, except that u32::MAX wraps to 0 |
| Advertisements.ProcessAdvertisementAsWritten | crates/gppn-routing/src/advertisement.rs:161-199 | the processing as written, with a wrapping hop-count increment: Ok exactly for a valid advert, counting at most one entry per announcement |
| Advertisements.MaxHopAnnouncementWraps | crates/gppn-routing/src/advertisement.rs:170-171 | an announcement at hop count u32::MAX is stored as written with hop count 0, whatever max_hops is, while the corrected processing skips it |
| Advertisements.ReannouncedAsWritten | crates/gppn-routing/src/advertisement.rs:214-222 | the re-announcement filter as written, with wrapping increments: at most one announcement per entry |
| Advertisements.MaxHopEntryWraps | crates/gppn-routing/src/advertisement.rs:214-222 | an entry at hop count u32::MAX is re-announced as written with hop count 0, while the corrected filter drops it |
| Routes.HopCount | crates/gppn-routing/src/route.rs:35-37 | the number of hops |
| Routes.EstimatedLatency | crates/gppn-routing/src/route.rs:50-52 | at least the latency of every hop |
| Routes.LatencyBounds | crates/gppn-routing/src/route.rs:50-52 | the latency sum is at least each hop's latency |
| Routes.LatencyAppend | crates/gppn-routing/src/route.rs:50-52 | the latency of a route split in two is the sum of the parts' latencies |
| Routes.TotalCost | crates/gppn-routing/src/route.rs:45-47 | at least each hop's fee on the original amount |
| Routes.FeesBounds | crates/gppn-routing/src/route.rs:45-47 | the fee sum is at least each hop's fee |
| Routes.FeesAppend | crates/gppn-routing/src/route.rs:45-47 | the fees of a route split in two are the sum of the parts' fees, each hop charged on the original amount |
| Routes.MinLiquidity | crates/gppn-routing/src/route.rs:63-69 | 0 for no hops; otherwise a lower bound on every hop's liquidity that is attained by one of them |
| Routes.AllHopsSupportCurrency | crates/gppn-routing/src/route.rs:92-94 | true exactly when every hop lists the route's currency |
| Routes.AllHopsHaveLiquidity | crates/gppn-routing/src/route.rs:97-101 | true exactly when every hop's liquidity covers the amount |
| Routes.LiquidityByMinimum | crates/gppn-routing/src/route.rs:63-101 | for a non-empty route, all hops have liquidity exactly when the minimum liquidity covers the amount |
| PathFinding.Viables | crates/gppn-routing/src/pathfinder.rs:271-275 | exactly the entries that support the currency and have enough liquidity |
| PathFinding.IdMap | crates/gppn-routing/src/pathfinder.rs:281-287 | every destination identifier is mapped, and each mapped id comes from an entry whose identifier it is, mapped to that entry's URI |
| PathFinding.Synthesize | crates/gppn-routing/src/pathfinder.rs:294-305 | known ids are kept, every next hop gets a mapping, and each new mapping is the DID built from the peer id with the given method |
| PathFinding.PeerMap | crates/gppn-routing/src/pathfinder.rs:277-305 | every next hop is mapped, either to the URI of a destination with that identifier or to a synthetic DID with the first entry's method |
| PathFinding.Adjacent | crates/gppn-routing/src/pathfinder.rs:308-319 | every edge is an entry leading to its destination URI from its source node, and every entry gives an edge |
| PathFinding.AdjacencyEdges | crates/gppn-routing/src/pathfinder.rs:262-322 | an edge from u is exactly a stored viable entry whose next hop maps to u, leading to the entry's destination |
| PathFinding.Extend | crates/gppn-routing/src/pathfinder.rs:177-224 | pushing an edge out of a path's end that passes the loop, hop and trust checks keeps the path admissible |
| PathFinding.SuccessorsGood | crates/gppn-routing/src/pathfinder.rs:177-226 | every node an expansion pushes is at the end of an admissible path |
| PathFinding.BudgetStep | crates/gppn-routing/src/pathfinder.rs:152-157 | counting a pop never raises the remaining expansion budget, and lowers it while the node may still expand |
| PathFinding.Pop | crates/gppn-routing/src/pathfinder.rs:147 | the popped node is removed from the queue and nothing else changes |
| PathFinding.StepKeeps | crates/gppn-routing/src/pathfinder.rs:147-227 | one loop iteration keeps every queued node admissible and every found route a route from source to destination, and never exceeds max_routes routes |
| PathFinding.StepShrinks | crates/gppn-routing/src/pathfinder.rs:147-227 | each iteration stops the loop, lowers the expansion budget, or shrinks the queue, so the search ends |
| PathFinding.MakeContext | crates/gppn-routing/src/pathfinder.rs:123-127 | the search context is built from the filtered entries and the peer map of `build_adjacency` |
| PathFinding.RunSearch | crates/gppn-routing/src/pathfinder.rs:129-227 | at most max_routes routes, each non-empty, ending at the destination, chained hop to hop from the source, loop-free, within max_hops, viable and above the trust threshold |
| PathFinding.FindRoutes | crates/gppn-routing/src/pathfinder.rs:110-246 | EmptyRoutingTable exactly for an empty table, NoRouteFound when no route is found, and otherwise between 1 and max_routes routes, each a valid route from `from` to `to` |
| Htlcs.CreateHtlc | crates/gppn-settlement/src/htlc.rs:73-95 | a new Active contract locked by the preimage's hash, stored under its id |
| Htlcs.Claim | crates/gppn-settlement/src/htlc.rs:100-131 | NotFound for an unknown id; a non-Active contract is InvalidStateTransition; an Active contract past its time lock is marked Expired and Expired is returned; a wrong preimage is PreimageMismatch; it succeeds exactly for an Active, unexpired contract with a matching preimage, which becomes Claimed |
| Htlcs.Refund | crates/gppn-settlement/src/htlc.rs:136-162 | NotFound for an unknown id; Claimed or Refunded is InvalidStateTransition; before the time lock it is HtlcNotExpired; it succeeds exactly for an Active or Expired contract at or past its time lock, which becomes Refunded |
| Htlcs.CheckExpiry | crates/gppn-settlement/src/htlc.rs:167-181 | exactly the Active contracts at or past their time lock become Expired, nothing else changes, and the count is their number |
| Htlcs.ExpireIdsEffect | crates/gppn-settlement/src/htlc.rs:171-178 | after the loop over some ids, exactly the visited expiring contracts are marked |
| Htlcs.ExpireIdsCount | crates/gppn-settlement/src/htlc.rs:169-180 | the loop's count is the number of visited expiring contracts |
| Htlcs.FinalStatusesAbsorb | crates/gppn-settlement/src/htlc.rs:108-181 | a Claimed or Refunded contract is left unchanged by claim, refund and check_expiry |
| Htlcs.ClaimRefundExclusive | crates/gppn-settlement/src/htlc.rs:100-162 | claim and refund never both succeed on the same contract at the same time |
| Htlcs.SecondClaimFails | crates/gppn-settlement/src/htlc.rs:108-113 | a contract cannot be claimed twice |
| InternalLedger.KeyDistinct | crates/gppn-settlement/src/adapters/internal.rs:63-65 | two different DIDs never share a balance key in one currency |
| InternalLedger.GetBalance | crates/gppn-settlement/src/adapters/internal.rs:68-71 | a key never written reads as 0 |
| InternalLedger.Post | crates/gppn-settlement/src/adapters/internal.rs:113-120 | one balance moves by the delta, a missing key starting at 0, and no other balance changes |
| InternalLedger.Initiate | crates/gppn-settlement/src/adapters/internal.rs:154-173 | stores an Initiated record under the new id and leaves the balances alone |
| InternalLedger.Confirm | crates/gppn-settlement/src/adapters/internal.rs:175-219 | NotFound for an unknown id; InvalidStateTransition, changing nothing, unless Initiated or Pending; otherwise the record becomes Confirmed, the sender is debited and the receiver credited by the amount (a self-transfer leaves that balance as it was), every other balance is unchanged, and the receipt carries the adapter id and "internal-" + the payment id |
| InternalLedger.Rollback | crates/gppn-settlement/src/adapters/internal.rs:221-252 | NotFound for an unknown id; succeeds exactly from Initiated, Pending or Confirmed and marks the record RolledBack; from Initiated or Pending the balances stay as they were; from Confirmed the sender is credited and the receiver debited by the amount (a self-transfer changes nothing) and every other balance is unchanged; a failure changes nothing |
| InternalLedger.GetStatus | crates/gppn-settlement/src/adapters/internal.rs:254-263 | the stored status, or NotFound |
| InternalLedger.EstimateCost | crates/gppn-settlement/src/adapters/internal.rs:265-268 | always a zero amount in the requested currency |
| InternalLedger.EstimateLatency | crates/gppn-settlement/src/adapters/internal.rs:270-273 | always zero |
| InternalLedger.SupportedCurrencies | crates/gppn-settlement/src/adapters/internal.rs:275-287 | nine currencies, among them USD, BRL and BTC, none custom and neither CNY nor SOL |
| InternalLedger.TotalPost | crates/gppn-settlement/src/adapters/internal.rs:113-120 | posting a delta moves the sum of all balances by that delta |
| InternalLedger.TransferConserves | crates/gppn-settlement/src/adapters/internal.rs:74-143 | a debit paired with the matching credit leaves the sum of all balances unchanged |
| InternalLedger.ConfirmConserves | crates/gppn-settlement/src/adapters/internal.rs:175-219 | confirm keeps the sum of all balances |
| InternalLedger.RollbackConserves | crates/gppn-settlement/src/adapters/internal.rs:221-252 | rollback keeps the sum of all balances |
| InternalLedger.ApplyConserves | crates/gppn-settlement/src/adapters/internal.rs:154-252 | every ledger operation keeps the sum of all balances |
| InternalLedger.BalancesSumToZero | crates/gppn-settlement/src/adapters/internal.rs:12-25 | from a zero-sum ledger, any sequence of operations leaves the balances summing to zero, as double-entry bookkeeping promises |
| InternalLedger.ConfirmThenRollbackRestores | crates/gppn-settlement/src/adapters/internal.rs:175-252 | rolling back a confirmed settlement restores every balance |
| InternalLedger.AsI128 | crates/gppn-settlement/src/adapters/internal.rs:81 | the `as i128` cast: values below 2^127 are kept, larger ones wrap to a negative number |
| InternalLedger.ConfirmAsWritten | crates/gppn-settlement/src/adapters/internal.rs:175-219 | confirm with the wrapping cast: the same result and records as the corrected confirm |
| InternalLedger.HugeAmountCreditsSender | crates/gppn-settlement/src/adapters/internal.rs:81-116 | a settlement of 2^127 + 1 leaves the sender's balance at +(2^127 - 1) as written, while the corrected ledger debits it by the amount |
| SettlementManager.Register | crates/gppn-settlement/src/manager.rs:26-30 | the adapter is stored under its id, replacing an earlier one, and no other id changes |
| SettlementManager.Unregister | crates/gppn-settlement/src/manager.rs:33-35 | the id is gone afterwards; the adapter is returned and the count drops exactly when it was registered; otherwise nothing changes |
| SettlementManager.GetAdapter | crates/gppn-settlement/src/manager.rs:38-43 | the registered adapter, or AdapterNotFound with the id |
| SettlementManager.AdapterCount | crates/gppn-settlement/src/manager.rs:123-125 | the number of registered ids; registering raises it by one for a new id and unregistering a present id lowers it by one |
| SettlementManager.AdapterIds | crates/gppn-settlement/src/manager.rs:46-48 | every registered id once |
| SettlementManager.Dispatch | crates/gppn-settlement/src/manager.rs:51-81 | an unknown adapter id is AdapterNotFound and changes nothing; otherwise the adapter's own result, with only that adapter's state updated |
| SettlementManager.Query | crates/gppn-settlement/src/manager.rs:84-120 | an unknown adapter id is AdapterNotFound; otherwise the adapter's own answer |
| SettlementManager.UnknownIgnoresCall | crates/gppn-settlement/src/manager.rs:59 | for an unknown id the outcome does not depend on the call |
| SettlementManager.RegisterUnregister | crates/gppn-settlement/src/manager.rs:26-43 | a registered adapter is found by its id, and no longer after it is unregistered |
| ChainAdapters.New | services/sa-stablecoin/adapter.go:77-87 | an adapter for the chain with no transactions |
| ChainAdapters.SupportedCurrencies | services/sa-stablecoin/adapter.go:209-211 | USDC and USDT for the stablecoin service, ETH and WETH for Ethereum, BTC for Bitcoin |
| ChainAdapters.Validate | services/sa-stablecoin/adapter.go:96-111 | payment id, then amount, then (stablecoin only) currency and its support, then destination address; a request passes exactly when all are present and, on the stablecoin service, the currency is supported |
| ChainAdapters.Initiate | services/sa-ethereum/adapter.go:76-104 | a rejected request stores nothing and returns the first failed check; an accepted one stores and returns a PENDING transaction with the service's fee and the call's timestamp |
| ChainAdapters.Finish | services/sa-bitcoin/adapter.go:107-149 | an unknown id is TransactionNotFound and a non-PENDING one NotPending, both changing nothing; a PENDING one moves to the target status with a new timestamp and message |
| ChainAdapters.Confirm | services/sa-stablecoin/adapter.go:133-151 | succeeds exactly for a stored PENDING transaction, which becomes CONFIRMED with the call's timestamp; a failure changes nothing |
| ChainAdapters.Rollback | services/sa-stablecoin/adapter.go:154-172 | succeeds exactly for a stored PENDING transaction, which becomes ROLLED_BACK with the call's timestamp; a failure changes nothing |
| ChainAdapters.GetStatus | services/sa-stablecoin/adapter.go:175-189 | the stored result, or TransactionNotFound |
| ChainAdapters.EstimateCost | services/sa-stablecoin/adapter.go:191-207 | an empty amount is AmountRequired; the stablecoin service also rejects a non-empty unsupported currency; the stablecoin and Bitcoin totals equal their fixed fees |
| ChainAdapters.SettledStaysSettled | services/sa-ethereum/adapter.go:106-146 | a transaction that has left PENDING is never changed by later calls unless its id is minted again |
| ChainAdapters.InitiateThenStatus | services/sa-stablecoin/adapter.go:96-189 | an accepted transaction is found PENDING by its id |
| ChainAdapters.NoRollbackAfterSettling | services/sa-bitcoin/adapter.go:107-149 | after confirm or rollback, neither confirm nor rollback succeeds again |
| VeritasTypes.NewDid | crates/veritas-core/src/types.rs:13-28 | a Veritas DID is accepted exactly when it starts with "did:veritas:" and has at least four colon-separated parts; the URI is kept verbatim and a rejection names it |
| VeritasTypes.DidFromParts | crates/veritas-core/src/types.rs:31-49 | the DID built from a method and an identifier is accepted by `Did::new`, and a colon-free method reads back as the method with the identifier as the rest |
| VeritasTypes.Did.Method | crates/veritas-core/src/types.rs:41-43 | the third ':'-separated part of the URI, as `DidSyntax.Method` states |
| VeritasTypes.Did.Identifier | crates/veritas-core/src/types.rs:46-49 | everything after the third ':', as `DidSyntax.Identifier` states |
| VeritasTypes.NewSchemaId | crates/veritas-core/src/types.rs:199-201 | wraps the text unchanged; `SchemaIdRoundTrip` gives it back |
| VeritasTypes.SchemaIdRoundTrip | crates/veritas-core/src/types.rs:199-206 | a schema id returns the text it was made from, so two ids are equal exactly when their texts are |
| VeritasTypes.StringClaim | crates/veritas-core/src/types.rs:126-132 | a string claim carries its name and a string value equal to the input |
| VeritasTypes.IntegerClaim | crates/veritas-core/src/types.rs:134-140 | an integer claim carries its name and the given `i64` value |
| VeritasTypes.BooleanClaim | crates/veritas-core/src/types.rs:142-148 | a boolean claim carries its name and the given value |
| VeritasTypes.DateClaim | crates/veritas-core/src/types.rs:150-156 | a date claim carries its name and the date text |
| VeritasTypes.BytesClaim | crates/veritas-core/src/types.rs:158-164 | a bytes claim carries its name and the raw bytes |
| CredentialStates.Transition | crates/veritas-core/src/credential_state.rs:104-151 | a transition succeeds exactly for the nine (state, event) pairs of the table, landing on the event's target; any other pair fails naming the current state and that target; revoked and expired credentials accept nothing, a draft accepts only Issue, and Expire is refused before activation |
| CredentialStates.CredentialState.IsFinal | crates/veritas-core/src/credential_state.rs:24-26 | Revoked and Expired are the final states; `Transition` refuses every event from them |
| CredentialStates.CanTransition | crates/veritas-core/src/credential_state.rs:154-156 | `can_transition` holds exactly when `transition` succeeds |
| CredentialStates.TransitionCount | crates/veritas-core/src/credential_state.rs:104-151 | the table has exactly nine entries |
| CredentialStates.SuspendReinstate | crates/veritas-core/src/credential_state.rs:117-122 | an active credential can be suspended and reinstated back to active |
| CredentialStates.ToProto | crates/veritas-core/src/credential_state.rs:29-38 | every state maps to a protobuf code in 1..6 |
| CredentialStates.FromProto | crates/veritas-core/src/credential_state.rs:41-54 | a code decodes exactly when it lies in 1..6; any other code is a validation error |
| CredentialStates.ProtoRoundTrip | crates/veritas-core/src/credential_state.rs:29-54 | decoding the code of a state gives that state back |
| CredentialStates.ProtoCodeRoundTrip | crates/veritas-core/src/credential_state.rs:29-54 | encoding a decoded code gives the code back |
| Credentials.OtherTypes | crates/veritas-identity/src/credentials.rs:50-55 | the caller's types without the base type, in order; unchanged when the base type is absent |
| Credentials.NewCredential | crates/veritas-identity/src/credentials.rs:44-67 | a new credential lists "VerifiableCredential" first and exactly once, followed by the caller's other types; it has a "urn:uuid:" id, no proof, no expiry, and the given issuer, subject, claims and issuance time |
| Credentials.WithExpiration | crates/veritas-identity/src/credentials.rs:70-73 | sets the expiry and changes nothing else |
| Credentials.PayloadIgnoresProof | crates/veritas-identity/src/credentials.rs:79-91 | the signing payload does not depend on the proof field, so it is the same before and after issuance |
| Credentials.SigningPayload | crates/veritas-identity/src/credentials.rs:79-91 | the canonical serialization of every field but the proof; `PayloadIgnoresProof` states that the proof does not enter it |
| Credentials.Credential.IsSigned | crates/veritas-identity/src/credentials.rs:140-142 | a proof is attached |
| Credentials.Credential.IsExpired | crates/veritas-identity/src/credentials.rs:145-149 | an expiration date is present and the clock reading is past it; a credential without one never expires |
| Credentials.Issue | crates/veritas-identity/src/credentials.rs:96-108 | issuing attaches an Ed25519Signature2020 proof whose method is the issuer's "#keys-1" and whose signature is the hex of the signed payload; nothing else changes |
| Credentials.VerifyProof | crates/veritas-identity/src/credentials.rs:111-137 | no proof and an expired credential are the two named errors; otherwise verification succeeds exactly when the signature decodes to 64 bytes that verify over the signing payload |
| Credentials.IssuedVerifies | crates/veritas-identity/src/credentials.rs:96-137 | with a sound signer, an issued credential verifies under the issuer's key exactly when it has not expired |
| Schemas.NewRegistry | crates/veritas-credentials/src/schema.rs:43-154 | a new registry holds exactly the four builtin schemas, each under its own id and with claims |
| Schemas.Register | crates/veritas-credentials/src/schema.rs:157-165 | an empty claim list is refused with the registry unchanged; otherwise the schema is stored under its id, replacing an earlier one, and the count grows only for a new id |
| Schemas.Get | crates/veritas-credentials/src/schema.rs:168-170 | returns the schema exactly when its id is registered |
| Schemas.Count | crates/veritas-credentials/src/schema.rs:178-180 | the number of registered schema ids; `Register` raises it by one for a new id |
| Schemas.FirstMissing | crates/veritas-credentials/src/schema.rs:196-205 | finds no index exactly when every required claim is present, and otherwise the first required claim absent in definition order |
| Schemas.ValidateClaims | crates/veritas-credentials/src/schema.rs:183-206 | an unknown id is SchemaNotFound and a non-object is InvalidSchema; an object passes exactly when every required claim is present, and otherwise the error names the first missing one |
| Schemas.ExtraClaimsAllowed | crates/veritas-credentials/src/schema.rs:196-206 | adding any key to claims that pass still passes |
| Schemas.ResidencyRegionOptional | crates/veritas-credentials/src/schema.rs:108-129 | residency claims pass with only "country" and fail without it |
| CredentialVerifier.AddTrustedIssuer | crates/veritas-credentials/src/verifier.rs:48-50 | the issuer becomes trusted with the given key, and no other issuer changes |
| CredentialVerifier.RemoveTrustedIssuer | crates/veritas-credentials/src/verifier.rs:53-65 | reports whether the issuer was present; afterwards it is not trusted, the others are unchanged, and the count drops accordingly |
| CredentialVerifier.IsTrustedIssuer | crates/veritas-credentials/src/verifier.rs:58-60 | the DID has a registered key; `AddTrustedIssuer` and `RemoveTrustedIssuer` state how it changes |
| CredentialVerifier.CheckOf | crates/veritas-credentials/src/verifier.rs:81-131 | a check carries a failure detail exactly when it did not pass |
| CredentialVerifier.VerifyCredential | crates/veritas-credentials/src/verifier.rs:68-137 | an unsigned credential gets only a failed signature_present check; a signed one gets signature_present, issuer_trusted, signature_valid and not_expired in that order; the signature counts as valid only for a trusted issuer whose key verifies it; the result is valid exactly when every check passed |
| CredentialVerifier.IssuedByTrustedIsValid | crates/veritas-credentials/src/verifier.rs:68-137 | an unexpired credential issued under a trusted issuer's key passes verification |
| Wallets.NewWallet | crates/veritas-credentials/src/holder.rs:17-22 | a new wallet belongs to the owner and is empty |
| Wallets.Store | crates/veritas-credentials/src/holder.rs:30-41 | a credential about someone other than the owner is refused with the wallet unchanged; otherwise it is stored under its id, replacing an entry with that id |
| Wallets.Get | crates/veritas-credentials/src/holder.rs:44-46 | returns the credential exactly when its id is stored |
| Wallets.Remove | crates/veritas-credentials/src/holder.rs:63-75 | returns what `get` returned; afterwards the id is gone, the owner and every other credential are as they were, and the count drops by one exactly when something was removed |
| Wallets.Count | crates/veritas-credentials/src/holder.rs:63-65 | the number of stored credential ids; `Store` and `Remove` state how it changes |
| Wallets.ListByType | crates/veritas-credentials/src/holder.rs:54-60 | lists exactly the stored credentials whose type list contains the type |
| Wallets.ActiveCredentials | crates/veritas-credentials/src/holder.rs:78-84 | lists exactly the stored credentials that have not expired |
| TrustGraphs.NewGraph | crates/veritas-identity/src/trust_graph.rs:34-38 | a new graph has no edges |
| TrustGraphs.AddEdge | crates/veritas-identity/src/trust_graph.rs:44-66 | a weight outside [-1, 1] is refused with the graph unchanged; otherwise the pair's score becomes the weight, a new edge starts with one interaction and an existing one gains one, and the other edges are untouched |
| TrustGraphs.GetScore | crates/veritas-identity/src/trust_graph.rs:69-72 | a score exists exactly when the edge does and is its weight |
| TrustGraphs.GetEdge | crates/veritas-identity/src/trust_graph.rs:75-78 | returns the edge exactly when it exists |
| TrustGraphs.RemoveEdge | crates/veritas-identity/src/trust_graph.rs:81-84 | returns the removed edge; afterwards the pair has no score, every other edge is unchanged, and the count drops when one was removed |
| TrustGraphs.EdgeCount | crates/veritas-identity/src/trust_graph.rs:217-219 | the number of (from, to) pairs with an edge; `AddEdge` and `RemoveEdge` state how it changes |
| TrustGraphs.SelectCount | crates/veritas-identity/src/trust_graph.rs:87-102 | filtering a duplicate-free listing of edge keys yields one edge per selected key |
| TrustGraphs.OutgoingEdges | crates/veritas-identity/src/trust_graph.rs:87-93 | returns exactly the edges that leave the DID, one per edge |
| TrustGraphs.IncomingEdges | crates/veritas-identity/src/trust_graph.rs:96-102 | returns exactly the edges that reach the DID, one per edge |
| TrustGraphs.RepeatedAddCountsInteractions | crates/veritas-identity/src/trust_graph.rs:49-63 | adding the same pair twice leaves the second weight and two interactions |
| DidManagers.NewManager | crates/gppn-identity/src/did.rs:68-75 | a new manager stores no DIDs |
| DidManagers.CreatedUri | crates/gppn-identity/src/did.rs:30-31 | every URI `create_did` builds starts with "did:gppn:" |
| DidManagers.CreateDid | crates/gppn-identity/src/did.rs:29-44 | an already-stored URI is DuplicateDid with the store unchanged; otherwise a fresh document for that URI is stored and the count grows by one; a colon-free method reads back from the returned DID |
| DidManagers.ResolveDid | crates/gppn-identity/src/did.rs:49-51 | resolution succeeds exactly for a stored URI and returns its document |
| DidManagers.UpdateDocument | crates/gppn-identity/src/did.rs:54-60 | an unknown id is DidNotFound with the store unchanged; a known one is replaced and the count stays |
| DidManagers.RemoveDid | crates/gppn-identity/src/did.rs:63-65 | returns what resolution returned; afterwards the DID does not resolve, the others resolve as before, and the count drops accordingly |
| DidManagers.ListDids | crates/gppn-identity/src/did.rs:78-80 | lists exactly the resolvable DIDs, each once |
| DidManagers.Count | crates/gppn-identity/src/did.rs:68-70 | the number of stored DIDs; `CreateDid` raises it by one and `RemoveDid` lowers it by one when something was removed |
| DidManagers.CreatedResolves | crates/gppn-identity/src/did.rs:29-51 | a created DID resolves to a document whose id is that URI and whose primary key is the given key |
| DidManagers.DuplicateCreateRejected | crates/gppn-identity/src/did.rs:33-36 | creating the same method and key twice fails the second time with DuplicateDid, leaving the store as it was |
| DidDocuments.NewDocument | crates/gppn-identity/src/document.rs:45-60 | a new document has exactly one method, "<id>#keys-1" of type Ed25519VerificationKey2020 controlled by the id, and no services |
| DidDocuments.AddService | crates/gppn-identity/src/document.rs:63-72 | appends one service numbered one past the previous count and changes nothing else but the update time |
| DidDocuments.AddVerificationMethod | crates/gppn-identity/src/document.rs:75-89 | appends one method "<id>#keys-k" controlled by the id, keeps the numbering, and leaves the primary key as it was |
| DidDocuments.PrimaryPublicKey | crates/gppn-identity/src/document.rs:92-96 | the key of the first method, absent exactly when there are no methods |
| DidDocuments.NumberedIdsDistinct | crates/gppn-identity/src/document.rs:64-82 | in a consistently numbered document no two methods and no two services share an id |
| Decimal.NatToStringValue | crates/gppn-identity/src/document.rs:63-89 | the decimal text of an index reads back as that index |
| Decimal.NatToStringInjective | crates/gppn-identity/src/document.rs:63-89 | different indices format to different text |
| DidResolvers.LocalResolve | crates/veritas-identity/src/did_resolver.rs:28-32 | resolves exactly the stored DIDs to their documents, and any other DID to DidNotFound |
| DidResolvers.Local | crates/veritas-identity/src/did_resolver.rs:20-33 | the local resolver behaves as `LocalResolve` on every DID |
| DidResolvers.NewComposite | crates/veritas-identity/src/did_resolver.rs:44-48 | a new composite resolver has no resolvers |
| DidResolvers.AddResolver | crates/veritas-identity/src/did_resolver.rs:51-58 | appends the resolver at the end and the count grows by one |
| DidResolvers.ResolverCount | crates/veritas-identity/src/did_resolver.rs:56-58 | the number of registered resolvers; `AddResolver` appends one |
| DidResolvers.ResolveChain | crates/veritas-identity/src/did_resolver.rs:69-83 | succeeds exactly when some resolver does, with the first success in order; otherwise the last resolver's error, or the initial error when there are none |
| DidResolvers.Resolve | crates/veritas-identity/src/did_resolver.rs:69-83 | with no resolvers the answer is "no resolvers configured"; otherwise the first successful resolver answers, and when all fail the last one's error is returned |
| DidResolvers.FallsThroughToLocal | crates/veritas-identity/src/did_resolver.rs:72-75 | behind a resolver that always fails, a stored DID still resolves to its document and an unknown one reports the local DidNotFound |
| IdentityProofs.ComputeAge | crates/veritas-proof/src/age_proof.rs:45-51 | the age is the number of birthdays reached: the age-th birthday has been reached by today and the next one has not |
| IdentityProofs.AgeExamples | crates/veritas-proof/src/age_proof.rs:95-106 | born 1990-06-15: 34 on 2025-01-01, 35 on 2025-06-15, 34 on 2025-06-14 |
| IdentityProofs.AgeCounts | crates/veritas-proof/src/age_proof.rs:45-51 | the n-th birthday has been reached exactly when n is at most the age |
| IdentityProofs.CreateAgeProof | crates/veritas-proof/src/age_proof.rs:23-35 | fails exactly when the age is outside [min_age, 150]; a proof records min_age and a range proof over [min_age, 150] |
| IdentityProofs.VerifyAgeProof | crates/veritas-proof/src/age_proof.rs:38-41 | the verdict of the range verifier, with its errors wrapped |
| IdentityProofs.AgeProofVerifies | crates/veritas-proof/src/age_proof.rs:23-41 | whoever has reached the min_age-th birthday and not the 151st gets an age proof that verifies |
| IdentityProofs.CreateKycProof | crates/veritas-proof/src/kyc_level_proof.rs:24-38 | fails exactly when the level is outside [min_level, 3]; a proof records min_level and max_level 3 |
| IdentityProofs.VerifyKycProof | crates/veritas-proof/src/kyc_level_proof.rs:41-44 | the verdict of the range verifier, with its errors wrapped |
| IdentityProofs.KycProofVerifies | crates/veritas-proof/src/kyc_level_proof.rs:24-44 | a created KYC proof verifies, and level 0 against minimum 1 and level 1 against minimum 2 are refused |
| IdentityProofs.KycLevelOverflowWitness | crates/veritas-crypto/src/zkp.rs:96-97 | level 0 against minimum `i64::MIN` overflows in the range prover as written, while the corrected prover issues the proof |
| IdentityProofs.CreateResidencyProof | crates/veritas-proof/src/residency_proof.rs:22-42 | fails exactly when the country is not allowed; a proof publishes the number of allowed entries and the Merkle root of their hashes, which is also the membership proof's root |
| IdentityProofs.VerifyResidencyProof | crates/veritas-proof/src/residency_proof.rs:45-48 | accepts exactly when the membership proof names the published root and its challenge is the hash of commitment and root |
| IdentityProofs.ResidencyProofVerifies | crates/veritas-proof/src/residency_proof.rs:22-48 | every allowed country gets a residency proof that verifies |
| Discovery.ParseAll | crates/veritas-network/src/discovery.rs:30-36 | succeeds exactly when every address parses, keeping them in order; otherwise it reports the first that does not |
| Discovery.NewDiscovery | crates/veritas-network/src/discovery.rs:29-44 | fails exactly when some bootstrap address does not parse; otherwise the addresses are kept and all three peer sets start empty |
| Discovery.AddMdnsPeer | crates/veritas-network/src/discovery.rs:52-55 | adds the peer to the mDNS set only, after which it is known |
| Discovery.RemoveMdnsPeer | crates/veritas-network/src/discovery.rs:58-61 | removes the peer from the mDNS set only; it stays known exactly when Kademlia or manual dialing knows it |
| Discovery.AddKadPeer | crates/veritas-network/src/discovery.rs:64-67 | adds the peer to the Kademlia set only, after which it is known |
| Discovery.AddManualPeer | crates/veritas-network/src/discovery.rs:70-73 | adds the peer to the manual set only, after which it is known |
| Discovery.AllKnownPeers | crates/veritas-network/src/discovery.rs:76-81 | the union of the three sets |
| Discovery.IsKnown | crates/veritas-network/src/discovery.rs:89-93 | a peer is known exactly when it is among all known peers |
| Discovery.KnownPeerCount | crates/veritas-network/src/discovery.rs:84-86 | the number of distinct peers known by any mechanism; `KnownPeersDeduplicated` states that a peer known three ways counts once |
| Discovery.AddsIdempotent | crates/veritas-network/src/discovery.rs:52-73 | adding a peer twice to any set is the same as adding it once |
| Discovery.KnownPeersDeduplicated | crates/veritas-network/src/discovery.rs:84-86 | one peer learnt from all three sources counts once, three distinct peers count three |
| Discovery.MdnsExpiryForgets | crates/veritas-network/src/discovery.rs:58-61 | a peer known only through mDNS is forgotten when mDNS expires it, and the count drops by one |
| SelectiveDisclosures.NewDisclosure | crates/veritas-crypto/src/selective_disclosure.rs:19-23 | a new disclosure holds no claims |
| SelectiveDisclosures.AddClaim | crates/veritas-crypto/src/selective_disclosure.rs:27-32 | stores the commitment and its nonce under the name, replacing an earlier claim of that name; the commitment opens with the value; other claims are unchanged and the length grows only for a new name |
| SelectiveDisclosures.Len | crates/veritas-crypto/src/selective_disclosure.rs:51-53 | the number of committed claim names; `AddClaim` raises it by one for a new name |
| SelectiveDisclosures.CommitmentFor | crates/veritas-crypto/src/selective_disclosure.rs:35-37 | the commitment of a stored name, and nothing for an unknown one |
| SelectiveDisclosures.RevealClaim | crates/veritas-crypto/src/selective_disclosure.rs:41-43 | the stored commitment and nonce of a known name, agreeing with `commitment_for`; nothing for an unknown one |
| SelectiveDisclosures.ClaimNames | crates/veritas-crypto/src/selective_disclosure.rs:46-53 | lists exactly the names with a commitment, as many as the length |
| SelectiveDisclosures.VerifyRevealed | crates/veritas-crypto/src/selective_disclosure.rs:75-81 | never an error; true exactly when the hash of value and nonce is the commitment |
| SelectiveDisclosures.CommitmentRoot | crates/veritas-crypto/src/selective_disclosure.rs:62-72 | the Merkle root over the commitment hashes of all claims taken in increasing name order |
| SelectiveDisclosures.RootIndependentOfOrder | crates/veritas-crypto/src/selective_disclosure.rs:62-72 | the root does not depend on the order the claim map lists its names in |
| SelectiveDisclosures.RevealAfterAdd | crates/veritas-crypto/src/selective_disclosure.rs:27-43 | a claim just added reveals a commitment and nonce that verify with its value, and the other claims reveal as before |
| SelectiveDisclosures.RevealedBinding | crates/veritas-crypto/src/selective_disclosure.rs:75-81 | with a collision-free hash a commitment does not open with a different value |
| Config.DefaultConfig | services/pkg/config/config.go:22-29 | the defaults: the given name, port 8080, log level "info", metrics port 9090 |
| Config.Trim | services/pkg/config/config.go:57-60 | strips exactly the leading and trailing characters of the class and keeps the middle |
| Config.TrimIdempotent | services/pkg/config/config.go:45-60 | trimming twice is trimming once |
| Config.TrimSpace | services/pkg/config/config.go:45 | the result neither starts nor ends with white space and holds only characters of the input |
| Config.IndexOf | services/pkg/config/config.go:52 | the position of the first '=' exactly when there is one |
| Config.ParseLine | services/pkg/config/config.go:45-60 | blank lines, comments, section headers and lines without '=' are skipped; otherwise the line splits at its first '=', with the key trimmed and the value trimmed and stripped of surrounding quotes |
| Config.ParseLineRoundTrip | services/pkg/config/config.go:45-60 | a line written as `key = "value"` reads back as that key and value |
| Config.Apply | services/pkg/config/config.go:62-79 | the four known keys set their field; a port or metrics_port that is not an integer is an error that leaves the configuration as it was; other keys change nothing |
| Config.Load | services/pkg/config/config.go:44-80 | succeeds exactly when every line is accepted; otherwise the error is that of the first line that is not |
| Config.LoadFromFile | services/pkg/config/config.go:34-87 | loads the file's lines over the defaults with an empty name, failing exactly when some line sets a port to a non-integer |
| Config.LastValue | services/pkg/config/config.go:62-79 | the value of the last setting of a key, absent exactly when the key is never set |
| Config.LastSettingWins | services/pkg/config/config.go:62-79 | after loading, every field holds the value of its key's last setting, or its earlier value when the key is never set |
| Config.CommentsOnly | services/pkg/config/config.go:47-50 | a file of skipped lines loads as the defaults without error |
| Config.LaterLineOverrides | services/pkg/config/config.go:62-79 | a later name line overrides an earlier one, an unknown key changes nothing, and a non-numeric port stops loading with its error |
| Decimal.Atoi | services/pkg/config/config.go:62-79 | accepts exactly an optionally signed run of decimal digits whose value fits in 64 bits, returning that value |
| Decimal.AtoiOfNat | services/pkg/config/config.go:62-79 | the decimal text of any value up to `i64::MAX` parses back to it |
| Decimal.AtoiRejectsNonDigit | services/pkg/config/config.go:66-69 | a value with a non-digit character after any sign is rejected |
| Bytes.U32RoundTrip | crates/gppn-core/src/payment_message.rs:100-115 | the 4-byte big-endian form of a `u32` length reads back as the length, and every 4-byte string is such a form |
| Bytes.U64RoundTrip | crates/gppn-core/src/payment_message.rs:117-121 | the 8-byte big-endian form of a `u64` reads back as the value, and every 8-byte string is such a form |
| Bytes.U128RoundTrip | crates/gppn-core/src/payment_message.rs:110-111 | the 16-byte big-endian form of a `u128` amount reads back as the value, and every 16-byte string is such a form |

## Left out

- Networking, event loops, node orchestration, HTTP and CLI layers, storage and service mains are not part of this model.
- `LoadFromEnv` and opening and reading the config file are not modelled. `Config.LoadFromFile` takes the file's contents, and the scanner's 64 KiB line limit is not modelled.
- Cryptographic primitives are uninterpreted function parameters. These are BLAKE3, Ed25519 (RFC 8032), X25519 key agreement with ChaCha20-Poly1305, bs58 and hex. Injectivity is assumed only in the lemmas that need it.
- The prost byte encoding is not modelled. Only the field mapping of `to_proto`/`from_proto` is.
- Error messages are reduced to the values they name. Where the source formats a message around a value (an invalid DID, a bad bootstrap address, a bad port), the model keeps only that value.
- Floating-point arithmetic is not modelled:
  - `RouteScore::compute`, `fee_for` (f64 `ceil`), `min_trust_score`, `liquidity_score`, the route search's heap ordering and its final sort by score;
  - trust scores and `TrustGraph::compute_scores`/`all_dids`;
  - the humanity-proof bundle's confidence score.
- Fee rates, trust scores and trust weights are exact reals, so NaN is not modelled. The path finder's heap order is the `pick` parameter: the properties hold for whatever node is taken next.
- The uuid, chrono and `Utc::now` calls are explicit arguments, and so are the Go adapters' clock readings. The decimal formatting of the Go adapters' clock readings is the `itoa` parameter.
- veritas-identity's own `did.rs`, `document.rs` and `error.rs` are not part of this model. `DidResolvers` resolves against the GPPN DID manager model (`DidManagers`), which has the same `resolve_did` behaviour.
- Routes.TotalCost: the `u128` sum of fees is an unbounded `nat`, so an overflowing sum is not modelled.
- Routes.EstimatedLatency: the `u64` sum of latencies is an unbounded `nat`, so an overflowing sum is not modelled.
- TrustGraphs.AddEdge: the `u64` interaction counter is an unbounded `nat`, so wrap-around after 2^64 updates is not modelled.
- PathFinding.FindRoutes: the final sort by score is left out, so the contract says which routes are returned and not their order.
- PathFinding.FindRoutes: the running sums at crates/gppn-routing/src/pathfinder.rs:195-196 are unbounded. These are the `u128` cost and the `u64` latency. A debug build panics on an overflowing sum and aborts the search; the model does not.
- InternalLedger.Confirm: balances are unbounded integers, not `i128`. Two overflows are not modelled: `*b -= value` and `*b += value` past the `i128` range, and `-value` when the cast value is exactly `i128::MIN` (an amount of 2^127). A debug build panics on either and a release build wraps.
- InternalLedger.Rollback: the same holds for the reversed posting in `reverse_entries`: its balance arithmetic and `-value` are taken as unbounded integers.
- InternalLedger.ConfirmAsWritten: writes out only the wrapping `as i128` cast. The balance arithmetic after the cast stays unbounded, and negating a cast value of -2^127 gives 2^127 rather than a panic or a wrap.
- ChainAdapters.Initiate: the Go adapters return a pointer to the stored `SettlementResult`, and so do `Confirm`, `Rollback` and `GetStatus`. A caller that writes through that pointer changes the stored transaction. The model returns values, so this aliasing is not modelled.
- ChainAdapters.Initiate: the source reads the clock twice, once for the transaction id and once for the timestamp. The model takes one reading, `nanos`, for both.
- CredentialVerifier.VerifyCredential: the source reads the clock twice, in `verify_proof` and in `is_expired`. The model takes one reading, `now`, for both, so a credential that expires between the two readings is not modelled.
- Credentials.NewCredential: JSON numbers in claims are reduced to integers.

## Findings

| source | as written | input that shows it | evidently intended | confidence | as-written member | corrected member |
|---|---|---|---|---|---|---|
| crates/gppn-routing/src/advertisement.rs:170-171 | `dest.hop_count + 1` on a `u32` wraps to 0 in a release build, so the `> max_hops` guard passes | an announcement with hop count `u32::MAX` is stored with hop count 0 whatever `max_hops` is | an announcement one past the limit is skipped | not executed | Advertisements.MaxHopAnnouncementWraps | Advertisements.ProcessAdvertisement |
| crates/gppn-routing/src/advertisement.rs:214-222 | `e.hop_count + 1` on a `u32` wraps in the filter and in the re-announced hop count | a table entry with hop count `u32::MAX` is re-announced with hop count 0 | entries at the limit are not re-announced | not executed | Advertisements.MaxHopEntryWraps | Advertisements.CreateReadvertisement |
| crates/gppn-settlement/src/adapters/internal.rs:81-116 | `amount.value as i128` wraps amounts of 2^127 and above to negative values | confirming a settlement of 2^127 + 1 leaves the sender's balance at 2^127 - 1 instead of -(2^127 + 1); at exactly 2^127 the cast gives `i128::MIN` and `-value` overflows, which is not modelled | the sender is debited and the receiver credited by the amount | not executed | InternalLedger.HugeAmountCreditsSender | InternalLedger.Confirm |
| crates/gppn-core/src/payment_message.rs:84-87 | `self.timestamp + (self.ttl as u64 * 1000)` is a `u64` sum, which wraps in a release build (a debug build panics) | a message with timestamp 2^64 - 1 and ttl 1 reads as expired at 1000 ms | a message is never expired before its own timestamp | not executed | PaymentMessages.LateTimestampExpiresEarly | PaymentMessages.IsExpiredAt |
| crates/veritas-crypto/src/zkp.rs:96-97 | `value - min` on `i64` overflows (a panic in a debug build, a wrap in release) even though the value is in range | `prove_range(0, i64::MIN, 0)`, reachable as `KycLevelProof::create(0, i64::MIN)` | a value inside [min, max] always gets a proof | not executed | Zkp.RangeProofOverflowWitness | Zkp.ProveRange |
