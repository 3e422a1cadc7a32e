# Verification of the proof service and the compute channel

This Dafny project models a service that records signed events in hash-linked
chains ("proofs"), the offline verifier that replays an exported chain, the
client that appends to it, and the settlement code of a compute channel. It
proves what these parts promise each other.

**Proof chains.** A proof starts with a signed request and grows by signed
events. The API checks a submission without the lock, checks it again under the
database write lock, and writes a row linked to the last one by hash. In
version 4 every event also signs the head it was appended to. The verifier
makes one pass over an export and repeats the rules. Proved: the verifier and
the API accept the same version-4 chains; one signed event fixes its proof, its
position and everything before it; re-linking signed events gives prefixes and
nothing else; only the creator and those it named act; any number of writers in
any interleaving, with stale unlocked checks, keep all of this; the client's
retry loop stores its event once or not at all.

**Settlement.** Turns are hashed into leaves without a domain tag and into a
Merkle tree that repeats the last node of an odd level. Proved: an accepted
turn is a committed turn for every claimed path length; an accepted collection
is an injective selection of committed turns, so accepted work never exceeds
committed work; conversely everything committed can be settled, for its whole
work, under stated conditions on the turns; the transcript decoder accepts exactly the canonical encodings.

**Numbers and texts.** Ed25519 point decoding accepts exactly the encodings of
curve points; each signature has exactly two texts; the separator-joined
messages have one reading each; quorums intersect; each task is credited once;
the rate limiter enforces its sliding window.

## How it is modelled

- One module per file. `Prelude` is shared vocabulary. `Merkle`, `TurnLeaf`,
  `Settlement` and `Fcc4` are the compute channel; `SignatureText`,
  `FieldMath`, `PointDecoding` and `Canonical` the encodings; `ProofChain`,
  `Authorization`, `Verifier` and `ProofApi` the chain, with `ChainFacts`,
  `ProtocolEquivalence`, `ChainBinding`, `AuthorityInvariant`, `Concurrency`
  and `SdkRetry` the theorems about it, and `PlainRules`, `PlainVerdict` and
  `PlainAppend` the same rules in plain terms; `Quorum`, `Acceptance` and `RateLimit`
  the rest.
- Hash functions are arbitrary functions to digests, never assumed injective.
  A theorem that needs collision resistance names the finite set of strings or
  records hashed while both sides were computed, and either concludes or
  returns two different members of that set with the same digest. (That some
  two strings collide is always true and would say nothing.) Lemmas used inside
  such proofs take the absence of a collision in that set as a hypothesis. The
  main results have a form without it: those named `OrCollision`, and
  `Merkle.SameLengthBinding` and the conservation theorems of `Settlement`,
  which return the pair under their own names. `Merkle.AdmittedExactly` and
  `Merkle.CommonLeafExactly` speak of trees committed without a collision.
- Signature verification and DID resolution are arbitrary functions of their
  inputs.
- Loops and updated objects of the source are loops and classes here, each
  proved against a function or predicate about which the theorems are stated.
  `Concurrency` is a state machine over the writers' steps; a writer decides
  and writes from what it read under the lock, and that this is the stored
  proof is proved, not assumed.
- What the model computes is also stated without the functions that compute it.
  `PlainRules`, `PlainVerdict` and `PlainAppend` say with literals, named fields
  and quantifiers what each flag, verdict and acceptance means, and prove both
  directions; lemmas named `Exactly` and `Layout` do the same for trees, turns,
  receipts, transcripts, payloads and texts.
- What the environment decides (other writers, answers to GET, identifiers,
  clocks) is a parameter, and the theorems hold for every choice of it.
- `Database` in `ProofApi` is the service with one caller at a time and
  `Concurrency` the interleaved one; both use the same step functions.

Findings worth knowing, each with its exact condition and a concrete case:

- A Merkle index is not an identity. A path is read against as many low bits of
  the index as it is long, so every leaf of every list is also accepted, with
  the same path, at its index plus multiples of 2 to the depth within u32
  (`Merkle.SamePathOtherIndices`, `Settlement.VerifiedAtOtherIndices`), and the last leaf of an odd list at its
  neighbour too. Which leaf an index admits is `Merkle.AdmittedExactly`, which
  indices share one `Merkle.CommonLeafExactly`; only the turn index prevents
  double counting.
- Lists of different lengths can have one root: exactly when they are the same
  once padded (`Merkle.SameRootExactly`).
- The payable amount of a receipt is whatever the agent signed; nothing binds it
  to the work (`Settlement.PayableIsNotBoundToWork`).
- `retry_after` truncates, so waiting exactly that long can be too short
  (`RateLimit.RetryAfterIsEnoughExactly`).
- A rate limiter with a maximum below one fails with an index error on every
  call, and any other never does (`RateLimit.IndexErrorExactly`).

## Model

| member | source | states |
|---|---|---|
| `Verifier.VerifyProofEvents` | app/verification_core.py:129-430 | The one-pass verifier refuses unknown versions and empty chains; otherwise its per-event checks, position rule and their conjunction, and the closed flag, head and count it reports, are exactly those of the chain-level definitions |
| `Verifier.CheckEvents` | app/verification_core.py:176-401 | The loop with its six running variables computes, for every event, the check that event gets after exactly the events before it |
| `Verifier.CheckOne` | app/verification_core.py:188-379 | One round of the pass, flag by flag, gives the check of the event in the state so far |
| `Verifier.ClosingPositions` | app/verification_core.py:420-424 | The positions of the closing events: all of them, in order, nothing else |
| `Verifier.PositionRule` | app/verification_core.py:417-429 | At most one closing position which is the last index, exactly when every closing event is the last event |
| `ChainFacts.AllPassSnoc` | app/verification_core.py:188-415 | A chain passes exactly when its prefix passes and its last event extends that prefix |
| `ChainFacts.PassingContext` | app/verification_core.py:381-401 | After events that all passed, the verifier carries exactly the whole history as authority, all nonces or pairs, and the last event |
| `ChainFacts.FirstEventMeaning` | app/verification_core.py:200-253 | A first event passes exactly when it is a bound, signed request.created with sequence 1 and no link |
| `ChainFacts.LaterEventMeaning` | app/verification_core.py:200-356 | A later event passes exactly when sequence, link, payload hash, rebuilt canonical, signature, nonce, signed head and authority are all right, stated on the chain before it |
| `ChainFacts.PassingChainStarts` | app/authorization.py:96-111 | Every passing chain starts with its request, whose signer is the creator |
| `ChainFacts.SequencesCount` | app/verification_core.py:200-227 | Passing events are numbered 1..n and each stores the hash of its predecessor |
| `ChainFacts.NoReplay` | app/verification_core.py:287-312 | In a passing tagged chain no nonce repeats; in an untagged one no canonical and signature pair repeats |
| `ChainFacts.LegacyEventIsNotARequest` | app/verification_core.py:28-63 | An untagged event canonical of a real proof never satisfies the request binding, although it splits like one |
| `ProofChain.SignatureExactly` | app/crypto.py:1059-1150 | A signature counts exactly when the DID is a did:key that resolves and the text is one of the two texts of 64 bytes that Ed25519 accepts for this DID and message |
| `ProofChain.LinkExactly` | app/crypto.py:884-965 | The head is the digest of the nine named fields of the last event, and nothing for no events |
| `PlainRules.DelegationExactly` | app/authorization.py:73-93 | No list, or at most 32 different did:key names that resolve, is what a delegation may carry; which complaint anything else gets |
| `PlainRules.DelegateExactly` | app/authorization.py:114-137 | A delegate is whoever a later event by the creator, with a well-formed list, names, the creator apart |
| `PlainRules.MayWriteExactly` | app/authorization.py:140-211 | Authorization and the single-result rule together, in literals and quantifiers over the earlier events: the first result.created is allowed, a second is not |
| `PlainRules.RoleExactly` | app/authorization.py:171-176 | The role the decision reports |
| `PlainRules.RefusalExactly` | app/authorization.py:166-211 | Each reason is given exactly when it is the first that applies |
| `PlainRules.EventV4Exactly` | app/canonical.py:195-224 | A version-4 event message with these fields, as one literal concatenation, for parsing and for building |
| `PlainRules.EventV3Exactly` | app/canonical.py:123-145 | The same for version 3 |
| `PlainRules.RequestExactly` | app/canonical.py:107-120 | A tagged request with these fields, as one literal concatenation, for versions 3 and 4 |
| `PlainRules.LegacyRequestExactly` | app/verification_core.py:51-59 | An untagged request is room, nonce and text around the first two separators, the room nonempty and no proof id |
| `PlainVerdict.FlagsExactly` | app/verification_core.py:200-336 | Every flag of every event of every chain, in both directions and without the functions that compute it; the signature flag is Ed25519 on 64 bytes under a resolving DID |
| `PlainVerdict.DecisionExactly` | app/verification_core.py:338-398 | Role and reason of every event, judged by the earlier events whose own seven flags hold |
| `PlainVerdict.BindsExactly` | app/verification_core.py:28-92 | When a request is bound to its payload, for tagged and untagged versions |
| `PlainVerdict.SignsExactly` | app/verification_core.py:95-105 | Which nonce a tagged message signs |
| `PlainVerdict.SignsHeadExactly` | app/verification_core.py:108-113 | Which head a version-4 message signs |
| `PlainVerdict.MessageExactly` | app/verification_core.py:228-285 | The message an event must carry, by kind and version |
| `PlainVerdict.ReplayExactly` | app/verification_core.py:287-312 | A message is fresh exactly when no earlier event, valid or not, signs its nonce, or in versions 1 and 2 has the same canonical and signature |
| `PlainVerdict.AllPassExactly` | app/verification_core.py:404-415 | All events pass exactly when each belongs where it is: number, link, digest, message, signature, freshness, authority and signed head in plain terms |
| `PlainVerdict.ValidExactly` | app/verification_core.py:404-430 | The verdict in plain terms, for any export of any version; a valid chain has every event signed by its actor |
| `PlainVerdict.ExtendsExactly` | app/verification_core.py:188-415 | After a passing chain, one more event passes exactly when it belongs there |
| `PlainAppend.RequestAcceptedExactly` | app/main.py:567-606 | A request is accepted exactly when its canonical is the literal version-4 message of its nonce and text in some room, signed by its sender |
| `PlainAppend.NewProofExactly` | app/main.py:653-680 | The proof it starts, field by field |
| `PlainAppend.UsedIdExactly` | app/main.py:608-728 | The answer to a used request id, before the write and after a lost race, in every case |
| `PlainAppend.NoMessageExactly` | app/main.py:756-826 | Why a submission has no message to carry: each of four reasons exactly when it applies |
| `PlainAppend.PrecheckExactly` | app/main.py:746-861 | The unlocked half accepts exactly an open proof, the literal message of its version, and an Ed25519 signature of it by the actor |
| `PlainAppend.LockedExactly` | app/main.py:863-936 | The locked half accepts exactly an open proof, an authorized event, a new nonce, in versions 1 and 2 a new pair, in version 4 the current head |
| `PlainAppend.AppendExactly` | app/main.py:739-962 | When an append is accepted and the whole proof it leaves, for every version |
| `ProtocolEquivalence.VerifierEqualsProtocol` | app/main.py:739-962 | Verifier equals protocol: a version-4 chain passes every per-event check and the position rule, over a request payload the schema can store, exactly when one create_proof and accepted appends produce it |
| `ProtocolEquivalence.AppendKeepsChainValid` | app/main.py:863-962 | An accepted append keeps a chain of any version valid and its status in step, whatever status the unlocked phase saw |
| `ProtocolEquivalence.AcceptedEventExtends` | app/main.py:756-947 | The row an accepted append writes passes every check of the verifier |
| `ProtocolEquivalence.PassingEventIsAccepted` | app/main.py:756-962 | Conversely a passing version-4 event after an open chain is accepted by the API and is the row it writes |
| `ProtocolEquivalence.RequestRowPasses` | app/main.py:567-680 | A version-4 first row passes exactly when its request would be accepted and it is the row create_proof writes |
| `ProtocolEquivalence.NewProofIsValid` | app/main.py:653-680 | A freshly created proof verifies |
| `ProtocolEquivalence.RunIsValid` | app/main.py:739-962 | Every run of create and appends yields a valid version-4 chain with one event per accepted call |
| `ProtocolEquivalence.ValidIsRun` | app/main.py:739-962 | From a valid chain, the request and the submissions that produce it are computed |
| `ProtocolEquivalence.RunStatusIsExact` | app/main.py:949-955 | After any run the status is pending, active, completed or failed exactly as the chain says |
| `ProofApi.Database.CreateProof` | app/main.py:567-651 | Creating a proof: refused requests and taken request ids change nothing, otherwise exactly one proof with one event and one index entry appear |
| `ProofApi.Database.CommitCreation` | app/main.py:653-736 | The write of a checked request: if the request id was taken in the meantime nothing is written and the answer comes from the proof that won, else exactly the new proof and index entry appear |
| `ProofApi.Database.AddEvent` | app/events.py:27-93 | create_event appends one row numbered after the last and linked to it, and touches nothing else |
| `ProofApi.Database.AppendLocked` | app/main.py:863-962 | The locked half: any failed check changes nothing, success appends the row and updates the status |
| `ProofApi.Database.AppendEvent` | app/main.py:739-962 | The whole call with no other writer: unknown proof or any rejection changes nothing |
| `ChainBinding.SignedEventPinsItsPast` | app/verification_core.py:257-286 | One signed event pins its past: a canonical signed after the first event occurs in one proof, at one position, after one history, with one content |
| `ChainBinding.SignedEventPinsItsPastOrCollision` | app/verification_core.py:323-336 | The same for all chains, with the colliding pair returned when it fails |
| `ChainBinding.SameEventSamePast` | app/crypto.py:884-907 | Equal link records in two passing chains force equal prefixes |
| `ChainBinding.SameRecordSameEvent` | app/crypto.py:910-965 | What the link does not cover (payload, nonce, stored link) is nevertheless fixed by it |
| `ChainBinding.SignedContent` | app/canonical.py:195-224 | A passing event's canonical parses to its proof, type, payload hash, nonce and the head before it |
| `ChainBinding.FirstIsARequest` | app/canonical.py:186-192 | A passing chain's first canonical is a request and never an event message |
| `ChainBinding.EqualHeadsEqualChains` | app/verifier.py:45-58 | Two passing chains with the same head are the same chain of the same proof |
| `ChainBinding.EqualHeadsEqualChainsOrCollision` | app/verifier.py:45-58 | The same for all chains, with the colliding pair returned when it fails |
| `ChainBinding.RelinkedEventStays` | app/verification_core.py:257-286 | In a passing re-linked selection every event is back at its own place, unchanged |
| `ChainBinding.RelinkingLimit` | app/verification_core.py:176-430 | Events of a valid chain, selected and re-linked at will, pass exactly when they are a prefix; a passing selection that is closed is the whole chain |
| `ChainBinding.RelinkingLimitOrCollision` | app/verification_core.py:539 | The same for all selections, with the colliding pair returned when it fails |
| `ChainBinding.OnlyTheSameRequestGetsItsProof` | app/main.py:613-728 | A used request id gives its proof back exactly to the identical request, with the same answer before the write and after a lost race, if the two payload hashes do not collide |
| `ChainBinding.OnlyTheSameRequestGetsItsProofOrCollision` | app/main.py:613-728 | The same for all requests, with the colliding payloads returned when it fails |
| `Authorization.ComputeDelegates` | app/authorization.py:114-137 | The accumulating loop computes the delegate set |
| `Authorization.DelegateListMeaning` | app/authorization.py:73-93 | A delegate list is well formed exactly when it names at most 32 different resolvable DIDs; counting names finds duplicates |
| `Authorization.AuthorizedExactly` | app/authorization.py:140-194 | An event is allowed exactly when the creator, or a delegate outside the creator's kinds, writes it, it is no second request, and a delegation leaves at most 32 delegates |
| `Authorization.DelegatesAfter` | app/authorization.py:127-137 | One more event adds exactly what it grants, never the creator |
| `Authorization.DelegatesStayBounded` | app/authorization.py:183-192 | An allowed event keeps at most 32 delegates, removes none and never makes the creator one |
| `AuthorityInvariant.DelegatesAreNamed` | app/authorization.py:114-137 | Being a delegate means being named by an earlier well-formed delegation of the creator |
| `AuthorityInvariant.LaterEventAuthority` | app/verification_core.py:338-356 | Each later event of a passing chain acts with authority granted before it |
| `AuthorityInvariant.AuthorityOfPassingChain` | app/verification_core.py:338-398 | Authority invariant for all passing chains: actors are the creator or named earlier, delegates write no creator-only event, delegates only grow and stay at most 32, one request, at most one result |
| `AuthorityInvariant.AuthorityOfReachableChain` | app/authorization.py:96-211 | The same invariant for all chains the API can produce |
| `Concurrency.EveryInterleavingIsSafe` | app/main.py:746-962 | From any sound store, any number of writers in any interleaving end with valid chains, status in step, unique request ids, append-only history, and version-4 chains a single writer could have produced |
| `Concurrency.ApplyKeeps` | app/events.py:12-24 | Every step of every writer keeps the invariant, including that the lock holder's snapshot is the stored proof |
| `Concurrency.EveryRunKeepsInvariant` | app/main.py:863-962 | Every run keeps it |
| `Concurrency.DoAppendKeeps` | app/main.py:866-959 | An append decided and written from the snapshot read under the lock is right for the store |
| `Concurrency.DoCreateKeeps` | app/main.py:653-728 | A creation committed under the lock with a free request id keeps the index and the proofs in agreement |
| `Concurrency.StoredChainsAreWhole` | app/events.py:42-90 | Stored sequences are 1..n, every link is the hash of its predecessor, authority holds, and status and chain agree |
| `Concurrency.InterleavingsAreSequential` | app/main.py:739-962 | Every stored version-4 chain is reachable by a single writer |
| `Concurrency.OneEventPerHead` | app/main.py:929-936 | No two version-4 events of the whole store sign the same prior head, if their hashes do not collide |
| `Concurrency.OneEventPerHeadOrCollision` | app/main.py:929-936 | The same for all stores, with the colliding pair returned when it fails |
| `Concurrency.EveryRunOnlyGrows` | app/main.py:869-873 | Chains only grow at the end, and closed proofs never change |
| `Concurrency.EnabledExactly` | app/main.py:746-962 | When each kind of step is possible |
| `Concurrency.SoloAppend` | app/main.py:739-962 | A writer that meets nobody gets through its three steps exactly when the append is accepted, and they do just that append |
| `Concurrency.SoloCreate` | app/main.py:567-680 | The same for a creation |
| `Concurrency.LockCanBeFreed` | app/events.py:12-24 | Whoever holds the lock can let go of it and leaves the store as it is |
| `SdkRetry.AppendSignedEvent` | flop_proof_sdk/client.py:215-272 | The retry loop ends after at most retries+1 posts and one for a closing event; each post signs the next head read and checked; success stores exactly one event with the nonce, on the head last signed; any error leaves none of its posts stored |
| `SdkRetry.CurrentHead` | flop_proof_sdk/client.py:197-213 | A head is returned exactly when the answer is an export with events whose own head is the link hash of its last event, and it is that hash; otherwise why not |
| `SdkRetry.HeadsAreComputed` | flop_proof_sdk/client.py:197-272 | Every head read during a call is the link hash of the last event of its answer, and the answer claims the same |
| `SdkRetry.SignedExactly` | flop_proof_sdk/client.py:241-262 | What is signed: the literal message of proof, kind, payload digest, nonce and head; or a field that cannot be signed |
| `SdkRetry.PostOnce` | flop_proof_sdk/client.py:264-269 | One post: accepted and stored once, or refused and not stored; only a stale head leaves the loop waiting |
| `SdkRetry.Remote.Send` | app/main.py:746-962 | One POST against a service others change before it and between its two phases |
| `SdkRetry.StoredOnce` | app/main.py:903-936 | An accepted version-4 post is the only stored event with its nonce and follows the head it signed |
| `SdkRetry.ConcurrentWritersEvolve` | app/main.py:746-962 | Any interleaved run of real writers is what the client's environment is allowed to do |
| `SdkRetry.StoredForGood` | app/main.py:903-907 | The stored event stays the only one with its nonce, whatever others append later |
| `Merkle.ComputeMerkleRoot` | app/crypto.py:621-639 | The level-by-level loop computes the root, 32 zero bytes for no leaves, an error for a leaf of another length |
| `Merkle.VerifyMerklePath` | app/crypto.py:642-679 | The loop accepts exactly the paths that climb from the leaf to the root with sides given by the index bits |
| `Merkle.NextLevelPairsUp` | app/crypto.py:631-637 | Node i of the next level is the hash of the left bytes followed by the right bytes, the last node repeated on an odd level, and only that level is |
| `Merkle.RootExactly` | app/crypto.py:621-639 | The root is what a tower of such levels ends in; 32 zero bytes for no leaves; an error for a leaf of another length |
| `Merkle.RootOfTwo` | app/crypto.py:610-639 | The root of two leaves is the hash of the first followed by the second |
| `Merkle.AcceptsExactly` | app/crypto.py:642-679 | A path is accepted exactly when hashing sibling then current on the left, current then sibling on the right, by the bits of the index, ends in the root |
| `Merkle.PathForClimbs` | app/crypto.py:621-679 | The path an index leads along, read off the padded levels, climbs from the leaf at that index's position to the root and hashes only tree nodes |
| `Merkle.PathForNeighbour` | app/crypto.py:631-671 | For a leaf's own index, the first sibling on that path is its neighbour in the padded list |
| `Merkle.DepthBound` | app/crypto.py:655-656 | A list of up to 2^k leaves has depth at most k, so the 64-step limit is no restriction below 2^64 leaves |
| `Merkle.MerkleCompleteness` | app/crypto.py:621-679 | Every leaf of every nonempty list has an accepted path, up to the index and depth limits |
| `Merkle.SameLengthBinding` | app/crypto.py:610-639 | Two equally long lists with the same root are equal, or the colliding pair is returned |
| `Merkle.OddListSharesItsRoot` | app/crypto.py:631-632 | Repeating the last leaf of an odd list keeps the root, so equal length is needed |
| `Merkle.SameRootExactly` | app/crypto.py:621-639 | Two lists of any lengths have the same root exactly when their trees have the same depth and, padded to full trees, the same leaves, if committing them did not collide |
| `Merkle.SameRootExactlyOrCollision` | app/crypto.py:621-639 | The same for all lists, with the colliding pair returned when it fails |
| `Merkle.LastOddLeafHasTwoIndices` | app/crypto.py:631-679 | The last leaf of an odd list is accepted at two neighbouring indices, along different paths |
| `Merkle.SamePathOtherIndices` | app/crypto.py:658-679 | A path accepted at one index is accepted for the same leaf at exactly the u32 indices with the same remainder modulo 2 to the path length |
| `Merkle.AdmittedExactly` | app/crypto.py:642-679 | An index admits exactly one leaf, the one at its position, for every u32 index and every tree of depth at most 64, if nothing collided |
| `Merkle.CommonLeafExactly` | app/crypto.py:642-679 | Two indices admit a common leaf exactly when they lead to the same position, the leaf preimages being distinct |
| `Merkle.PositionReadsLowBits` | app/crypto.py:669-672 | Indices with the same low bits, as many as the tree is deep, lead to the same position |
| `Merkle.TwoLeavesFirstAtTwo` | app/crypto.py:658-679 | A concrete case: with two leaves the first is accepted at index 0 and, with the same path, at index 2 |
| `Merkle.ShortPathReachesInterior` | app/crypto.py:642-679 | A path shorter than the tree ends at an interior node |
| `Merkle.LongPathHashesALeaf` | app/crypto.py:642-679 | A path longer than the tree exhibits a 64-byte preimage of a leaf |
| `Merkle.FullPathMember` | app/crypto.py:642-679 | A path of full length starts at the leaf its index leads to |
| `Merkle.AcceptedLeafIsCommitted` | app/crypto.py:564-679 | If no leaf preimage has 64 bytes, an accepted path of any length has full length and a committed leaf, at its index when there is one |
| `TurnLeaf.PreimageLayout` | app/crypto.py:564-583 | Where each field of a turn is in the leaf preimage and which fields each version has |
| `TurnLeaf.PreimageLength` | app/crypto.py:564-583 | Leaf preimages have 116, 140, 172 or 236 bytes, never the 64 of a node |
| `TurnLeaf.PreimageInjective` | app/crypto.py:483-586 | A leaf preimage belongs to one channel and one turn, across all versions |
| `Settlement.VerifiedWorkFromTurns` | app/compute_channel.py:321-419 | The loop with its two index sets and checked u128 sum returns the same total or the same first error as the recursive definition |
| `Settlement.VerifyTurn` | app/compute_channel.py:198-318 | The checks of one turn, in order, with the loop over its path |
| `Settlement.TurnVerifiesExactly` | app/compute_channel.py:208-318 | One turn verifies exactly when lengths, ranges and the fields of its version are right, an expected policy is its own, the enclave signed the hash of the listed fields, and the path is accepted |
| `Settlement.HonestTurnIsAccepted` | app/compute_channel.py:267-318 | A committed turn, with the path read off the tree, is accepted exactly when it meets the terms and its enclave signature verifies |
| `Settlement.HonestSettlement` | app/compute_channel.py:321-419 | All committed turns settle at once, for their whole work, exactly when there are at most 1024, each meets the terms under a valid signature, no turn index repeats and the sum is a u128 |
| `Settlement.AcceptanceIsExact` | app/compute_channel.py:340-419 | A collection is accepted exactly when every turn verifies alone in plain terms, no index repeats, and the u128 sum is the claimed one |
| `Settlement.AcceptedTurnIsCommitted` | app/compute_channel.py:198-318 | A turn accepted with any path length is a committed turn of the committed channel, and number merkle_index when there is one |
| `Settlement.VerifiedAtOtherIndices` | app/compute_channel.py:307-318 | A verified turn verifies with the same path at exactly the other u32 Merkle indices with the same remainder modulo 2 to the path length |
| `Settlement.TurnIndicesPreventDoubleCounting` | app/compute_channel.py:387-389 | Distinct turn indices, not Merkle indices, make the proofs an injective selection |
| `Settlement.SelectedWork` | app/compute_channel.py:411-419 | The work of an injective selection is the work of its set of positions |
| `Settlement.AcceptedWorkNeverExceedsCommittedWork` | app/compute_channel.py:321-419 | Conservation: accepted collections are injective selections of committed turns and total at most the committed work, or the colliding pair is returned |
| `Settlement.ReceiptPayloadInjective` | app/crypto.py:682-715 | A receipt payload determines channel, root and both amounts |
| `Settlement.ReceiptLayout` | app/crypto.py:682-715 | The 125 signed bytes, place by place |
| `Settlement.ReceiptExactly` | app/compute_channel.py:436-483 | A receipt is accepted exactly when ranges and lengths hold, the agent signed its payload, and its turns settle at the stated work |
| `Settlement.CheckReceipt` | app/compute_channel.py:436-483 | The checks of a receipt, in order |
| `Settlement.AcceptedReceiptIsConserved` | app/compute_channel.py:422-483 | The agent signed an accepted receipt over this root, and the work it states is that of an injective selection of turns committed in this channel, or the colliding pair is returned |
| `Settlement.PayableIsNotBoundToWork` | app/compute_channel.py:436-483 | The payable amount of an accepted receipt can be replaced, with the verdict unchanged, exactly by any u128 for which the agent's signature is supplied |
| `Settlement.NoWorkFullPay` | app/compute_channel.py:450-483 | A concrete case: no turns, no work, and the largest u128 payable is accepted |
| `Fcc4.DecodeFcc4Transcript` | app/compute_channel.py:109-195 | The loop over a moving offset decodes as the recursive definition does, with the same errors |
| `Fcc4.DecodeIsExact` | app/compute_channel.py:42-195 | Bytes decode to a transcript exactly when it is well formed and they are its encoding |
| `Fcc4.DecodeEncodeTranscript` | app/compute_channel.py:109-195 | Every well-formed transcript survives the round trip |
| `Fcc4.AcceptedStringIsCanonical` | app/compute_channel.py:78-195 | Every accepted byte string re-encodes to itself, so no two decode alike |
| `Fcc4.TurnRead` | app/compute_channel.py:127-187 | One turn is read exactly where its encoding lies |
| `Fcc4.LeafFieldsExactly` | app/compute_channel.py:78-106 | Which fields each leaf version sets, and each complaint exactly when it applies |
| `Fcc4.TurnWellFormedExactly` | app/compute_channel.py:126-187 | The turns a transcript can hold, by lengths, ranges and versions |
| `Fcc4.TurnLayout` | app/compute_channel.py:126-171 | The bytes of a turn, in order |
| `Fcc4.TranscriptLayout` | app/compute_channel.py:109-124 | The bytes of a transcript, in order |
| `Canonical.RequestRoundTrip` | app/canonical.py:107-120 | Parsing and building requests are exact inverses in both versions, text with separators included |
| `Canonical.EventV3RoundTrip` | app/canonical.py:123-145 | Parsing and building version-3 event messages are exact inverses |
| `Canonical.EventV4RoundTrip` | app/canonical.py:195-224 | Parsing and building version-4 event messages are exact inverses |
| `Canonical.RequestLayout` | app/canonical.py:179-192 | Which fields make a request message and the exact message they make |
| `Canonical.EventV3Layout` | app/canonical.py:123-133 | Which fields make a version-3 event message and the exact message |
| `Canonical.EventV4Layout` | app/canonical.py:195-209 | Which fields make a version-4 event message and the exact message |
| `Canonical.OneReadingOnly` | app/verification_core.py:287-305 | No message has two readings among the four tagged formats and the untagged one |
| `Canonical.SplitTaggedIsExact` | app/canonical.py:95-104 | Splitting at the tag gives back exactly the joined fields |
| `Canonical.HashExactly` | app/canonical.py:86-90 | A hash is 64 digits 0 to 9 or a to f, by character code |
| `Canonical.ProofIdExactly` | app/crypto.py:1159-1161 | A proof id is proof_ and 32 such digits |
| `SignatureText.ExactlyTwoTexts` | app/crypto.py:1059-1067 | Exactly two texts decode to a 64-byte value: its unpadded base64url form and that with two padding characters |
| `SignatureText.AcceptedTexts` | app/crypto.py:1030-1067 | A text is accepted exactly when it has 86 letters, optionally padded, and four zero trailing bits |
| `SignatureText.LaxDecodeEncode` | app/crypto.py:976-977 | Decoding inverts encoding for byte strings of every length |
| `SignatureText.EncodeLaxDecode` | app/crypto.py:1065-1066 | Re-encoding gives a text back exactly when its spare bits are zero |
| `SignatureText.LetterExactly` | app/crypto.py:976-977 | The base64url alphabet by character code (section 5 of RFC 4648) |
| `SignatureText.GroupExactly` | app/crypto.py:976-977 | Three bytes and their four letters are the digits of one number to base 256 and to base 64 |
| `SignatureText.LastByteExactly` | app/crypto.py:976-977 | A single last byte fills two letters, with four zero bits |
| `FieldMath.Fermat` | app/crypto.py:1034-1056 | Fermat's little theorem, which the candidate root rests on |
| `PointDecoding.DecodingIsExact` | app/crypto.py:1034-1056 | For every prime 5 modulo 8 and nonsquare d the check accepts exactly the encodings of curve points (section 5.1.3 of RFC 8032) |
| `PointDecoding.Ed25519DecodingIsExact` | app/crypto.py:1007-1056 | The same for the published constants and 32-byte strings, given only that p is prime |
| `PointDecoding.RootOfMinusOneNotSquare` | app/crypto.py:1010 | Modulo a prime 5 modulo 8 a root of -1 is not a square |
| `PointDecoding.DNotSquare` | app/crypto.py:1009 | The published d is a root of -1 times a square, so it is not a square if p is prime |
| `PointDecoding.PublishedConstants` | app/crypto.py:1007-1010 | p is 5 modulo 8, d satisfies 121666 d = -121665, and the given root of -1 is one |
| `PointDecoding.CandidateIsRootUpToSign` | app/crypto.py:1050-1055 | When u/v is a square, the candidate root squares to u/v or its negative |
| `PointDecoding.DenominatorNonzero` | app/crypto.py:1049 | The denominator never vanishes when d is not a square |
| `Quorum.RequiredQuorum` | app/crypto.py:269-293 | The required count is the least positive integer at least n times the threshold, at most max(1, n); thresholds outside (0, 1] are errors |
| `Quorum.VerifyQuorum` | app/crypto.py:354-418 | The check with its early exits decides exactly: a quorum of different active validators, all signing the same claims |
| `Quorum.CountingFindsDuplicates` | app/crypto.py:296-298 | Comparing the length with the size of the set finds duplicate validators |
| `Quorum.SignablePayloadInjective` | app/crypto.py:1213-1260 | A signed payload states one set of ten claims |
| `Quorum.PayloadLayout` | app/crypto.py:1213-1260 | The 179 signed bytes, place by place |
| `Quorum.QuorumIntersection` | app/crypto.py:354-418 | Two accepted bundles share at least the two quorums less the number of validators |
| `Quorum.SharedValidator` | app/crypto.py:269-418 | Above one half, two accepted bundles share an active validator that signed both payloads, different ones if the claims differ |
| `Acceptance.ReportDataBinds` | app/crypto.py:1326-1363 | Equal report data commits to equal claims, or the two preimages collide |
| `Acceptance.ReportDataLayout` | app/crypto.py:1326-1363 | The 128 characters: the digits of the digest of the 145 bytes that state the seven fields, then 64 zeros |
| `Acceptance.CompareResult` | app/crypto.py:1510-1553 | The two loops over hash and numeric fields decide whether a result is the attested one |
| `Acceptance.AcceptedExactly` | app/crypto.py:1366-1654 | A call of any of the four acceptors is accepted exactly when quorum, report data and result match every attestation, the claim is plausible and the task is new |
| `Acceptance.ExactlyOnce` | app/crypto.py:237-266 | Over every run mixing the four acceptors no task hash is accepted twice, nor one already recorded |
| `Acceptance.RecordIsAccepted` | app/crypto.py:1599-1654 | The record is its start plus exactly the accepted hashes, so a rejected call changes nothing |
| `Acceptance.ProcessedTasks.MarkProcessed` | app/crypto.py:252-266 | Marks once, reports whether it was new, and changes nothing on an error |
| `Acceptance.ProcessedTasks.AcceptForResult` | app/crypto.py:1599-1654 | The result acceptor gives the specified verdict and records the hash exactly on acceptance |
| `Acceptance.ProcessedTasks.AcceptBundle` | app/crypto.py:1474-1507 | The bundle acceptor does the same with its own order of checks |
| `Acceptance.ProcessedTasks.AcceptQuorum` | app/crypto.py:1366-1388 | The quorum acceptor likewise |
| `Acceptance.ProcessedTasks.AcceptOne` | app/crypto.py:1415-1445 | The single-attestation acceptor likewise |
| `RateLimit.RateLimiter.Check` | app/rate_limit.py:13-31 | The popping loop answers and updates the key's list as specified and leaves other keys alone |
| `RateLimit.WindowRespected` | app/rate_limit.py:13-31 | Over every run with a nondecreasing clock, allowed call k+max is at least a window after allowed call k, and the list never exceeds the maximum |
| `RateLimit.AllowedExactly` | app/rate_limit.py:19-31 | A call is allowed exactly when fewer than the maximum were allowed in the window that ends now |
| `RateLimit.RetryAfterPlusOneIsEnough` | app/rate_limit.py:23-28 | Waiting retry_after + 1 seconds with no other call on the key is always enough |
| `RateLimit.RetryAfterIsEnoughExactly` | app/rate_limit.py:24-28 | Waiting retry_after alone is enough exactly when at most one second, or a whole number of seconds, was left |
| `RateLimit.RetryAfterExactly` | app/rate_limit.py:24-28 | The advice is the whole number of seconds left, but at least one |
| `RateLimit.IndexErrorExactly` | app/rate_limit.py:17-28 | In every run and on every call, the first element of an empty list is asked for exactly when the maximum is below one |
| `RateLimit.ZeroLimitFails` | app/main.py:76-81 | A concrete case: a configured maximum of 0 fails on the first call |
| `RateLimit.RetryAfterCanBeTooShort` | app/rate_limit.py:24-28 | A concrete case in which it is not enough |

## Left out

- Real SHA-256, BLAKE2b, Ed25519, sr25519 and base58, and the table of
  small-order keys (app/crypto.py:1016-1028): replaced by arbitrary functions
  and predicates.
- JSON serialization: the link hash is a function of the nine-field record and
  the payload hash one of the payload, so the dump is taken to be injective.
- PointDecoding.Ed25519DecodingIsExact: takes as a hypothesis that 2^255-19 is
  prime, a fact of RFC 8032 the source relies on without checking; everything
  else about the constants is proved.
- ProtocolEquivalence.VerifierEqualsProtocol: asks that the first payload is one
  the request schema could have stored (its five fields, nonempty request id);
  the verifier itself does not look at the other fields.
- Verifier.VerifyProofEvents: `valid` is the per-event checks and the position
  rule. The verdict of the source also needs the content checks
  (result_hash_valid, artifact_hash_valid, task_hash_valid,
  app/verification_core.py:431-525), which read files and are not enforced on
  append.
- Payloads that are not JSON objects, missing or wrongly typed export fields, and
  booleans used as integers: excluded by the datatypes, except where the source
  tells a boolean from a number in a result.
- HTTP, request parsing, API keys, status numbers: only accepted or why refused.
- Databases other than SQLite, where the write section takes no lock.
- Time: `created_at` is an opaque string. The clock of the rate limiter does not
  run backwards and calls are sequential; the source reads it outside the lock.
- Lost responses and other transport failures between client and service.
- SdkRetry: other writers are any step that keeps the proof sound and only grows
  it, which Concurrency proves of real writers; answers to GET are arbitrary.
- Quorum: the registry is a set of validator ids, as the local registry enforces;
  thresholds are exact fractions.
- Acceptance: `claim` has the body of `mark_processed` and is not repeated.
- The turn acknowledgement messages, channel ids and task hashes (fixed-width
  encoders), the STARK and attestation endpoints, the dashboard, the command
  line, scripts and migrations.
- flop_proof_sdk/canonical.py: a copy of app/canonical.py and the chain head, so
  modelled once.
