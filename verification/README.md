# Verified model of the networking and server core

This project models the parts of the server and of its networking library whose correctness rests
on arithmetic, bit masks, cursors and protocols, and proves what they promise. Every file is one
module (`LinkStats`, `CertScope`, `CertStore`, `SigningKey` and `NetworkManagerCore` also hold the
classes that the program updates in place). `dafny verify dfyconfig.toml` checks all of them.

- **Sequenced packets** (`Bits64`, `PacketHistory`, `LinkStats`, `LinkQuality`). `PacketHistory` is
  the reference: a set of received packet numbers for each of two paths, a maximum, and counters.
  `LinkStatsTracker` keeps two 64-bit words and two more for each path, and every method is proved
  to take the same step as the reference. Replay protection, the accounting of every packet, and the
  recovery of full numbers from 16 bits are proved over whole runs.
- **Certificates** (`CertScope`, `KeyGraph`, `CertTrust`, `CertStore`, `TrustOrder`,
  `StoreHistory`). Scopes are sorted lists of items. `CertTrust` says when a key is trusted and with
  which rights, `CertStore` evaluates trust depth-first with marks for keys that are being worked
  on, and caches it. `KeyGraph` gives the order in which that finishes the keys. Soundness,
  termination and coherence of the cache hold for every store; `TrustOrder` says exactly for which
  certificate graphs the visiting order is irrelevant, and `StoreHistory` exactly after which
  histories anything is trusted.
- **Pings and rates** (`PingBuckets`, `TokenBucket`). The ring of time buckets against the full
  history of pings; the limiter against the number of tokens granted in any stretch of a run.
- **Text and binary formats** (`Base64`, `Pem`, `OpenSshKey`, `SigningKey`, `VarInt`, `Identity`).
  `Words` gives the numbers that 64-bit words stand for, and what shifts and ors do to them. Base64
  follows section 4 of RFC 4648 with line breaks after 18 groups, the key blob the fields of
  section 5 of RFC 4251. Each codec has a specification as functions on sequences, proved inverse,
  and methods with buffers, cursors and limits, proved equal to it.
- **Listeners** (`ListenerState`, `NetworkManagerCore`). `ListenerState` gives what each call or
  callback does and proves properties of whole runs; the methods of `Core` do the same, step by step.
- **Logger** (`AsyncLogger`). The queue, its mutex, the condition variable and the running flag as a
  state machine whose steps are those that threads can interleave.

`Basics` holds what the modules share.

Times are integers in microseconds. Floating-point numbers are reals. Integers are unbounded, except
for wire numbers, mask words, Base64 words and variable-length integers, whose widths are explicit.
What comes from outside is a parameter: signature verification and the computation of a public key
are arbitrary functions, the answers of the socket library are part of each event, and the order in
which the key map is visited is any sequence of its keys.

Where the code does less than one might expect, the model follows the code and says exactly when:

- `Base64EncodeMaxOutput` is wrong for empty data (`Base64.EmptyLength`).
- Trust can depend on the order in which the key map is visited, for exactly those certificate
  graphs with a circle, among the keys that are evaluated, that a chain of signatures leads to from
  outside these keys, which in a store means from the root (`TrustOrder.OrderIsIrrelevantIff`,
  `TrustOrder.OrderIsIrrelevantUnderIff`; for each of them, `TrustOrder.CirclesMakeOrderMatter`
  gives certificates and two orders). Other circles are harmless (`TrustOrder.HarmlessCircle`).
- The root is only put into an empty store, so that nothing is trusted after a history if and only
  if its first operation since the last reset was a revocation, or the root was revoked
  (`StoreHistory.TrustIff`).
- An identity that its own setters accept is not always read back from its text
  (`Identity.RoundTripIff` says which are).
- A start of a listener that fails half-way keeps the socket (`ListenerState.StopUndoesStart`).
- An entry can be enqueued after the log thread's last test (`AsyncLogger.LateEntryIsLost`); the
  file is complete if and only if none is (`AsyncLogger.ReturnedHasWritten`).
- A stop can be slept through (`AsyncLogger.StopIsSleptThrough`), exactly when its notification
  comes between the evaluation of the condition and the wait (`AsyncLogger.OversleptIff`); unless
  something else wakes it, the log thread then never returns (`AsyncLogger.NeverReturns`).

## Model

| member | source | states |
|---|---|---|
| PacketHistory.NeverProcessedTwice | thirdparty/GameNetworkingSockets/src/steamnetworkingsockets/steamnetworking_statsutils.h:1263-1424 | Over every run of packets and interval ends, whatever is repeated, reordered or invented, no packet number is processed twice, and all processed numbers are positive and were not received before |
| PacketHistory.ProcessedIsLog | thirdparty/GameNetworkingSockets/src/steamnetworkingsockets/steamnetworking_statsutils.h:1263-1424 | Over every run from the start, the windowed receiver processes exactly what one does that remembers every number: authentic packets whose number was never processed, lies after the start of the numbering, and is not below the 64-block before that of the highest number |
| PacketHistory.AcceptedIff | thirdparty/GameNetworkingSockets/src/steamnetworkingsockets/steamnetworking_statsutils.h:1263-1317 | The same for the next packet, written out |
| PacketHistory.FreshIff | thirdparty/GameNetworkingSockets/src/steamnetworkingsockets/steamnetworking_statsutils.h:1281-1316 | A packet is fresh exactly when its number was not received and is not below the block before the one of the maximum |
| PacketHistory.CheckCountsIt | thirdparty/GameNetworkingSockets/src/steamnetworkingsockets/steamnetworking_statsutils.h:1263-1317 | A check counts the packet on its path and, if it refuses it, exactly one of: too old, duplicate, later than on the other path; it marks nothing else |
| PacketHistory.TrackCountsIt | thirdparty/GameNetworkingSockets/src/steamnetworkingsockets/steamnetworking_statsutils.h:1332-1424 | Processing moves the maximum, marks, and counts as follows: a jump of 100 or more restarts the numbering and is a lurch, a smaller gap counts the skipped numbers as dropped, a late packet is out of order and takes back a drop |
| PacketHistory.RunIsSound | thirdparty/GameNetworkingSockets/src/steamnetworkingsockets/steamnetworkingsockets_stats.cpp:475-501 | In every reachable state nothing above the maximum is marked, every sequenced packet is accounted for once, and the lifetime drop count is at least the number of holes in the window |
| PacketHistory.StepIsSound | thirdparty/GameNetworkingSockets/src/steamnetworkingsockets/clientlib/steamnetworkingsockets_connections.cpp:2134-2195 | One received packet or interval end keeps that invariant, forgets nothing, and processes at most one packet, which is new |
| PacketHistory.CheckIsSound | thirdparty/GameNetworkingSockets/src/steamnetworkingsockets/steamnetworking_statsutils.h:1263-1317 | Judging a packet keeps the invariant; a packet that is accepted leaves room in the counts for one more anomaly |
| PacketHistory.TrackIsSound | thirdparty/GameNetworkingSockets/src/steamnetworkingsockets/steamnetworking_statsutils.h:1332-1424 | Processing an accepted packet keeps the invariant: in order, after a gap, after a jump of 100 or more, or late |
| PacketHistory.IntervalIsSound | thirdparty/GameNetworkingSockets/src/steamnetworkingsockets/steamnetworkingsockets_stats.cpp:322-331 | Ending an interval keeps the invariant: lifetime totals do not change |
| PacketHistory.StartIsSound | thirdparty/GameNetworkingSockets/src/steamnetworkingsockets/steamnetworkingsockets_stats.cpp:249-299 | A fresh tracker satisfies the invariant |
| PacketHistory.LateMeansDropped | thirdparty/GameNetworkingSockets/src/steamnetworkingsockets/steamnetworkingsockets_stats.cpp:475-500 | When a late packet is accepted in any reachable state, the lifetime drop count is positive, so that the report of a missing drop is never made |
| PacketHistory.HolesForward | thirdparty/GameNetworkingSockets/src/steamnetworkingsockets/steamnetworking_statsutils.h:1402-1423 | Moving the maximum forward opens at most the skipped numbers as holes |
| PacketHistory.HolesBackward | thirdparty/GameNetworkingSockets/src/steamnetworkingsockets/steamnetworking_statsutils.h:492-499 | A late packet closes exactly one hole |
| PacketHistory.ExpandRecovers | thirdparty/GameNetworkingSockets/src/steamnetworkingsockets/steamnetworking_statsutils.h:1265-1266 | Sixteen bits recover the full number when it is within half their range of the maximum, for any fixed multiple of 65536 between the two numberings |
| PacketHistory.FirstPacketFixesOffset | thirdparty/GameNetworkingSockets/src/steamnetworkingsockets/steamnetworking_statsutils.h:1321-1326 | The first packet sets up such a fixed multiple and is itself the next number expected |
| PacketHistory.FirstPacketStarts | thirdparty/GameNetworkingSockets/src/steamnetworkingsockets/steamnetworking_statsutils.h:1321-1326 | The first step of a fresh receiver is that of one which is told the full numbers; the numbering is fixed afterwards unless the packet was a forged one that would be number 1 |
| PacketHistory.WireRunIsFullRun | thirdparty/GameNetworkingSockets/src/steamnetworkingsockets/steamnetworking_statsutils.h:566-570 | Over whole runs that stay within half the range, a receiver that gets 16 bits behaves exactly like one that gets the full numbers |
| PacketHistory.FreshRunIsFullRun | thirdparty/GameNetworkingSockets/src/steamnetworkingsockets/steamnetworking_statsutils.h:1321-1326 | The same for a fresh receiver all of whose packets may start the numbering: the first packet that fixes it chooses the offset, every later step keeps it, and those before it leave the receiver fresh |
| Bits64.SetsBit | thirdparty/GameNetworkingSockets/src/steamnetworkingsockets/steamnetworking_statsutils.h:1361-1364 | Or-ing in a bit adds exactly that member to the set that a 64-bit word stands for |
| Bits64.HasOnesUpTo | thirdparty/GameNetworkingSockets/src/steamnetworkingsockets/steamnetworkingsockets_stats.cpp:436-441 | The word computed for the numbers up to the maximum has exactly the bits 0 to its position, including the case of all 64 |
| LinkStats.LinkStatsTracker.ExpandWirePacketNumberAndCheck | thirdparty/GameNetworkingSockets/src/steamnetworkingsockets/steamnetworking_statsutils.h:1263-1317 | The bitmask code returns the number exactly when it was not received and is not below the block before that of the maximum, and zero otherwise; it counts each refusal under its own counter, as the reference on sets does |
| LinkStats.LinkStatsTracker.ExpandWirePacketNumberAndCheckMaybeInitialize | thirdparty/GameNetworkingSockets/src/steamnetworkingsockets/steamnetworking_statsutils.h:1321-1326 | The very first packet chooses the numbering and is accepted as the next number; any other is checked as usual |
| LinkStats.LinkStatsTracker.TrackProcessSequencedPacket | thirdparty/GameNetworkingSockets/src/steamnetworkingsockets/steamnetworking_statsutils.h:1332-1424 | Sliding words, clearing words, marking, counting and jumping refine the reference step; time and jitter are updated exactly in the cases of the source; all its assertions hold: the word index, the bit that is not marked yet, the gap of at least -128, and, for calls in the order of time, the time since the last packet |
| LinkStats.JitterIs | thirdparty/GameNetworkingSockets/src/steamnetworkingsockets/steamnetworking_statsutils.h:1373-1384 | The jitter maximum grows to the difference of the gaps, if both are below a quarter of a second |
| LinkStats.LinkStatsTracker.SlideTo | thirdparty/GameNetworkingSockets/src/steamnetworkingsockets/steamnetworking_statsutils.h:1340-1360 | Shifting the words by one block, or clearing them, shows the same marks in the new window |
| LinkStats.LinkStatsTracker.InitMaxRecvPktNum | thirdparty/GameNetworkingSockets/src/steamnetworkingsockets/steamnetworkingsockets_stats.cpp:429-447 | Afterwards the words of both paths and of the whole show everything up to the given number as received |
| LinkStats.LinkStatsTracker.InitInternal | thirdparty/GameNetworkingSockets/src/steamnetworkingsockets/steamnetworkingsockets_stats.cpp:249-299 | Establishes the invariant with the maximum 0 |
| LinkStats.LinkStatsTracker.constructor | thirdparty/GameNetworkingSockets/src/steamnetworkingsockets/steamnetworkingsockets_stats.cpp:249-299 | A new tracker is the reference's start state |
| LinkStats.LinkStatsTracker.StartNextInterval | thirdparty/GameNetworkingSockets/src/steamnetworkingsockets/steamnetworkingsockets_stats.cpp:322-331 | Moves the counters into the lifetime totals; the lifetime drop count stays |
| LinkStats.LinkStatsTracker.ReceivePacket | thirdparty/GameNetworkingSockets/src/steamnetworkingsockets/clientlib/steamnetworkingsockets_connections.cpp:2134-2195 | A packet is expanded and checked, and tracked only when it is accepted and authentic: one step of the reference run; the time of the last packet never exceeds the present |
| LinkStats.LinkStatsTracker.MaskIsUnion | thirdparty/GameNetworkingSockets/src/steamnetworkingsockets/steamnetworking_statsutils.h:595-604 | In every valid state each word is the union of the words of the two paths |
| LinkStats.SequencedPacketCounters.OnOutOfOrder | thirdparty/GameNetworkingSockets/src/steamnetworkingsockets/steamnetworking_statsutils.h:492-499 | Counts a late packet and takes back one drop of this interval, if there is any |
| LinkQuality.QualityStats.UpdateInterval | thirdparty/GameNetworkingSockets/src/steamnetworkingsockets/steamnetworkingsockets_stats.cpp:333-427 | Ends an interval: weird packets are at most the received ones, the quality sample is the one specified, and the two shares are in range |
| LinkQuality.QualityStats.SampleInterval | thirdparty/GameNetworkingSockets/src/steamnetworkingsockets/steamnetworkingsockets_stats.cpp:335-400 | When a sample is taken and which: enough packets, a dead connection, or none |
| LinkQuality.QualityStats.RecordQuality | thirdparty/GameNetworkingSockets/src/steamnetworkingsockets/steamnetworkingsockets_stats.cpp:344-388 | Adds the specified sample to the right bucket in all nine cases |
| LinkQuality.QualityStats.RecordPercentages | thirdparty/GameNetworkingSockets/src/steamnetworkingsockets/steamnetworkingsockets_stats.cpp:407-420 | The shares of dropped and weird packets are what they are called, and together at most 1 |
| LinkQuality.RawQualityRange | thirdparty/GameNetworkingSockets/src/steamnetworkingsockets/steamnetworkingsockets_stats.cpp:356-364 | Any bad packet keeps the quotient below 100, so that the cap at 99 never changes it upwards, and none gives exactly 100 |
| LinkQuality.RecordedIs | thirdparty/GameNetworkingSockets/src/steamnetworkingsockets/steamnetworkingsockets_stats.cpp:342-388 | The record is the share of good packets in percent, rounded down, stated by multiplication; 100 exactly without a bad packet, 99 at most with one, and 1 at least |
| LinkQuality.BucketsAre | thirdparty/GameNetworkingSockets/src/steamnetworkingsockets/steamnetworkingsockets_stats.cpp:344-388 | Which qualities each of the nine buckets counts |
| LinkQuality.DropsNeverHelp | thirdparty/GameNetworkingSockets/src/steamnetworkingsockets/steamnetworkingsockets_stats.cpp:342-388 | One more dropped packet never improves the recorded quality, and 100 is recorded exactly for intervals without a bad packet |
| LinkQuality.HistogramTotal | thirdparty/GameNetworkingSockets/src/steamnetworkingsockets/steamnetworking_stats.h:155-166 | The buckets together count every sample exactly once |
| CertScope.IntersectionIsMeet | thirdparty/GameNetworkingSockets/src/steamnetworkingsockets/steamnetworkingsockets_certstore.cpp:28-70 | The result of the parallel scan is well formed and authorizes exactly the items that both lists authorize |
| CertScope.CommonIsMeet | thirdparty/GameNetworkingSockets/src/steamnetworkingsockets/steamnetworkingsockets_certstore.cpp:46-67 | The same for explicit lists, with or without duplicates |
| CertScope.IntersectionLaws | thirdparty/GameNetworkingSockets/src/steamnetworkingsockets/steamnetworkingsockets_certstore.h:97-102 | Intersection of scopes, with the expiry, is commutative, associative and idempotent as authority, and stays well formed |
| CertScope.CertAuthParameter.SetIntersection | thirdparty/GameNetworkingSockets/src/steamnetworkingsockets/steamnetworkingsockets_certstore.cpp:28-70 | The loop computes the specified intersection |
| CertScope.CertAuthParameter.HasItem | thirdparty/GameNetworkingSockets/src/steamnetworkingsockets/steamnetworkingsockets_certstore.h:45-51 | The binary search answers whether the item is authorized |
| CertScope.CertAuthParameter.SetAll | thirdparty/GameNetworkingSockets/src/steamnetworkingsockets/steamnetworkingsockets_certstore.h:41-42 | Authorizes every item |
| CertScope.CertAuthParameter.SetEmpty | thirdparty/GameNetworkingSockets/src/steamnetworkingsockets/steamnetworkingsockets_certstore.h:37-38 | Authorizes no item |
| CertScope.CertAuthScope.SetIntersection | thirdparty/GameNetworkingSockets/src/steamnetworkingsockets/steamnetworkingsockets_certstore.h:97-102 | Both lists are intersected and the earlier expiry is kept |
| CertTrust.TrustHasChain | thirdparty/GameNetworkingSockets/src/steamnetworkingsockets/steamnetworkingsockets_certstore.cpp:411-564 | In every evaluated store, circular or not, each trusted key has a finite chain of verified certificates through trusted keys to a hardcoded root |
| CertTrust.TrustedHasCertificate | thirdparty/GameNetworkingSockets/src/steamnetworkingsockets/steamnetworkingsockets_certstore.cpp:434-540 | For every verifier and every evaluated store: a trusted key has a certificate in use, signed by another, trusted key, whose signature verifies its data under that key, with the rights that both allow; it is the newest of all such, and the first of those |
| CertTrust.TrustedIff | thirdparty/GameNetworkingSockets/src/steamnetworkingsockets/steamnetworkingsockets_certstore.cpp:434-563 | A key whose trusted signers were all finished before it is trusted if and only if it has such a certificate; otherwise it has no rights |
| CertTrust.ChainGrants | thirdparty/GameNetworkingSockets/src/steamnetworkingsockets/steamnetworkingsockets_certstore.cpp:504-514 | A trusted key may do exactly what every certificate on its chain allows |
| CertTrust.ChainExpires | thirdparty/GameNetworkingSockets/src/steamnetworkingsockets/steamnetworkingsockets_certstore.h:97-102 | A trusted key is valid at a time exactly when every certificate on its chain is |
| CertTrust.TrustNeedsRoot | thirdparty/GameNetworkingSockets/src/steamnetworkingsockets/steamnetworkingsockets_certstore.cpp:283-300 | Some key is trusted if and only if the store has a hardcoded root |
| CertTrust.OrderedIsExact | thirdparty/GameNetworkingSockets/src/steamnetworkingsockets/steamnetworkingsockets_certstore.cpp:434-540 | A key whose trusted signers were all finished before it has exactly the trust, certificate and scope that their final trust implies: the newest conferring certificate, and the first of those on ties |
| CertTrust.TrustIsDetermined | thirdparty/GameNetworkingSockets/src/steamnetworkingsockets/steamnetworkingsockets_certstore.cpp:566-587 | Where signatures do not run in circles among the keys that a hardcoded key vouches for, certificates and revocations alone determine trust, scope and certificate of every key |
| CertTrust.TrustedIsAnchored | thirdparty/GameNetworkingSockets/src/steamnetworkingsockets/steamnetworkingsockets_certstore.cpp:411-564 | In every evaluated store, circular or not, a trusted key has a chain of signatures that begins at a hardcoded key |
| CertTrust.SameOrderSameTrust | thirdparty/GameNetworkingSockets/src/steamnetworkingsockets/steamnetworkingsockets_certstore.cpp:411-564 | On every store, circular or not, certificates, revocations and the order in which keys are finished determine trust, scope and certificate of every key |
| KeyGraph.SignersFirstIff | thirdparty/GameNetworkingSockets/src/steamnetworkingsockets/steamnetworkingsockets_certstore.cpp:411-483 | For every set of keys that contains all keys with a signer in it, and whatever the visiting order: a depth-first evaluation finishes every key after its signers in the set if and only if signatures do not run in circles there, self-signed certificates apart |
| KeyGraph.OrdersDisagree | thirdparty/GameNetworkingSockets/src/steamnetworkingsockets/steamnetworkingsockets_certstore.cpp:476-480 | With a circle in such a set, every visiting order finishes some key before one of its signers in the set, and every order that begins with that key the other way round |
| KeyGraph.InnerHolds | thirdparty/GameNetworkingSockets/src/steamnetworkingsockets/steamnetworkingsockets_certstore.cpp:476-480 | On a shortest chain of signatures whose last one is violated in some visiting order, no other signature is violated in any order |
| KeyGraph.VisitAllIsProper | thirdparty/GameNetworkingSockets/src/steamnetworkingsockets/steamnetworkingsockets_certstore.cpp:579-583 | Every key of the graph is finished exactly once, and no other |
| CertStore.Store.RecursiveEvaluateKeyTrust | thirdparty/GameNetworkingSockets/src/steamnetworkingsockets/steamnetworkingsockets_certstore.cpp:411-564 | Terminates on every store, because the set of unknown keys shrinks; finishes the key, changes no finished key, and finishes keys in the order of a depth-first visit, which depends on nothing but the certificate graph and the keys being worked on |
| CertStore.Store.ConsiderCert | thirdparty/GameNetworkingSockets/src/steamnetworkingsockets/steamnetworkingsockets_certstore.cpp:435-540 | One certificate: skips unknown, self-signed and circular signers, evaluates the signer otherwise |
| CertStore.Store.Compare | thirdparty/GameNetworkingSockets/src/steamnetworkingsockets/steamnetworkingsockets_certstore.cpp:485-539 | Keeps the better of the best certificate so far and this one, with its scope |
| CertStore.Store.Finish | thirdparty/GameNetworkingSockets/src/steamnetworkingsockets/steamnetworkingsockets_certstore.cpp:542-563 | Trusts the key exactly when a certificate was found |
| CertStore.Store.MarkUnknown | thirdparty/GameNetworkingSockets/src/steamnetworkingsockets/steamnetworkingsockets_certstore.cpp:572-577 | Forgets the trust of all keys that are neither revoked nor hardcoded, and nothing else |
| CertStore.Store.EvaluateAll | thirdparty/GameNetworkingSockets/src/steamnetworkingsockets/steamnetworkingsockets_certstore.cpp:579-583 | Afterwards no key is unknown or being worked on, and the keys have the trust that visiting them in the given order gives |
| CertStore.Store.EnsureTrustValid | thirdparty/GameNetworkingSockets/src/steamnetworkingsockets/steamnetworkingsockets_certstore.cpp:566-587 | Afterwards the cached trust is valid, for the given order if it had to be recomputed; nothing changes if it was valid before; certificates and revocations never change |
| CertStore.Store.OneTimeInit | thirdparty/GameNetworkingSockets/src/steamnetworkingsockets/steamnetworkingsockets_certstore.cpp:283-300 | Puts the root into an empty store |
| CertStore.Store.Reset | thirdparty/GameNetworkingSockets/src/steamnetworkingsockets/steamnetworkingsockets_certstore.cpp:302-306 | Empties the store and invalidates the cache |
| CertStore.Store.AddKeyRevocation | thirdparty/GameNetworkingSockets/src/steamnetworkingsockets/steamnetworkingsockets_certstore.cpp:308-334 | Revokes a known key or adds a placeholder, and touches nothing else; the cache stays valid only if the key was revoked before |
| CertStore.Store.AddCert | thirdparty/GameNetworkingSockets/src/steamnetworkingsockets/steamnetworkingsockets_certstore.cpp:336-397 | Text that does not parse still brings in the root; a parsed certificate is added once, also to a revoked placeholder; another key under the same identifier is refused; the cache stays valid only if nothing changed |
| CertStore.NewEntriesAre | thirdparty/GameNetworkingSockets/src/steamnetworkingsockets/steamnetworkingsockets_certstore.cpp:283-320 | The root is put into an empty store only, with all rights for ever; an entry for an unknown revoked key has nothing |
| CertStore.Store.CheckCASignature | thirdparty/GameNetworkingSockets/src/steamnetworkingsockets/steamnetworkingsockets_certstore.cpp:589-650 | Returns rights exactly when the signing key is trusted, unexpired and verifies the data, together with its chain, all of whose certificates are unexpired |
| CertStore.Store.CheckPublicKey | thirdparty/GameNetworkingSockets/src/steamnetworkingsockets/steamnetworkingsockets_certstore.cpp:706-731 | Returns rights exactly when the key is trusted and unexpired |
| TrustOrder.CacheIsCoherent | thirdparty/GameNetworkingSockets/src/steamnetworkingsockets/steamnetworkingsockets_certstore.cpp:566-587 | On every store, circular or not: while the cached trust is valid, it is what an evaluation from scratch in the same visiting order computes from certificates and revocations alone |
| TrustOrder.EvaluatedIsFromScratch | thirdparty/GameNetworkingSockets/src/steamnetworkingsockets/steamnetworkingsockets_certstore.cpp:411-587 | Any keys that were evaluated in some order have the trust, certificate and scope of the evaluation from scratch, which judges keys one by one in finishing order |
| TrustOrder.EvaluationIs | thirdparty/GameNetworkingSockets/src/steamnetworkingsockets/steamnetworkingsockets_certstore.cpp:411-587 | That evaluation from scratch finishes every key, and keeps certificates and revocations |
| TrustOrder.OrderDoesNotMatter | thirdparty/GameNetworkingSockets/src/steamnetworkingsockets/steamnetworkingsockets_certstore.cpp:566-587 | Without circles among the keys that a hardcoded key vouches for, evaluations of the same certificates and revocations in any two orders agree |
| TrustOrder.CirclesMakeOrderMatter | thirdparty/GameNetworkingSockets/src/steamnetworkingsockets/steamnetworkingsockets_certstore.cpp:476-480 | For every certificate graph, every set of roots, and every visiting order: with a circle among the keys that the roots vouch for, there are certificates with exactly that graph and these roots, and another order, such that some key is trusted in one order and not in the other |
| TrustOrder.OrderIsIrrelevantIff | thirdparty/GameNetworkingSockets/src/steamnetworkingsockets/steamnetworkingsockets_certstore.cpp:476-480 | The visiting order is irrelevant for all certificates with a given graph, in which every key has one, whatever is hardcoded, if and only if no circle can be reached by a chain of signatures from outside the graph |
| TrustOrder.OrderIsIrrelevantUnderIff | thirdparty/GameNetworkingSockets/src/steamnetworkingsockets/steamnetworkingsockets_certstore.cpp:476-480 | The same when only keys of a given set are hardcoded, such as the one root: if and only if no circle can be reached from these |
| TrustOrder.RootedIsIrrelevantIff | thirdparty/GameNetworkingSockets/src/steamnetworkingsockets/steamnetworkingsockets_certstore.cpp:476-480 | Where the root signs every key itself: if and only if there is no circle at all |
| TrustOrder.HarmlessCircle | thirdparty/GameNetworkingSockets/src/steamnetworkingsockets/steamnetworkingsockets_certstore.cpp:476-480 | Two keys that only sign each other are a circle for which the order is irrelevant |
| StoreHistory.TrustIff | thirdparty/GameNetworkingSockets/src/steamnetworkingsockets/steamnetworkingsockets_certstore.cpp:283-397 | In every history of additions, revocations, checks and resets that ends with a check, some key is trusted if and only if the first operation since the last reset was not a revocation and the root was not revoked since then |
| StoreHistory.RootIsThere | thirdparty/GameNetworkingSockets/src/steamnetworkingsockets/steamnetworkingsockets_certstore.cpp:283-334 | When the map is empty, when it has its root, hardcoded or revoked, and when it has none, after every history |
| StoreHistory.EntriesAre | thirdparty/GameNetworkingSockets/src/steamnetworkingsockets/steamnetworkingsockets_certstore.cpp:302-397 | After every history, for every identifier: whether there is an entry, whether it is revoked, that its public key is the root's or the first that was added, and that it has exactly the certificates added for that key, of each signature the first |
| StoreHistory.RevokedFirstTrustsNothing | thirdparty/GameNetworkingSockets/src/steamnetworkingsockets/steamnetworkingsockets_certstore.cpp:286-298 | In particular, a store whose first operation is a revocation trusts no key, whatever is done to it before it is reset |
| StoreHistory.Perform | thirdparty/GameNetworkingSockets/src/steamnetworkingsockets/steamnetworkingsockets_certstore.cpp:302-397 | The methods of the store do to certificates and revocations what the history says |
| StoreHistory.PerformAll | thirdparty/GameNetworkingSockets/src/steamnetworkingsockets/steamnetworkingsockets_certstore.cpp:283-397 | A store that carries out any history and a check ends with trusted keys exactly in the cases stated |
| PingBuckets.PingTrackerBuckets.ReceivedPing | thirdparty/GameNetworkingSockets/src/steamnetworkingsockets/steamnetworking_statsutils.h:256-299 | Keeps ring and samples faithful to the full history of pings; when pings are at least the spacing apart, the samples are the last three, and the smoothed value is the average of the two best of these; an override replaces or suppresses the ping |
| PingBuckets.PingTrackerBuckets.ReceivedInBucket | thirdparty/GameNetworkingSockets/src/steamnetworkingsockets/steamnetworking_statsutils.h:266-298 | The ping goes into the current bucket, or the next one is started at the end of the last or now; the ring stays faithful to the history |
| PingBuckets.PingTrackerBuckets.ReceivedSample | thirdparty/GameNetworkingSockets/src/steamnetworkingsockets/steamnetworkingsockets_stats.cpp:83-168 | With a full set and before the spacing is over, the newest sample becomes the minimum with the new time; otherwise the oldest is discarded; when the next one is allowed; what the smoothed value is |
| PingBuckets.SampledMore | thirdparty/GameNetworkingSockets/src/steamnetworkingsockets/steamnetworkingsockets_stats.cpp:105-129 | For every history: samples begin with each of the first three pings and then with each that comes the spacing after the last beginning, and each is the least ping up to the next beginning, with the time of the last |
| PingBuckets.ApartIsLastThree | thirdparty/GameNetworkingSockets/src/steamnetworkingsockets/steamnetworkingsockets_stats.cpp:119-129 | When pings are the spacing apart, the samples are the last three, newest first |
| PingBuckets.SmoothedIs | thirdparty/GameNetworkingSockets/src/steamnetworkingsockets/steamnetworkingsockets_stats.cpp:131-166 | The smoothed value of none, one, two or three samples |
| PingBuckets.SmoothedIsAverage | thirdparty/GameNetworkingSockets/src/steamnetworkingsockets/steamnetworkingsockets_stats.cpp:159-165 | Of three samples, it is the average of two, and the third is not better than these |
| PingBuckets.PingTrackerBuckets.SetPingOverride | thirdparty/GameNetworkingSockets/src/steamnetworkingsockets/steamnetworking_statsutils.h:301-318 | What the override sets in samples and buckets, and what it leaves |
| PingBuckets.PingTrackerBuckets.GetPingRangeFromRecentBuckets | thirdparty/GameNetworkingSockets/src/steamnetworkingsockets/steamnetworking_statsutils.h:322-346 | The range contains every ping of the last N-1 widths; each bound is the smoothed ping or a ping of the last N widths; the asserted facts about counted buckets hold |
| PingBuckets.PingTrackerBuckets.ScanBuckets | thirdparty/GameNetworkingSockets/src/steamnetworkingsockets/steamnetworking_statsutils.h:327-342 | The loop covers all buckets that count, and counts them |
| PingBuckets.RecentAre | thirdparty/GameNetworkingSockets/src/steamnetworkingsockets/steamnetworking_statsutils.h:327-342 | The number of buckets that count is the number of those that ended at most N-1 widths ago |
| PingBuckets.SmoothedIgnoresSpike | thirdparty/GameNetworkingSockets/src/steamnetworkingsockets/steamnetworkingsockets_stats.cpp:159-165 | The smoothed value lies between the best and the second best of three samples |
| PingBuckets.SpacedApart | thirdparty/GameNetworkingSockets/src/steamnetworkingsockets/steamnetworking_statsutils.h:276-293 | Buckets j and k steps back end at least k-j widths apart |
| PingBuckets.RecycledLongAgo | thirdparty/GameNetworkingSockets/src/steamnetworkingsockets/steamnetworking_statsutils.h:278-293 | A bucket is only reused when it ended at least N-1 widths before the current one ends |
| PingBuckets.AddToCurrent | thirdparty/GameNetworkingSockets/src/steamnetworkingsockets/steamnetworking_statsutils.h:269-275 | Adding to the current bucket keeps all facts about the ring |
| PingBuckets.StartBucket | thirdparty/GameNetworkingSockets/src/steamnetworkingsockets/steamnetworking_statsutils.h:276-298 | Starting a bucket, directly after the previous one or now, keeps all facts about the ring |
| PingBuckets.RecentPingCounts | thirdparty/GameNetworkingSockets/src/steamnetworkingsockets/steamnetworking_statsutils.h:329-340 | Every ping of the last N-1 widths lies in the range of a bucket that counts |
| PingBuckets.RecentBucketIsReal | thirdparty/GameNetworkingSockets/src/steamnetworkingsockets/steamnetworking_statsutils.h:332-336 | Every bucket that counts is not empty, and its extremes are pings of the last N widths |
| TokenBucket.TokenBucketRateLimiter.Check | thirdparty/GameNetworkingSockets/src/steamnetworkingsockets/steamnetworking_statsutils.h:386-405 | Adds the rate for each second gone by, up to a full bucket; succeeds exactly when a token is there, and spends it |
| TokenBucket.TokensAre | thirdparty/GameNetworkingSockets/src/steamnetworkingsockets/steamnetworking_statsutils.h:391-395 | A million microseconds add as many tokens as the rate says |
| TokenBucket.BurstIsGranted | thirdparty/GameNetworkingSockets/src/steamnetworkingsockets/steamnetworking_statsutils.h:397-404 | From a full bucket, any number of tokens up to the burst is granted at once, and no more |
| TokenBucket.RateIsBounded | thirdparty/GameNetworkingSockets/src/steamnetworkingsockets/steamnetworking_statsutils.h:379-385 | Between any two calls of any run, at most the burst plus rate times elapsed time is granted |
| TokenBucket.TokensAreConserved | thirdparty/GameNetworkingSockets/src/steamnetworkingsockets/steamnetworking_statsutils.h:395-404 | Tokens spent never exceed the deficit gained plus the tokens added |
| TokenBucket.DeficitStaysInRange | thirdparty/GameNetworkingSockets/src/steamnetworkingsockets/steamnetworking_statsutils.h:409-414 | The deficit stays between 0 and the burst |
| TokenBucket.SteadyRateIsNeverRefused | thirdparty/GameNetworkingSockets/src/steamnetworkingsockets/steamnetworking_statsutils.h:380-384 | A caller that keeps to the rate is never refused |
| Base64.RoundTrip | thirdparty/GameNetworkingSockets/src/common/crypto_textencode.cpp:190-289 | Decoding the encoded text gives the bytes back, for every line break the decoder skips and whatever follows the terminator |
| Base64.AlphabetIs | thirdparty/GameNetworkingSockets/src/common/crypto_textencode.cpp:207-207 | The alphabet of section 4 of RFC 4648 |
| Base64.ValueIs | thirdparty/GameNetworkingSockets/src/common/crypto_textencode.cpp:338-346 | The value of a character is its place in the alphabet; only the alphabet has values |
| Base64.SextetsAre | thirdparty/GameNetworkingSockets/src/common/crypto_textencode.cpp:233-269 | Each group of bytes and its sextets are the same number, most significant first; zero bits complete the last group |
| Base64.GroupIs | thirdparty/GameNetworkingSockets/src/common/crypto_textencode.cpp:236-269 | A group has a character for each sextet, and padding for those that are missing |
| Base64.LinesAre | thirdparty/GameNetworkingSockets/src/common/crypto_textencode.cpp:220-228 | Every 54 bytes make a line of 72 characters, followed by a line break, which also ends the text |
| Base64.ScanIs | thirdparty/GameNetworkingSockets/src/common/crypto_textencode.cpp:350-383 | A text is scanned successfully exactly when every character before the first terminator or padding is in the alphabet, white space, or to be ignored; the sextets are those of its letters |
| Base64.WholeBytes | thirdparty/GameNetworkingSockets/src/common/crypto_textencode.cpp:385-424 | Any sextets give their whole bytes, most significant first, and what is left over is dropped |
| Base64.EncodedLength | thirdparty/GameNetworkingSockets/src/common/crypto_textencode.cpp:150-156 | The announced size is exactly the text and its terminator, for all non-empty data and every line break |
| Base64.EmptyLength | thirdparty/GameNetworkingSockets/src/common/crypto_textencode.cpp:150-156 | For no data it is right if and only if the length of the line break is a multiple of 2^29, such as 0 |
| Base64.Base64Encode | thirdparty/GameNetworkingSockets/src/common/crypto_textencode.cpp:190-289 | Succeeds exactly when text and terminator fit, and then writes exactly them; on failure, and without a buffer, returns the announced size. Nothing outside its part of the buffer is written, except for one terminator when that part is empty |
| Base64.Base64Decode | thirdparty/GameNetworkingSockets/src/common/crypto_textencode.cpp:320-432 | Succeeds exactly when no character before the end is invalid and the bytes fit; in any case what was written is a prefix of the bytes. Without a buffer it counts the bytes, up to 2^32-1 |
| Base64.PutGroups | thirdparty/GameNetworkingSockets/src/common/crypto_textencode.cpp:215-269 | The encoding loop with its line-break countdown writes the specified text as far as it fits |
| Base64.Flush | thirdparty/GameNetworkingSockets/src/common/crypto_textencode.cpp:398-424 | The last, incomplete group yields its whole bytes, through the sentinel bit |
| Base64.BytesOfSextets | thirdparty/GameNetworkingSockets/src/common/crypto_textencode.cpp:380-390 | Three bytes as four sextets and back, with one or two bytes left over |
| Base64.ScanEncoded | thirdparty/GameNetworkingSockets/src/common/crypto_textencode.cpp:353-396 | Scanning the text of any data finds its sextets, across line breaks, up to the padding |
| Pem.ParsePEMHeaderOrFooter | thirdparty/GameNetworkingSockets/src/common/crypto_textencode.cpp:434-514 | The scanning loops stop where the specification does, and fail in the same cases |
| Pem.MarkerIff | thirdparty/GameNetworkingSockets/src/common/crypto_textencode.cpp:434-514 | A header or footer is accepted exactly when the text is white space, dashes, blanks, the word, blanks, a type field that begins with the expected kind, dashes and white space; upper and lower case are the same |
| Pem.LocatePEMBody | thirdparty/GameNetworkingSockets/src/common/crypto_textencode.cpp:517-551 | Finds the specified body or none |
| Pem.LocateIff | thirdparty/GameNetworkingSockets/src/common/crypto_textencode.cpp:517-551 | A body is located exactly when it has no dash and lies between a header and a footer of the expected kind |
| Pem.MarkerParses | thirdparty/GameNetworkingSockets/src/common/crypto_textencode.cpp:434-514 | A header or footer of the form that is written is accepted up to its last dash and the white space after it |
| Pem.LocatesBody | thirdparty/GameNetworkingSockets/src/common/crypto_textencode.cpp:517-551 | In armoured text, whatever follows it, exactly the encoded data is located |
| OpenSshKey.ParseIff | thirdparty/GameNetworkingSockets/src/common/keypair.cpp:70-171 | A blob is parsed to a key if and only if it holds that key in the format: magic, no cipher, one key, public block, private block with equal check values, and three equal public keys, with anything after each part |
| OpenSshKey.FormatIs | thirdparty/GameNetworkingSockets/src/common/keypair.cpp:70-96 | The fixed parts of the format, byte by byte |
| OpenSshKey.BlobIs | thirdparty/GameNetworkingSockets/src/common/keypair.cpp:187-232 | The whole blob that is written for a key, piece by piece |
| OpenSshKey.BlobRoundTrip | thirdparty/GameNetworkingSockets/src/common/keypair.cpp:187-232 | The blob that is written for a key is parsed to that key |
| OpenSshKey.TakeFieldIs | thirdparty/GameNetworkingSockets/src/common/keypair.cpp:52-62 | A length-prefixed field is taken exactly when the bytes begin with one |
| SigningKey.UtlBuffer.BeginSubBlock | thirdparty/GameNetworkingSockets/src/common/keypair.cpp:173-178 | Leaves four indeterminate bytes |
| SigningKey.UtlBuffer.EndSubBlock | thirdparty/GameNetworkingSockets/src/common/keypair.cpp:180-185 | Overwrites them with the length of what followed: the block becomes a field |
| SigningKey.UtlBuffer.CheckAndEatBytes | thirdparty/GameNetworkingSockets/src/common/keypair.cpp:15-23 | Advances over the bytes exactly when they come next |
| SigningKey.UtlBuffer.GetUInt32 | thirdparty/GameNetworkingSockets/src/common/keypair.cpp:25-32 | Reads a big-endian number if four bytes are left |
| SigningKey.UtlBuffer.ReadFixedSizeKey | thirdparty/GameNetworkingSockets/src/common/keypair.cpp:52-62 | Takes a field of exactly the expected size |
| SigningKey.UtlBuffer.WriteFixedSizeKey | thirdparty/GameNetworkingSockets/src/common/keypair.cpp:64-68 | Appends a field |
| SigningKey.OpenSSHBinaryWriteEd25519Private | thirdparty/GameNetworkingSockets/src/common/keypair.cpp:187-232 | Appends exactly the blob of the key, through back-patched block lengths |
| SigningKey.BParseOpenSSHBinaryEd25519Private | thirdparty/GameNetworkingSockets/src/common/keypair.cpp:70-171 | Reads the unread bytes as the parser specifies |
| SigningKey.GetBinaryDataAsPEM | thirdparty/GameNetworkingSockets/src/common/keypair.cpp:253-278 | Succeeds exactly when there is no buffer or the text and terminator fit; then the buffer holds the armoured text, and the returned size is exactly right in every case |
| SigningKey.TextIs | thirdparty/GameNetworkingSockets/src/common/keypair.cpp:253-278 | The lines around the encoded data, character by character |
| SigningKey.StrNCpy | thirdparty/GameNetworkingSockets/src/vstdlib/strtools.cpp:243-257 | Copies what fits, and a terminator |
| SigningKey.StrNCat | thirdparty/GameNetworkingSockets/src/vstdlib/strtools.cpp:337-368 | Appends what fits, and a terminator |
| SigningKey.DecodeBase64ToBuf | thirdparty/GameNetworkingSockets/src/common/crypto_textencode.cpp:554-562 | The buffer that is set aside always suffices: all bytes are decoded |
| SigningKey.DecodePEMBody | thirdparty/GameNetworkingSockets/src/common/crypto_textencode.cpp:565-571 | The decoded body, or none |
| SigningKey.CECSigningPrivateKey.SetRawData | thirdparty/GameNetworkingSockets/src/common/keypair.cpp:538-546 | The key and its computed public key, or no key |
| SigningKey.CECSigningPrivateKey.GetAsPEM | thirdparty/GameNetworkingSockets/src/common/keypair.cpp:556-568 | The PEM text of the key and its public key, if it fits |
| SigningKey.CECSigningPrivateKey.ParsePEM | thirdparty/GameNetworkingSockets/src/common/keypair.cpp:577-599 | Succeeds exactly when the text holds a private key with the public key computed from it; otherwise no key is left |
| SigningKey.PemRoundTrip | thirdparty/GameNetworkingSockets/src/common/keypair.cpp:556-599 | The text written for any private and public key, followed by anything, holds exactly these keys |
| SigningKey.WriteAndParse | thirdparty/GameNetworkingSockets/src/common/keypair.cpp:556-599 | The text that a key object writes, into a buffer of the size it asks for, is read by another object as the same private and public key, exactly when there is a key |
| VarInt.EncodedDecodes | thirdparty/GameNetworkingSockets/src/steamnetworkingsockets/steamnetworkingsockets_internal.h:405-419 | Reading the encoding of any value, in front of any bytes, gives the value and its length |
| VarInt.EncodedAt | thirdparty/GameNetworkingSockets/src/steamnetworkingsockets/steamnetworkingsockets_internal.h:405-419 | Byte i of an encoding holds bits 7i to 7i+6 of the value, and the high bit except in the last |
| VarInt.TerminatedIff | thirdparty/GameNetworkingSockets/src/steamnetworkingsockets/steamnetworkingsockets_internal.h:478-489 | A reading ends with the first byte that does not have the high bit |
| VarInt.ValueMore | thirdparty/GameNetworkingSockets/src/steamnetworkingsockets/steamnetworkingsockets_internal.h:484-488 | Each further byte adds its seven bits at its place |
| VarInt.VarIntRoundTrip | thirdparty/GameNetworkingSockets/src/steamnetworkingsockets/steamnetworkingsockets_internal.h:475-491 | The same at 32 and 64 bits with the truncation of the code, within the longest encoding of that width |
| VarInt.AllDecode | thirdparty/GameNetworkingSockets/src/steamnetworkingsockets/steamnetworkingsockets_internal.h:475-491 | A list of values is read back from its encodings one after the other |
| VarInt.SizeIsExact | thirdparty/GameNetworkingSockets/src/steamnetworkingsockets/steamnetworkingsockets_internal.h:444-469 | The announced sizes for 32 and 64 bits are the sizes of the encodings |
| VarInt.EncodedIsShortest | thirdparty/GameNetworkingSockets/src/steamnetworkingsockets/steamnetworkingsockets_internal.h:405-419 | No other bytes decode to the same value in as few bytes; a reading is an encoding exactly when its last byte is not a superfluous zero |
| VarInt.OverflowIff | thirdparty/GameNetworkingSockets/src/steamnetworkingsockets/steamnetworkingsockets_internal.h:471-474 | Exactly which readings exceed 32 or 64 bits, which the code does not notice |
| VarInt.SerializeVarInt | thirdparty/GameNetworkingSockets/src/steamnetworkingsockets/steamnetworkingsockets_internal.h:408-420 | Writes exactly the encoding, with the shifts and ors of the code |
| VarInt.SerializeVarIntBounded | thirdparty/GameNetworkingSockets/src/steamnetworkingsockets/steamnetworkingsockets_internal.h:424-442 | Fails exactly when the encoding is longer than the room; nothing from the end on is touched |
| VarInt.DeserializeVarInt | thirdparty/GameNetworkingSockets/src/steamnetworkingsockets/steamnetworkingsockets_internal.h:475-491 | Fails exactly when the bytes end inside a value; otherwise the value modulo the width, put together with shifts and ors, and the next position |
| VarInt.OrIsAdd | thirdparty/GameNetworkingSockets/src/steamnetworkingsockets/steamnetworkingsockets_internal.h:484-486 | Combining a shifted group with the groups below it by a bitwise or, cut to the width, adds the group times its power of two |
| VarInt.AddGroup | thirdparty/GameNetworkingSockets/src/steamnetworkingsockets/steamnetworkingsockets_internal.h:484-486 | Adding a shifted group to what was read before is adding its value, modulo the width |
| Words.NumOr | thirdparty/GameNetworkingSockets/src/steamnetworkingsockets/steamnetworkingsockets_internal.h:484-486 | The or of words that share no bit stands for the sum of their numbers |
| Words.NumLeft | thirdparty/GameNetworkingSockets/src/steamnetworkingsockets/steamnetworkingsockets_internal.h:484-486 | A shift to the left multiplies, modulo 2^64 |
| Words.ShiftedApart | thirdparty/GameNetworkingSockets/src/steamnetworkingsockets/steamnetworkingsockets_internal.h:484-486 | A word that is below a power of two shares no bit with a word that is shifted past it |
| Identity.RoundTripIff | thirdparty/GameNetworkingSockets/src/steamnetworkingsockets/steamnetworkingsockets_shared.cpp:204-406 | The text of an identity is parsed to that identity if and only if it is a valid Steam identifier, a non-empty Xbox identifier or byte string, an unknown type without a known prefix, or any PSN, IPv4 or string identity |
| Identity.AcceptedIff | thirdparty/GameNetworkingSockets/src/steamnetworkingsockets/steamnetworkingsockets_shared.cpp:260-406 | Exactly which text is accepted as which identity |
| Identity.SteamIDIff | thirdparty/GameNetworkingSockets/include/steam/steamclientpublic.h:823-850 | Which combinations of universe, type, instance and account are valid |
| Identity.PrefixIff | thirdparty/GameNetworkingSockets/src/steamnetworkingsockets/steamnetworkingsockets_shared.cpp:369-388 | An unknown type begins with one to 16 lower-case letters, digits and underscores, and a colon |
| Identity.HexIs | thirdparty/GameNetworkingSockets/src/steamnetworkingsockets/steamnetworkingsockets_shared.cpp:340-353 | Bytes are accepted pair by pair |
| Identity.DigitsAre | thirdparty/GameNetworkingSockets/src/steamnetworkingsockets/steamnetworkingsockets_shared.cpp:234-249 | Numbers are printed without leading zeros, bytes with lower-case digits; both cases are read |
| Identity.ParsedIsReadable | thirdparty/GameNetworkingSockets/src/steamnetworkingsockets/steamnetworkingsockets_shared.cpp:260-406 | Whatever is parsed can be printed and parsed again with the same result; an unknown type never has a known prefix |
| Identity.RecommendedSizeSuffices | thirdparty/GameNetworkingSockets/src/steamnetworkingsockets/steamnetworkingsockets_shared.cpp:204-258 | The recommended buffer size holds the text of every identity |
| Identity.IdentityToString | thirdparty/GameNetworkingSockets/src/steamnetworkingsockets/steamnetworkingsockets_shared.cpp:204-258 | What the buffer holds: the text, or as much as fits, in whole pairs of digits for bytes |
| Identity.RoomForIs | thirdparty/GameNetworkingSockets/src/steamnetworkingsockets/steamnetworkingsockets_shared.cpp:204-258 | The buffer holds the whole text if it fits, otherwise as much as fits, of the digits of bytes only whole pairs |
| Identity.IdentityParseString | thirdparty/GameNetworkingSockets/src/steamnetworkingsockets/steamnetworkingsockets_shared.cpp:260-406 | Parses as specified, in all branches |
| Identity.ParseHex | thirdparty/GameNetworkingSockets/src/steamnetworkingsockets/steamnetworkingsockets_shared.cpp:346-353 | The loop over pairs of digits |
| Identity.CheckPrefix | thirdparty/GameNetworkingSockets/src/steamnetworkingsockets/steamnetworkingsockets_shared.cpp:369-388 | The loop accepts exactly 1 to 16 prefix characters and a colon |
| Identity.AddressReads | thirdparty/GameNetworkingSockets/src/steamnetworkingsockets/steamnetworkingsockets_shared.cpp:119-174 | An IPv4 address and port are read back from their text |
| Identity.HexReads | thirdparty/GameNetworkingSockets/src/steamnetworkingsockets/steamnetworkingsockets_shared.cpp:234-249 | Bytes are read back from their digits |
| ListenerState.RunKeepsInvariant | src/Listener/NetworkManagerCore.cpp:32-276 | After every run: handles below the next one, sockets exactly those of the listeners and never shared, and connections listed once |
| ListenerState.ConnectionsAreAccountedFor | src/Listener/NetworkManagerCore.cpp:224-276 | In every run from the start, each announced connection is on exactly one list and not closed, or on none and closed exactly once |
| ListenerState.QueueIsWhatWasPushed | src/Listener/NetworkManagerCore.cpp:137-161 | In every run from the start, the outgoing queue of a listener holds exactly the messages of the pushes to it that were not refused, in order |
| ListenerState.PushIs | src/Listener/NetworkManagerCore.cpp:137-161 | Which pushes are refused, and with which error; a refused one changes nothing, any other appends the message |
| ListenerState.KeepsQueues | src/Listener/NetworkManagerCore.cpp:32-276 | No other event changes a queue |
| ListenerState.HandlesAreFresh | src/Listener/NetworkManagerCore.cpp:32-47 | Over every run, handles are given out in increasing order, so none is reused and none is invalid |
| ListenerState.KeepsHandles | src/Listener/NetworkManagerCore.cpp:32-63 | One event keeps all handles below the next one |
| ListenerState.KeepsSockets | src/Listener/NetworkManagerCore.cpp:65-126 | One event keeps sockets and listeners in agreement, also when starting fails half-way |
| ListenerState.KeepsConnections | src/Listener/NetworkManagerCore.cpp:95-276 | One event keeps every announced connection accounted for |
| ListenerState.StopUndoesStart | src/Listener/NetworkManagerCore.cpp:65-126 | A start that fails after opening the socket keeps it: another start is refused, and a stop restores the state from before the start exactly |
| ListenerState.DestroyRemoves | src/Listener/NetworkManagerCore.cpp:49-63 | Destroying a listener closes exactly its connections and removes exactly its socket |
| NetworkManagerCore.Core.constructor | src/Listener/NetworkManagerCore.cpp:19-20 | Establishes the invariant |
| NetworkManagerCore.Core.CreateListener | src/Listener/NetworkManagerCore.cpp:32-47 | Answers the next handle and adds a listener under it with the name cut to 512 characters, no socket and an empty queue; nothing else changes |
| NetworkManagerCore.Core.DestroyListener | src/Listener/NetworkManagerCore.cpp:49-63 | An unknown listener is refused and nothing changes; any other is removed, with its socket, and each connection of the socket is closed |
| NetworkManagerCore.Core.StartListening | src/Listener/NetworkManagerCore.cpp:65-93 | Which of its errors is answered when, and what is left in each case: a start that fails after opening the socket keeps the socket |
| NetworkManagerCore.Core.StopListening | src/Listener/NetworkManagerCore.cpp:95-126 | Closes every connection of the socket in order and forgets the socket; without a socket it is refused and nothing changes |
| NetworkManagerCore.Core.PushOutgoingMessageQueue | src/Listener/NetworkManagerCore.cpp:137-161 | Appends the message to the listener's queue, and changes nothing else, exactly when the listener is known, listens, and has the connection; otherwise nothing changes, with the error of each case |
| NetworkManagerCore.Core.ConnectionServed | src/Listener/NetworkManagerCore.cpp:174-186 | Marks the connection, in its place on the list, and changes nothing else |
| NetworkManagerCore.Core.OnConnecting | src/Listener/NetworkManagerCore.cpp:224-247 | Appends an accepted connection to the list of its socket, closes any other; nothing else changes |
| NetworkManagerCore.Core.OnDisconnected | src/Listener/NetworkManagerCore.cpp:249-276 | Takes exactly the connection off its list and closes it; nothing else changes |
| NetworkManagerCore.Core.FindConnection | src/Listener/NetworkManagerCore.cpp:151-153 | The first connection with the handle, if there is one |
| NetworkManagerCore.CallbackManager | src/Listener/NetworkManagerCore.cpp:188-222 | Only connecting and the two kinds of disconnecting change anything |
| NetworkManagerCore.PollFunctionCalls | src/Listener/NetworkManagerCore.cpp:282-296 | Carries out the first 20 queued calls, or all if there are fewer, in order |
| AsyncLogger.WrittenInOrder | include/Logger/Logger.h:216-254 | In every interleaving of producers, stopping threads and the log thread, the file, the entry in hand and the queue are together exactly what the producers appended, in order |
| AsyncLogger.EnqueuedIs | include/Logger/Logger.h:216-222 | The history of the queue is what the steps of the producers append; the logger runs exactly until a thread stops it |
| AsyncLogger.ReturnedHasWritten | include/Logger/Logger.h:231-241 | In every run after which the log thread has returned, exactly one step leaves its loop; the file holds exactly what was enqueued before that step, including everything from before the stop, and that is everything if and only if no producer appends an entry later |
| AsyncLogger.StopIsRecorded | include/Logger/Logger.h:223-228 | Everything enqueued before the running flag is cleared is in the file when the log thread has returned |
| AsyncLogger.KeepsInvariant | include/Logger/Logger.h:216-254 | Every step of every thread keeps the invariant |
| AsyncLogger.RunKeepsInvariant | include/Logger/Logger.h:216-254 | So does every run; the file only grows |
| AsyncLogger.LateEntryIsLost | include/Logger/Logger.h:216-241 | A run in which an entry is enqueued after the last test and never written |
| AsyncLogger.OversleptIff | include/Logger/Logger.h:223-236 | After a run the log thread sleeps through a stop if and only if the notification of some stop came between the evaluation of the condition and the wait, and no later step woke it |
| AsyncLogger.NeverReturns | include/Logger/Logger.h:223-236 | Without a notification or a spurious wake, no later state is one in which the log thread has returned |
| AsyncLogger.StopIsSleptThrough | include/Logger/Logger.h:223-236 | A run from the start in which it happens |
| AsyncLogger.NoEntryIsSleptThrough | include/Logger/Logger.h:216-236 | A waiting log thread has nothing to write or has been woken, unless a producer is still in its critical section |

## Left out

- `CertAuthParameter::Setup`: its loop for duplicates stops at the second item, so lists are only assumed to be sorted, with the special item only alone (see `AddCert` below). The assertion in `SetIntersection` that items strictly increase is not modelled.
- `SequencedPacketCounters::Accumulate`: it adds two counters to themselves, and nothing here uses it.
- Status messages, debug history, the jitter histogram, packet rates and all printing of statistics. How many packets were received and sent in an interval are parameters of `UpdateInterval`.
- The reservoir of quality samples is a sequence without a limit on its size.
- An interval that ends between the check of a packet and its processing is not modelled; the two happen under one lock.
- Overflow of counters, sizes and handles, and rounding of floating-point numbers.
- The build without a hardcoded root key, in which self-signed certificates are roots.
- Ownership of key objects: entries are values of the key map, so that references to an entry while the map changes are not captured.
- Parsing of certificates, `CertStore_CheckCert` after the signature, `CheckCertAppID` and `CheckCertPOPID`.
- `CertStore.Store.AddCert`: a certificate whose list holds the special item beside others or twice, such as [5, 0xFFFFFFFF], is accepted by `Cert::Setup` and excluded here (`Usable`), because the special item means all items only when it stands alone.
- `PingBuckets.PingTrackerBuckets.GetPingRangeFromRecentBuckets`: only while no override was ever in effect, because an override writes pings that were never received.
- `WorstPingInRecentSample`: a maximum over at most three samples.
- `Base64.Base64Encode`: an empty part of the buffer still has room behind it for the terminator that the code writes there.
- `Base64.Base64Decode`: a null text, which the code answers like an empty one, is not modelled.
- `OpenSshKey.ParseIff`: lengths of 2^31 and more are read as unsigned; the source compares them after a conversion to a signed integer.
- `SigningKey.BParseOpenSSHBinaryEd25519Private`: the same for the lengths of the two blocks.
- `VarInt.DeserializeVarInt`: the value of a reading that is longer than the longest encoding is indeterminate, because the source shifts by the width of the integer or more.
- `Identity.RoundTripIff`: IPv6 identities are not modelled.
- `Identity.ParsedIsReadable`: what the parser of IPv6 addresses makes of a text is not modelled.
- `Identity.RecommendedSizeSuffices`: IPv6 identities are not modelled.
- `Identity.IdentityParseString`: text that does not begin with a plain number in range is left to arbitrary functions that stand for the C library; IPv6 addresses are left to another parser; the size of the identity structure is fixed.
- `HexEncode`, `HexDecode` and the public-key text format: they would only add simpler codecs.
- `NetworkManagerCore.Core.OnConnecting`: connections are announced once, and an accepted connection belongs to a socket that is open, as the code asserts. Likewise a disconnected or served connection is listed. The assertion about the old state of a disconnecting connection is not modelled.
- `NetworkManagerCore.PollFunctionCalls`: calls that other threads add while the queue is being worked on are not modelled.
- The listener's own threads and queues for incoming messages and errors, the thread pool, and the thread that runs the network manager.
- `AsyncLogger.OversleptIff`: that a log thread which is not asleep eventually returns is not stated; it depends on fairness. The test of the queue without the mutex is one atomic read.
- Cryptographic primitives, protocol buffers, sockets and files.
