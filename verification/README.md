# A verified model of the zone distribution service

The service stores DNS zones as a history of immutable versions, accepts atomic changesets
(publishes) over an HTTP API, and hands the zones to secondaries by TSIG-authenticated AXFR
and IXFR over TCP. This project models its versioned store and the transfer engine over it as
one state machine, together with the wire layer at both ends, and proves what the service
promises: that a publish happens as a whole and exactly once, that snapshot and delta always
agree, that cleaners never take away what a running transfer needs, and that a secondary ends
up with the zone it asked for.

`dafny verify dfyconfig.toml` checks everything.

## How the model is built

* **Values and orders.** `Basics`, `Errors`, `Ordering`, `Serial` (RFC 1982), `Names` and
  `NameCodec` (names, canonical form, wire form, section 4.1.4 of RFC 1035).
* **The store.** `Records` (rows and RRset maps), `Changeset` (operations and zone checks),
  `Delta` (copy-and-patch snapshot, ordered delta), `Fingerprint` (what is hashed of a request,
  and what equal hashes mean), `Store` (the tables, and every `BEGIN IMMEDIATE` block as one
  function on them), `History` and `StoreInvariant` (the invariant and its preservation).
  `Database` holds the class whose methods run statement by statement, as the source does, on a
  copy of the tables that they store on commit; each is proved to have exactly the effect of its
  function in `Store`.
* **Transfers.** `Transfer` (key resolution, choice of mode, pinning, record streams),
  `TransferServer` (the same as statements and loops), `TransferFacts`, `Framing`, `Plans`,
  `Authorization` (exactly which requests are authorized).
* **Runs.** `Verdicts` (exactly which requests commit, and what becomes of the others),
  `CleanupFacts`, `PublishFacts`, `KeyFacts`, `Requests`, `Retries`, `Moves`, `Runs`,
  `RunFacts`, `Lineage`: any interleaving of zone creation, publishes, retention changes, key operations,
  authorizations, heartbeats, releases, task claims and cleanups, at any clock readings.
* **The wire.** `Wire`, `Query`, `QueryFacts`, `Signing` (server), `Client`, `RoundTrips`,
  `ExtraRecords`, `Packing`, `SignedStream`, `Responses`, `Delivery`, `Acceptance` (exactly what
  the client accepts).
* **End to end.** `Convergence`, `EndToEnd`, `Service`, `Secondaries`: from the secondary's
  request over a run of the service to the secondary's new copy, and on to its next transfer.
* **Limits.** `Gaps` and `StaleCopies`: requests that the service accepts, in any zone, and that
  show where these promises end.

Where a source method is a loop over mutable state, the model has a method with that loop and
a recursive function that specifies it; the properties are proved about the function. Lemmas
switch automatic induction off, so that each proof shows the induction it needs.

## Where the code surprises

* `ixfr_rr_stream` sends no closing SOA, although section 4 of RFC 1995 has one. The model
  follows the code.
* A receiver of an incremental stream can tell sections apart only by their SOA records, but
  the checks of a publish accept an SOA below the apex. The stream is readable exactly when no
  delta touches such a record (`Framing.ReceiverRebuilds`, `Gaps.LowerSoaBreaksFraming`).
* Equal fingerprints do not always mean equal effect: the fingerprint sorts deletions of a key
  before its replacements, the code applies them in request order. Requests with one
  fingerprint agree exactly when the same stored RRsets are first only written back and then
  deleted in both (`Fingerprint.SameSortedAgreeIff`); all orders of a changeset agree exactly
  when no stored RRset is deleted and otherwise only restored (`Fingerprint.OrderIsFreeIff`).
  Elsewhere a retry is told of an outcome that would not have been its own
  (`RunFacts.ReplayIsTrueIff`, `Gaps.SameFingerprintOtherRecords`).
* The creation of a zone takes any number for the TTL of its SOA. Beyond 32 bits it makes
  `pack_rr` raise in every transfer that reads version 0, until the zone has moved on and
  secondaries no longer start from there (`Convergence.StreamFitsIff`,
  `Gaps.NewZoneTransfersIff`).
* Serials are unique among the retained versions only. A secondary whose version is gone, and
  whose serial has come back, is told that it is up to date (`StaleCopies.StaleSecondary`);
  within 2^32 of travelled serials this cannot happen (`Secondaries.IncrementStartsFromCopyIff`).
* An open pin last seen exactly 300 seconds ago is neither reaped nor counted
  (`CleanupFacts.BoundaryPinProtectsNothing`).
* A retiring key is checked against the clock cut to whole seconds and so lives up to 998 ms
  longer than its expiry (`KeyFacts.ResolutionIsExact`, `KeyFacts.LastAcceptedInstant`).
* A key can be stored under a name that no request can name: requests carry names in lower
  case with one final dot (`NameCodec.NameSurvivesIff`).
* The label pattern ends in `$`, which in the source's language also matches before a final
  line feed; such a label passes. The model follows the code.
* The TSIG digest includes TYPE and RDLENGTH and the incremented ARCOUNT, unlike sections
  3.4.1 and 3.4.2 of RFC 2845. What is proved is that both ends agree.
* Only the first and the last message of a transfer are signed, and the chain runs from the
  request's MAC to the first and from there to the last; messages in between are not covered
  by any MAC.

## Assumptions

* An immediate transaction is atomic and isolated, a rollback leaves nothing behind, and a
  read connection sees one state from its first read on. Each step reads the clock once.
* HMAC-SHA256 is an arbitrary function of key and message to 32 octets; all results hold for
  every such function. SHA-256 is any function that is injective on canonical payloads, a
  hypothesis of the results on retries (`Retries.IsInjective`).
* RDATA is its canonical text, its wire octets and the serial number its text holds. That type
  and text determine it is a hypothesis of the results on retries (`Fingerprint.AllRead`).
* The nested dictionary name -> type -> RRset is one map over both. Checks that the API layer
  makes before a step are its hypotheses (`NewZoneOk`, `RequestOk`). Numbers in the tables are
  unbounded.
* Configuration values are the defaults; the message budget is arbitrary.

## Model

| member | source | states |
|---|---|---|
| Serial.CompareFlips | app/serial.py:15-26 | Swapping the arguments swaps GREATER and LESS; the relation is undecidable exactly at distance 2^31 |
| Serial.ForwardChainCompares | app/serial.py:15-38 | A chain of forward steps compares GREATER end to end exactly when the distance travelled, modulo 2^32, lies strictly between 0 and 2^31, wrap-arounds included |
| Serial.ShortChainIsForward | app/serial.py:29-38 | A chain of forward steps totalling less than 2^31 is itself a forward step |
| Names.CheckNameLoop | app/canonical.py:42-58 | The one-pass name check accepts an absolute name exactly when every label and the wire length are within bounds, and reports the first failure |
| Names.CanonicalNameInZone | app/canonical.py:61-91 | The textual suffix tests accept an absolute name exactly when it is canonical and label by label at or below the apex; every accepted name is canonical and in the zone |
| Names.CanonicalNameIff | app/canonical.py:61-91 | Every name is read as the absolute name it stands for (the apex, itself, or itself in front of the apex), accepted exactly if that is canonical and in the zone; out of the zone are exactly the absolute names not below the apex |
| NameCodec.EncodeNameLoop | app/dnswire.py:70-82 | The label loop yields the specified wire form or its first failure, for every text |
| NameCodec.CanonicalEncodes | app/dnswire.py:70-82 | Every canonical name encodes, in one octet more than its text and at most 255 |
| NameCodec.DecodeName | app/dnswire.py:85-119 | The decoder halts on every buffer and offset; on success the returned offset lies behind the start and within the buffer |
| NameCodec.DecodeNameLoop | app/dnswire.py:85-119 | The pointer-chasing loop computes the specified decoding, with the measure (unseen pointer targets, octets left) |
| NameCodec.DecodeInvertsEncode | app/dnswire.py:70-119 | Decoding inverts encoding on every name of ASCII labels without capitals, each of 1 to 63 octets and followed by a dot, whatever octets surround it |
| NameCodec.NameSurvivesIff | app/dnswire.py:70-119 | Of all names that have a wire form, exactly those and the root read back as they were |
| NameCodec.DecodeIsFiniteReading | app/dnswire.py:85-119 | The decoder accepts exactly the names with a finite reading by labels and backward pointers, and returns that reading; the seen set rejects nothing else |
| Records.LoadRRsets | app/storage.py:350-360 | Grouping the rows of a snapshot, read in text order with ties in any order, gives the RRset map of the snapshot |
| Records.FlattenLoad | app/storage.py:350-360 | Loading loses nothing: the loaded map stands for exactly the snapshot's rows and is free of empty RRsets and repeated RDATA |
| Records.CountRecords | app/storage.py:308-309 | The record total added up RRset by RRset is the number of rows the map stands for |
| Changeset.CheckOpSound | app/storage.py:368-395 | Every accepted operation names a canonical owner in the zone, repeats no RDATA, and each of its records fits a signed transfer message |
| Verdicts.OperationIff | app/storage.py:366-411 | Exactly the changes that are in order are accepted, each as the deletion or replacement it amounts to, with the records as given |
| Verdicts.FirstBadRecord | app/storage.py:391-398 | The first record that is bad, too long or a repetition decides how its operation fails |
| Changeset.ApplyOps | app/storage.py:362-411 | The loop that edits map and changed set in place has the specified effect, or stops at the first failing operation with its error |
| Changeset.ApplyRawIsApplyAll | app/storage.py:362-411 | A changeset is accepted exactly when each operation is, independently of the others, and then has the effect of the checked operations in order |
| Changeset.UnchangedKeysAreAsLoaded | app/storage.py:373-408 | Keys outside the changed set hold what was loaded, for every list of operations, repeated keys and writes of the stored value included; the map stays well-formed |
| Changeset.FlattenIsZoneSnapshot | app/storage.py:413-441 | The checks pass exactly when the rows have one apex SOA with the new serial, an apex NS, and CNAME owners with that single record only |
| Delta.CopyAndPatchRefinesRewrite | app/storage.py:445-460 | Copying the old snapshot and replacing only the changed keys gives the same rows as rewriting the zone from the final map |
| Delta.CopyAndPatch | app/storage.py:445-460 | The INSERT ... SELECT and the loop over the changed keys, in any order, produce the patched snapshot |
| Delta.Materialize | app/storage.py:443-486 | The statements write the rows of the final map, and the delta over the changed keys: deletions, then additions, apex SOA first, numbered from 1 |
| Delta.ReplayDelta | app/storage.py:461-486 | Replaying the delta of two snapshots over the first gives the second |
| Delta.DeltaIsFramed | app/storage.py:466-486 | With the apex SOA among the changed keys a delta is old SOA, other deletions, new SOA, other additions, numbered without gaps |
| Framing.DeltaIsMinimal | app/storage.py:461-486 | A delta deletes each old row and adds each new row at the changed keys, each once, and names no other row |
| Fingerprint.CanonicalPayload | app/api.py:22-53 | The loop over the request's operations and the in-place sort build the specified payload or stop at the first failure with its error; unsupported actions and types are hashed, too |
| Fingerprint.KeyOutcome | app/storage.py:376-408 | What any list of operations makes of one key: the last replacement wins, unless the stored RRset is only written back and then deleted; and when the key counts as changed |
| Fingerprint.SamePayloadChecked | app/api.py:22-53 | A request with the payload of one whose operations all pass the checks of a publish passes them as well |
| Fingerprint.SamePayloadSameSorted | app/api.py:22-53 | Requests that pass have equal payloads exactly if their serials are equal and their checked operations, stable-sorted, are the same list |
| Fingerprint.SortedOrderAgrees | app/api.py:49-53 | Request order and the fingerprint's stable-sorted order have the same effect on map and changed set exactly when no key's operations write back the stored RRset and then delete it |
| Fingerprint.DisjointActionsAgree | app/api.py:22-53 | A changeset that never both deletes and replaces a key is in the safe case |
| Fingerprint.SameSortedAgreeIff | app/api.py:49-53 | Changesets with one sorted form have the same effect on map and changed set exactly if the same stored RRsets are written back and then deleted in both |
| Fingerprint.OrderIsFreeIff | app/api.py:49-53 | All changesets with the sorted form of a given one have its effect exactly if that one deletes no stored RRset which it otherwise only restores |
| Retries.ReplayIsOwnOutcomeIff | app/storage.py:266-281 | A request with the payload of a committed one would have had the same outcome and left the same tables exactly under that condition |
| Retries.HarmlessOrder | app/storage.py:266-281 | It holds of every retry of a request that deletes no stored RRset which it otherwise only restores |
| History.InitialZoneInv | app/storage.py:112-145 | A zone created with name servers satisfies the whole zone invariant, cached counters included, whatever TTL its SOA was given |
| History.CreationIsExact | app/storage.py:112-158 | A creation succeeds exactly for a name without a zone; the zone then has version 0, its SOA and name servers, true counts, and no keys, pins or requests; nothing else changes |
| History.DedupIsExact | app/storage.py:119-126 | Of the name servers given, the first of every canonical text is kept and nothing else |
| History.InitialRowsFitIff | app/storage.py:118 | All its records can be packed exactly if that TTL is a 32-bit value |
| History.SoaIsChanged | app/storage.py:284-306 | Because the serial advances, the apex SOA is among the changed keys of every accepted changeset |
| History.AttemptIsGood | app/storage.py:283-315 | A changeset that passes every check leaves a servable snapshot, agrees with the old one outside the changed keys, and steps forward from the current serial |
| History.PublishKeepsInv | app/storage.py:254-347 | Every publish, committed, refused or failed, keeps the invariant of its zone: gapless history, distinct forward serials equal to the SOA's, deltas that link snapshots, 32-bit TTLs but for the SOA of version 0, true counters, ledger in bijection with versions |
| History.PruneKeepsInv | app/storage.py:733-742 | Deleting any prefix that spares the current version keeps it |
| History.InstallKeepsInv | app/storage.py:549-586 | A rotation keeps at most one ACTIVE key, distinct generations, distinct names among non-revoked keys, and an expiry exactly on RETIRING ones |
| History.RevokeKeepsInv | app/storage.py:612-629 | So does a revocation |
| DatabaseModel.Database.constructor | app/storage.py:59-62 | A new store satisfies the invariant |
| DatabaseModel.Database.CreateZone | app/storage.py:112-158 | The tables and the result are those of Store.CreateZone (a repeated name changes nothing), repeated name servers dropped once canonical; the invariant holds |
| DatabaseModel.Database.Publish | app/storage.py:241-347 | The whole transaction, except clauses and rollbacks included, refines the one-step publish of which the rows on publishing speak; the invariant holds |
| DatabaseModel.Database.InstallKey | app/storage.py:549-597 | The transaction refines the one-step rotation of which the rows on keys speak; the invariant holds |
| DatabaseModel.Database.ClaimCleanupTask | app/storage.py:666-696 | Claims the first pending task, else the first whose lease ran out, else nothing |
| DatabaseModel.Database.RunCleanup | app/storage.py:698-747 | Reaping, aggregate query and deletion loop refine the one-step cleanup of which the rows on cleanup speak; the invariant holds |
| DatabaseModel.PublishBody | app/storage.py:254-346 | An API error ends the try block before the first write; what the block leads to is the specified outcome |
| DatabaseModel.WriteVersion | app/storage.py:317-333 | The writes fail exactly on a repeated serial and otherwise leave the committed tables |
| DatabaseModel.HorizonIgnoresDead | app/storage.py:721-731 | Reaping dead pins first does not move the horizon of the aggregate query |
| PublishFacts.FailureChangesNothing | app/storage.py:254-347 | A publish that commits no version changes nothing but at most one FAILED ledger row, exactly for ledgerable errors of new requests; a serial clash rolls back all of it |
| Verdicts.CommitsIff | app/storage.py:283-340 | A new request commits exactly if it steps forward from the current serial to one no retained version has, all its operations pass, and the rows they lead to are a proper zone of at most 10000 records; those rows are the new snapshot |
| Verdicts.BadStepIsRefused | app/storage.py:284-290 | A new request whose serials do not step forward is refused as undecidable exactly at distance 2^31, else as invalid, and recorded |
| Verdicts.StaleBaseIsRefused | app/storage.py:292-301 | One that steps forward from any serial but the current one is a version conflict, and recorded |
| Verdicts.NoChangesIsRefused | app/storage.py:363-365 | A list of changes that is none or empty is refused, and recorded |
| Verdicts.BadOperationIsRefused | app/storage.py:362-411 | The first operation that fails its checks decides the answer |
| Verdicts.BadZoneIsRefused | app/storage.py:413-441 | Rows that are no proper zone are refused, as a bad serial exactly if the apex has one SOA with another serial, and recorded |
| Verdicts.BigZoneIsRefused | app/storage.py:308-315 | A proper zone of more than 10000 records is refused, and recorded |
| Verdicts.TakenSerialRollsBack | app/storage.py:322-347 | A serial that a retained version still has leaves the zone as it was, ledger included |
| Verdicts.RefusalConsumesIff | app/storage.py:40-47 | A refusal uses up the request identifier exactly for six failures; after any other, such as a validation error, the zone is untouched and the identifier free |
| PublishFacts.SuccessIsWhole | app/storage.py:317-340 | A committed publish adds one version, snapshot, delta and ledger row, and changes no other row |
| PublishFacts.SuccessQueuesCleanup | app/storage.py:317-340 | In the store it touches its zone alone and queues one cleanup of it |
| Verdicts.OnlyNamedKeysChange | app/storage.py:443-486 | At keys that no operation names, the new snapshot has the old rows and the new delta none |
| Verdicts.DeltaIsOfChanged | app/storage.py:461-486 | The new delta deletes and adds the old and new rows of the changed keys, each once |
| Verdicts.PublishedKey | app/storage.py:376-460 | What a committed request leaves at a key, in terms of its operations on that key |
| PublishFacts.FirstOutcomeIsRecorded | app/storage.py:331-334 | After a new request the ledger has its row exactly if it committed or failed ledgerably, and that row repeats the outcome |
| PublishFacts.RetryIsReplay | app/storage.py:266-281 | A retry changes nothing; same content gets the recorded outcome, other content a conflict |
| CleanupFacts.CleanupIsPrefixDelete | app/storage.py:715-742 | A cleanup removes a prefix from all three tables, never one of the newest max(1, retain) versions, never one a live pin covers, and alters no row it keeps |
| CleanupFacts.CleanupKeepsExactly | app/storage.py:715-742 | Retention is enforced to the version: exactly the newest max(1, retain) versions and those a live pin may still read are left, in all three tables, unaltered |
| CleanupFacts.CleanupReaps | app/storage.py:721-724 | Of the pins exactly the closed ones and those last seen more than 300 seconds ago go; row, ledger and keys stay |
| CleanupFacts.CleanupSettles | app/storage.py:698-747 | The task that ran is done; no other task and no other zone changes |
| CleanupFacts.CleanupIsIdempotent | app/storage.py:698-747 | Running it again at the same state and clock changes nothing |
| CleanupFacts.EarlierCleanupIsSubsumed | app/storage.py:698-747 | A cleanup with an earlier clock does nothing that a later one would not do alone |
| CleanupFacts.LaggingCleanupIsIdle | app/storage.py:698-747 | A cleanup whose clock lags behind that of one before it changes nothing |
| CleanupFacts.SecondWorkerFindsNothing | app/storage.py:666-747 | Two workers on one zone's tasks, or on the same task after its lease expired, do to the zones what the one with the later clock does, whatever their clocks |
| CleanupFacts.BoundaryPinProtectsNothing | app/storage.py:721-730 | An open pin stays in the table and protects no version exactly if it was last seen 300 seconds ago to the millisecond; seen then or earlier, the cleanup deletes what it would delete without it |
| CleanupFacts.HeartbeatKeepsAlive | app/storage.py:648-650 | A heartbeat keeps an open pin, and what it covers, for every cleanup of the next 300 seconds, and touches no other pin |
| CleanupFacts.ReleaseLetsGo | app/storage.py:652-658 | A released pin covers nothing, and the next cleanup removes it |
| CleanupFacts.PinMovesAreExact | app/storage.py:648-658 | Heartbeat and release mark the one pin as seen now, a release closes it, and nothing else changes; an unknown pin is ignored |
| CleanupFacts.LeaseExcludes | app/storage.py:666-696 | A claimed task is not handed out again while its lease lasts, and is up for it afterwards |
| CleanupFacts.ClaimMarksOne | app/storage.py:666-696 | A claim sets the one task running for its worker, once more, for 30 seconds, and touches no other |
| CleanupFacts.RetentionQueuesCleanup | app/storage.py:200-214 | Changing the retention changes that policy alone and queues a cleanup; an unknown zone is refused |
| CleanupFacts.WorkIsQueued | app/storage.py:334-336 | A queued cleanup is pending behind all others, and then there is a task to claim |
| KeyFacts.InstallAges | app/storage.py:564-586 | A rotation changes no key's generation, name or secret, moves states on only, and gives the new key the highest generation |
| KeyFacts.InstallIsExact | app/storage.py:549-597 | A rotation succeeds exactly for a known zone, an expiry ahead, a name no live key has and a new identifier; the new key has that name and secret and the next generation, the active one retires with the announced expiry, and nothing else changes |
| KeyFacts.RevocationIsExact | app/storage.py:612-633 | A revocation succeeds exactly for a known key not yet revoked, which is then revoked and without expiry; nothing else changes, and nothing at all when it fails |
| KeyFacts.RevokedIsNeverResolved | app/storage.py:612-633 | From then on no request is checked against the key, whatever its name, time and clock |
| KeyFacts.RotationIsSeamless | app/storage.py:577-586 | After a rotation the new key is the one ACTIVE key, and the one that was active stays usable until its announced expiry, which lies ahead |
| KeyFacts.OneLiveKey | app/dns_server.py:195-197 | At most one non-revoked key of a name exists |
| KeyFacts.ResolutionIsExact | app/dns_server.py:194-211 | Exactly which key is used: the one live key of the name, within fudge, active or with its expiry rounded up to a second still to come; hence never more than 998 ms late |
| KeyFacts.LastAcceptedInstant | app/dns_server.py:194-211 | In every well-formed key table a retiring key resolves up to the last millisecond of the second in which it expires, never after, and 998 ms late exactly if it expires just after a whole second |
| Transfer.ResolveKey | app/dns_server.py:194-211 | A resolved key is a usable one of highest generation |
| TransferServer.ResolveInTx | app/dns_server.py:194-211 | The selections and the maximum compute the specified resolution |
| TransferServer.DnsLogic.AuthorizeTransfer | app/dns_server.py:138-191 | The transaction refines the one-step authorization: its outcome and its pin; every denial and failure leaves the store as it was |
| Authorization.AuthorizedIff | app/dns_server.py:138-191 | A transfer is authorized exactly if the request carries the MAC of its own octets under the secret of a key of that name in force in the zone, in time, and its reference is new; the plan is that key's, and any other request leaves the store alone |
| Authorization.DenialIsExact | app/dns_server.py:138-162 | Which denial a refused request gets: no TSIG record, no key in force, a time out of its window, or a MAC other than that of its octets |
| TransferServer.AxfrRrStream | app/dns_server.py:244-259 | The cursor loop yields the specified full stream |
| TransferServer.IxfrRrStream | app/dns_server.py:261-283 | The nested loops over versions and change rows yield the specified incremental stream |
| TransferFacts.DecisionIsExact | app/dns_server.py:214-241 | IXFR is chosen exactly when the client's serial is retained and compares EQUAL or GREATER; the tests for a version ahead of the target and for a gap never fire |
| TransferFacts.IxfrWindow | app/dns_server.py:223-241 | For an older retained version that is exactly when the distance its serials travelled since, modulo 2^32, is below 2^31 |
| TransferFacts.AxfrIsSnapshot | app/dns_server.py:244-259 | A full transfer is the snapshot, all of it and nothing else, between two copies of its SOA |
| TransferFacts.AxfrIsOrdered | app/dns_server.py:244-259 | Between its SOAs a full transfer sends each other row once, by name, type and text |
| TransferFacts.IxfrEqualsAxfr | app/dns_server.py:244-283 | Replaying the streamed deltas over any retained snapshot gives the very set of records a full transfer sends |
| TransferFacts.SplitRecoversIff | app/dns_server.py:261-283 | Cutting a list at its heads recovers headed sections exactly when nothing inside a section looks like a head |
| Framing.StoredDeltaIsFramed | app/storage.py:461-486 | Every stored delta is framed by the apex SOAs of the two versions, with their serials |
| Framing.ReceiverRebuilds | app/dns_server.py:261-283 | Cutting the incremental stream at every SOA recovers each version's deletions and additions exactly when no delta touches an SOA below the apex; applied in turn they then give the target's snapshot |
| Gaps.LowerSoaBreaksFraming | app/storage.py:413-441 | In every zone with room and for every free owner below the apex: the request that adds an SOA there is committed, and then the increment to the new version cannot be taken apart |
| Gaps.SameFingerprintOtherRecords | app/api.py:49-53 | In every zone with room and for every stored RRset but apex SOA and NS: two requests with one payload are both committed, and the one takes the RRset away while the other keeps it |
| Gaps.NewZoneTransfersIff | app/storage.py:118 | A transfer of a new zone streams only records that can be packed exactly if the TTL given for its SOA is a 32-bit value |
| Plans.ScopeExists | app/dns_server.py:164-178 | The version row behind a plan's min_version is always there, and the plan's scope is what the decision says |
| Plans.AuthorizedPlan | app/dns_server.py:138-191 | An authorized plan names the current version, and its new pin covers exactly the versions the plan needs |
| Plans.IxfrOpensWithTarget | app/dns_server.py:261-272 | Every incremental stream opens with the SOA of the target, and is nothing else for a client that does not lag behind |
| Moves.StreamsAgree | app/dns_server.py:244-283 | A stream depends on the versions from min_version to the target only |
| Runs.ReachableInv | app/storage.py:112-755 | The invariant holds in every state of every run from the empty store |
| RunFacts.LedgerIsForever | app/storage.py:266-281 | A ledger row never changes, whatever steps follow |
| RunFacts.ExactlyOnce | app/storage.py:266-340 | Over whole runs: a later submission under a recorded identifier leaves the store as it is and gets the first outcome again if it has the same canonical payload, else a conflict, for every hash that is injective on payloads |
| RunFacts.ReplayIsTrueIff | app/storage.py:266-340 | Over whole runs: a replayed retry would itself have done what it is told exactly if it writes back and then deletes the same stored RRsets as the first request |
| Lineage.OneWriterWins | app/storage.py:284-301 | Over whole runs: of two submissions with one base serial at most one commits while less than 2^32 has been travelled between them; the other, if new and stepping forward, is a recorded version conflict |
| RunFacts.KeysOnlyAge | app/storage.py:549-633 | Over whole runs keys only age, none disappears, and new ones have higher generations |
| RunFacts.RevokedForGood | app/storage.py:612-633 | Over whole runs: after the step that revokes a key it is revoked in every state, and no request is checked against it, at any clock |
| RunFacts.PinnedTransferIsSafe | app/dns_server.py:430-455 | If the pin is open and seen within 300 seconds, strictly, at every cleanup of the zone before the first read, the transfer streams what it would have streamed at authorization, under every interleaving |
| QueryParser.ParseQueryLoop | app/dnswire.py:266-330 | The parser's sections and loops compute the specified result on every buffer |
| QueryParser.ParseQuerySound | app/dnswire.py:241-330 | The parser's bounds tests are complete: it never unpacks from a slice that is too short, and every field it returns is in its wire range |
| QueryFacts.ParseQueryIff | app/dnswire.py:266-330 | A message is accepted exactly if it is a query with one question and no answer whose records, of any type, fill it to the last octet, at most one of them a TSIG record; and the query is what the message says |
| QueryFacts.SerialAtIff | app/dnswire.py:295-302 | Exactly which authority records give the client's serial, and which make the parse fail |
| QueryFacts.SecondTsigIsRefused | app/dnswire.py:315-317 | A second TSIG record is refused, wherever the two stand |
| QueryFacts.TrailingOctetsAreRefused | app/dnswire.py:321-322 | Octets behind the last record are refused |
| Wire.ReadsRr | app/dnswire.py:176-179 | A packed record reads back from any place in any message |
| Wire.ReadsTsigRdata | app/dnswire.py:190-263 | So do the fields of a TSIG record |
| Wire.TsigRdataIff | app/dnswire.py:241-263 | The RDATA of a TSIG record is accepted exactly if, behind the algorithm name, it is the printing of fields, which are the ones returned |
| Wire.PatchHeader | app/dnswire.py:186-187 | Patching ARCOUNT replaces the header's last field and nothing else |
| RoundTrips.SoaAuthorityCarries | app/dnsclient.py:27-31 | The server reads the client's serial out of the authority section the client prints |
| RoundTrips.RequestRoundTrip | app/dnsclient.py:34-53 | The server accepts every request the client builds and recovers all its fields, for all canonical zone names, all key names that survive the wire, 32-bit serials, fudge values and times below 2^48 |
| ExtraRecords.ExtrasChangeNothing | app/dnswire.py:305-322 | Additional records of other types, such as OPT, in front of the TSIG record and behind it, change nothing of what is read from a request, and its place is found |
| ExtraRecords.UnsignedWithExtras | app/dnswire.py:305-322 | Without a TSIG record such a request is read as an unsigned one |
| ExtraRecords.PrintedIsOther | app/dnswire.py:176-179 | Every record that can be packed and is no TSIG record is such a record |
| RoundTrips.RequestDigestAgrees | app/dnswire.py:337-352 | For every secret the server hashes the very octets the client hashed |
| Packing.RrBatches | app/dns_server.py:67-92 | The generator's messages are the specified batches, each wrapped with its record count |
| Packing.PackIsSplit | app/dns_server.py:67-85 | The packing keeps every record in order; a message exceeds the room only for a single record; only an empty stream gives an empty message |
| Packing.GreedyIsOptimal | app/dns_server.py:67-85 | No packing in the same order needs fewer messages, for any room, negative room included |
| Packing.MessagesFit | app/dns_server.py:28-92 | Record counts fit 16 bits, and every message leaves room for 400 octets of TSIG within 65535, also where one long record overruns the room |
| SignedStream.StreamSigned | app/dns_server.py:457-497 | The one-message lookahead sends every plain message once, in order, and signs exactly the first and the last, chained as specified |
| SignedStream.DeframeFrames | app/dns_server.py:49-50 | The framed stream comes apart into the messages sent |
| SignedStream.DeframeIff | app/dnsclient.py:188-206 | A stream comes apart into messages exactly if it is these messages framed |
| Client.ParseMessageLoop | app/dnsclient.py:78-108 | The client's parser computes the specified result on every buffer |
| Responses.ReadsPlain | app/dnsclient.py:66-108 | The client reads an unsigned message's records back, and no TSIG |
| Responses.ReadsSigned | app/dnsclient.py:66-108 | And a signed one's, with its TSIG record and where it starts |
| Responses.SignatureVerifies | app/dnsclient.py:127-153 | The client's digest input for a signed message is, octet for octet, the server's, so that the check succeeds and hands on the MAC the server chains from |
| Acceptance.VerifiesIff | app/dnsclient.py:141-153 | A response verifies exactly if its MAC is that of the prior MAC, all its octets in front of the TSIG record and the TSIG variables, whatever time, fudge, error and other data it carries |
| Acceptance.ReceivedIff | app/verify.py:177-200 | The client takes records from a stream exactly if it is framed messages, one at least, that parse, the first and the last signed along the chain and the others unsigned; and it takes all their answers in order |
| Delivery.SentMessageReads | app/verify.py:177-191 | Message i of the stream parses to its batch, carries a TSIG record exactly if it is the first or the last, and verifies along the chain request, first, last |
| Delivery.TransferDelivered | app/dns_server.py:430-497 | Packed, signed and framed, every stream of stored records is accepted by the client and its answers are the stream, record for record, for every budget |
| Delivery.PackedIsBest | app/dns_server.py:28-92 | The messages of a transfer stay within the configured budget, capped at 65000, less 400 octets, and no fewer messages within it could hold its records |
| Convergence.StreamFitsIff | app/dns_server.py:244-283 | Every record of an authorized transfer can be packed exactly if the transfer does not read a version 0 whose SOA was created with a TTL beyond 32 bits |
| Convergence.IncrementConverges | app/dns_server.py:261-283 | On wire records, a secondary that applies the sections of an incremental stream to its copy gets the target's snapshot, also where two rows have the same octets |
| Convergence.SecondaryConverges | app/dns_server.py:244-283 | Full or incremental, an authorized transfer leaves the secondary with the target's snapshot |
| EndToEnd.SecondaryIsAuthorized | app/dns_server.py:138-191 | Every request built with the secret of a key in force is authorized, in every reachable store, for every key name that survives the wire |
| EndToEnd.TransferConverges | app/dns_server.py:430-497 | From authorization to the secondary's copy, for every message budget and keyed hash |
| Service.SecondaryFollowsRun | app/dns_server.py:430-455 | Over whole runs: a transfer whose pin stays fresh delivers the snapshot that was current at its authorization |
| Secondaries.IncrementStartsFromCopyIff | app/dns_server.py:164-178 | Over whole runs: an increment asked for by the serial of an earlier copy starts from that copy's version exactly if it is still retained; and it is, while less than 2^32 has been travelled |
| Secondaries.SecondaryKeepsUp | app/dns_server.py:430-455 | Over whole runs: a secondary that got the zone in one transfer and asks again has, after the next, the snapshot current then |
| StaleCopies.SerialComesBack | app/dns_server.py:214-241 | Otherwise a publish that returns to the serial of a version no longer retained is accepted, and a secondary that holds that version is answered with a lone SOA and keeps other records than the zone's |
| StaleCopies.StaleSecondary | app/dns_server.py:214-241 | That happens to every new zone with a retention of one, by three publishes and a cleanup |

## Left out

- Sockets, threads, HTTP routing, health checks, process entry points and the cleaner's polling loop.
- SQLite itself, schema migration, timestamps and error texts.
- Ordinary query answering, UDP truncation and the search for a zone by name: thin lookups.
- TSIG error responses, and `continue_running_mac`, which no transfer calls.
- IPv4, IPv6 and JSON text formats, base64, UUIDs and random secrets.
- The root zone, which canonicalization excludes.
- The cleaner's lease as a means of mutual exclusion: nothing relies on it, as `CleanupFacts.SecondWorkerFindsNothing` shows.
- The stable read view after the first read: a transfer's reads are one read of the tables.
- Liveness: that heartbeats come in time is a hypothesis, not a result.
- The methods for retention changes, revocation, heartbeat and release have no rows of their own: each has the effect of its function in `Store`, of which the rows on retention, revocation and pins speak.
- Keys stored under a name that no request can name, which the service accepts and never finds again.
