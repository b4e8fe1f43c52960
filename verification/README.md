# A verified model of the Midnight node

Dafny models of the parts of the Midnight node that carry state from Cardano to Midnight and back,
with proofs of what they promise over every input and every run.  Verify the project with
`dafny verify dfyconfig.toml`.

## What is modelled

**cNIGHT observation.**  Each block the follower reads a window of Cardano history and the pallet
folds it over two maps: reward address to mapping list, and UTXO nonce to dust key.  A registration
counts only while exactly one mapping is stored, so registrations come and go as mappings are added
and removed.  `CnightStep` states what one UTXO does in terms of the registration before and after.
`CnightPallet` is the pallet as a class whose handlers follow the source, proved to do just that.
`CnightChain` adds the guards, the roll-back of a failed call, blocks and whole runs.  On top of it:

- `CnightChain` and `CnightRuns`: every run, however batched and whatever was rejected, leaves what
  one pass over the accepted UTXOs leaves.
- `CnightLogs`: an indexer that replays the event log arrives at exactly the stored registrations
  and mapping lists.
- `CnightOwners`: every Destroy event ends one earlier Create with its nonce and key.
- `CnightEvents`: which UTXO every event comes from and with which content, and why a UTXO has none.
- `CnightOrder`: a part of the storage depends only on its own part of the stream, and only
  conflicting UTXOs need to keep their order.
- `CnightApplied`: when the events that reached the ledger match up, although batches were dropped.
- `FollowerRows`, `ObservationWindow` and `WindowLimits`: four limited queries over raw rows, decoding, a
  merge and a cut by transactions, with the exact condition under which a window is complete.
- `EndToEnd`: under that condition, block by block, the pallet's state is one pass over the Cardano
  history up to its position, and without it something is lost for good.
- `WindowPlaces` and `Progress`: how fast the pallet catches up with a tip, and that a window too large
  for the call stops it.
- `Conversions`: both ends of one Cardano output keep one identity.

**Governance.**  `GovernanceDatum` decodes the on-chain member list, and `FederatedAuthority` builds,
checks and dispatches the inherent that installs it.

**BEEFY.**  `Beefy` follows stakes from the runtime through the node's payload into the relay, and
`RelayProof` the relay's votes and their Plutus encoding.

**Encodings.**  `Json` is the rewriting of byte arrays into hex strings, `GenesisMaps` the hex-keyed
maps of the chain specification, `Base64Url` and `PidFiles` the watchdog file names.

**Sessions.**  `SessionManager` is the rotation guard.

`Common`, `Sorting`, `Ordering` and `Hex` are shared.

## Conventions

The hash, the Merkle root, the signature check and the ledger's event constructor are functions
passed in; a theorem that needs the hash to be injective says so.  What the ledger answers to a
system transaction is an input of each call.  Storage is rolled back when a call fails, as FRAME does
for every dispatchable.  Casts, saturating arithmetic and the wrap of a negative timestamp are
written out.

Where a promise does not hold as stated, a lemma gives the input and another the exact condition:

- The row limit of a query counts rows that do not decode.  A full load of them hides the UTXOs
  behind it, and the window still ends after these (`UndecodableRowsHideACreate`,
  `CompleteIffInReach`, `WindowIsCompleteIff`, `NothingLostIff`).
- Nothing holds a transaction to 64 observable UTXOs, although the code calls that an overestimate.  A
  larger one can be cut (`LargeTransactionsLoseCreates`, under the same condition), and a complete
  window can be too large for the call (`CompleteWindowIsRejected`, `InherentPassesGuardsIff`), which
  then refuses it for good (`RefusedForGood`).
- A window for fewer than two transactions moves past a transaction it does not return
  (`OneTxWindowSkips`, `SmallWindowIsCompleteIff`).
- A batch whose system transaction cannot be built keeps its storage but its ledger events are lost,
  and a later Destroy may then stand alone (`DroppedCreateOrphansItsDestroy`, `AppliedMatchIff`).
- A spend forgets its owner before its event is built (`LostOwnerStaysOpen`,
  `LedgerEventsMatch`).
- Narrowing output indices to 16 bits merges outputs 65536 apart (`SameNonceIff`,
  `WideIndicesCollide`).
- The order of the input to `reset_members` matters when an account comes with two mainchain ids
  (`InputOrderMatters`, `InputOrderIrrelevantIff`).
- A signature beyond the validator list is collected for the proof tree but casts no vote
  (`StraySignatureCastsNoVote`, `VoteIndicesIff`).  Whether a generated proof can hold one is up to the
  signature check of the BEEFY library; with one slot per validator it cannot
  (`GeneratedProofHasNoStray`).
- A JSON string shaped like a rewritten byte array cannot be told from one
  (`HexStringIsNotRecovered`, `RestoreTransformIff`).
- A comment in `ledger/src/json.rs` says every array of numbers is rewritten; the code rewrites only
  non-empty byte arrays, and leaves the second half of a `vk` pair (`SecondPassRewritesVk`,
  `IdempotentIff`).

## Model

| member | source | states |
|---|---|---|
| CnightTypes.Seconds | pallets/cnight-observation/src/lib.rs:586 | the event time is the block time rounded down to seconds; a time before 1970 wraps into the far future |
| CnightTypes.NonceIdentifiesOutput | pallets/cnight-observation/src/lib.rs:473-476 | with an injective hash two outputs share a nonce exactly when they are one output, since the preimage has fixed widths |
| CnightStep.RunConcat | pallets/cnight-observation/src/lib.rs:578-610 | processing a stream in two parts is processing it whole: storage, event log and ledger events |
| CnightPallet.RemovalTransition | pallets/cnight-observation/src/lib.rs:443-459 | a removal that ends a registration names the key that was registered, and one that leaves a single mapping registers that mapping's key |
| CnightPallet.Pallet.constructor | pallets/cnight-observation/src/lib.rs:253-305 | genesis stores the given mappings, owners and position, with no inherent executed |
| CnightPallet.Pallet.HandleRegistration | pallets/cnight-observation/src/lib.rs:372-413 | appends the mapping and deposits exactly the event of the change in registration, then MappingAdded |
| CnightPallet.Pallet.HandleRegistrationRemoval | pallets/cnight-observation/src/lib.rs:415-462 | removes the first equal mapping if any and deposits exactly the event of the change in registration, then MappingRemoved in every case |
| CnightPallet.Pallet.HandleCreate | pallets/cnight-observation/src/lib.rs:464-496 | the owner is stored and a Create returned exactly when the owner is registered and the event builds |
| CnightPallet.Pallet.HandleSpend | pallets/cnight-observation/src/lib.rs:498-531 | the owner is removed in every case; the Destroy carries the stored key and is missing only if there was none or it did not build |
| CnightPallet.Pallet.HandleUtxos | pallets/cnight-observation/src/lib.rs:576-610 | the loop over a batch has the effect of one pass: storage, deposited events, pending ledger events |
| CnightPallet.Pallet.ProcessTokens | pallets/cnight-observation/src/lib.rs:550-641 | the call is rejected for the first failing guard or by the ledger, and otherwise commits the pass, the position, the flag and the system-transaction event |
| CnightPallet.Pallet.Dispatch | pallets/cnight-observation/src/lib.rs:546-641 | a rejected call leaves mappings, owners, position, flag and events exactly as they were |
| CnightPallet.Pallet.OnFinalize | pallets/cnight-observation/src/lib.rs:541-543 | the end of a block clears the flag and nothing else |
| CnightChain.EveryRunIsOnePass | pallets/cnight-observation/src/lib.rs:550-641 | any run of accepted and rejected calls and block ends leaves the storage, registration log and ledger events of one pass over the accepted UTXOs |
| CnightChain.BatchingIsInvisible | pallets/cnight-observation/src/lib.rs:550-641 | two runs that accepted the same UTXOs agree however they were batched |
| CnightChain.CutStreamIsOneBatch | pallets/cnight-observation/src/lib.rs:550-641 | a stream cut into calls over successive blocks ends where the whole stream in one call ends |
| CnightLogs.RunReplays | pallets/cnight-observation/src/lib.rs:359-462 | replaying the log of any stream succeeds and gives exactly the stored registrations, unmatched removals and duplicate mappings included |
| CnightLogs.RegistrationEventsAlternate | pallets/cnight-observation/src/lib.rs:393-409 | the registration events of an address strictly alternate and a Deregistration carries the key of the Registration it ends |
| CnightLogs.FirstRegistrationEvent | pallets/cnight-observation/src/lib.rs:393-459 | the first event of an address ends its genesis registration, with its key, or starts one where there was none |
| CnightLogs.RunReplaysMappings | pallets/cnight-observation/src/lib.rs:387-461 | the stored mapping lists are what the mapping events alone replay to |
| CnightOwners.LedgerEventsMatch | pallets/cnight-observation/src/lib.rs:464-531 | if no output is created twice the ledger events match up; the stored owners are open Creates, and all of them exactly when no spend lost its owner |
| CnightOwners.LostOwnerStaysOpen | pallets/cnight-observation/src/lib.rs:507-530 | a spend whose Destroy cannot be built leaves no stored owner while its Create stays open |
| CnightOwners.DestroyHasPartner | pallets/cnight-observation/src/lib.rs:507-530 | each Destroy of matching events has its Create or genesis owner with the same nonce and key, and nothing of that nonce between them |
| CnightOwners.EveryDestroyHasPartner | pallets/cnight-observation/src/lib.rs:464-531 | the same in every stream, even with outputs created twice and owners that register anew |
| CnightEvents.LedgerEventsAreTraced | pallets/cnight-observation/src/lib.rs:464-531 | every ledger event of a stream is that of one create or spend, in order: its value, the hash of tag, transaction and big-endian index as nonce, its time in seconds, and the key registered for its owner at that point, or for a spend the key stored by then; a create or spend without one has no such key or its event did not build |
| CnightEvents.BuiltEventsAreTraced | pallets/cnight-observation/src/lib.rs:578-610 | the same over every run from genesis, for all the UTXOs it accepted |
| CnightEvents.MappingEventsFollowTheStream | pallets/cnight-observation/src/lib.rs:387-461 | the mapping events of a stream are, in order, an addition for each registration and a removal for each removal, with its address, key and output |
| CnightEvents.RegistrationEventsHaveTheirCause | pallets/cnight-observation/src/lib.rs:393-461 | every registration event is followed at once by the mapping event of the same address that caused it |
| CnightEvents.ExecutedBatchesAreReported | pallets/cnight-observation/src/lib.rs:612-635 | in every run the system-transaction events are exactly those of the executed batches, each with its call's block, transaction index and the ledger's hash |
| CnightEvents.ReportComesLast | pallets/cnight-observation/src/lib.rs:625-632 | such a report is the last event of its call |
| CnightEvents.OnlyInherentsCount | pallets/cnight-observation/src/lib.rs:555 | calls with another origin than none can be struck from a run without a trace |
| CnightEvents.RefusedFor | pallets/cnight-observation/src/lib.rs:555-567 | which refusal a call gets, written out for each, and that each is given only if nothing before it applies |
| CnightRuns.PositionNeverDecreases | pallets/cnight-observation/src/lib.rs:566-567 | in every run the stored Cardano position never goes back |
| CnightRuns.OncePerBlock | pallets/cnight-observation/src/lib.rs:563-564 | within a block at most one call is accepted, and none once one has been |
| CnightRuns.EventsReplay | pallets/cnight-observation/src/lib.rs:359-462 | in every run from genesis the deposited events replay to exactly the stored registrations |
| CnightRuns.RegisteredAsLastEventSays | pallets/cnight-observation/src/lib.rs:359-369 | in every run an address is registered, and with which key, is what the last registration event naming it says, or genesis if none does |
| CnightRuns.EventsAlternateInEveryRun | pallets/cnight-observation/src/lib.rs:393-459 | in every run the registration events of an address alternate, from its genesis registration on, and each Deregistration carries the key it ends |
| CnightRuns.LedgerMatchesInEveryRun | pallets/cnight-observation/src/lib.rs:464-531 | in every run that creates no output twice the built ledger events match up, and owners equal open Creates exactly when no owner was lost |
| CnightRuns.AppliedIffNothingDropped | pallets/cnight-observation/src/lib.rs:614-636 | the ledger has applied all events built exactly when no system transaction failed to build; when those applied still match up is the next row |
| CnightApplied.AppliedMatchIff | pallets/cnight-observation/src/lib.rs:614-636 | in every run that creates no output twice, the events applied at the ledger match up exactly when no executed call destroys an output whose Create was in a dropped call |
| CnightApplied.RunApplied | pallets/cnight-observation/src/lib.rs:464-531 | one batch is accepted by the ledger exactly when it destroys nothing whose Create was dropped, and the ledger then still knows every stored owner but the dropped ones |
| CnightRuns.DroppedCreateOrphansItsDestroy | pallets/cnight-observation/src/lib.rs:617-635 | a run in which a dropped Create leaves a later Destroy without a partner at the ledger |
| CnightOrder.StepIsLocal | pallets/cnight-observation/src/lib.rs:372-531 | what a UTXO changes and emits depends only on the mappings and the owner it uses |
| CnightOrder.ConeOfInfluence | pallets/cnight-observation/src/lib.rs:372-531 | for closed sets of addresses and nonces, mappings, owners, pallet events and ledger events come from the relevant part of the stream alone |
| CnightOrder.MappingsOfOneAddress | pallets/cnight-observation/src/lib.rs:372-462 | an address's mapping list comes from the registrations and removals that name it |
| CnightOrder.StepsCommute | pallets/cnight-observation/src/lib.rs:578-610 | two UTXOs that do not conflict can be swapped: same storage, and each emits what it would have emitted |
| CnightOrder.ReorderingIsInvisible | pallets/cnight-observation/src/lib.rs:578-610 | every permutation of a stream, equal UTXOs included, that keeps the order of conflicting ones ends in the same storage |
| Ordering.UtxoLeIsTotalPreorder | primitives/cnight-observation/src/lib.rs:367-388 | the order the follower sorts by is reflexive, total and transitive, so sorting by it is well defined |
| Ordering.HeaderTransitive | primitives/cnight-observation/src/lib.rs:367-388 | the header order, creates first within a transaction, is transitive |
| Ordering.HeaderOrder | primitives/cnight-observation/src/lib.rs:367-388 | the header order is that of block, transaction, creates before the rest, hash and index, read as numbers |
| FollowerRows.DecodeRows | primitives/mainchain-follower/src/data_source/cnight_observation.rs:319-360 | the loop over a query's rows keeps what decodes, in order, and passes over the rest |
| FollowerRows.FetchedOrMissed | primitives/mainchain-follower/src/db/queries/cnight_observation.rs:62-64 | every observable UTXO in the range is brought by the queries or stands past its query's limit, and never both |
| FollowerRows.MergedRows | primitives/mainchain-follower/src/data_source/cnight_observation.rs:196-206 | sorting what was brought gives the history in the range, strictly in order, but for what stands past a limit |
| FollowerRows.SliceConcat | primitives/mainchain-follower/src/db/queries/cnight_observation.rs:61-62 | inclusive start and exclusive end make adjacent windows join without gap or overlap |
| ObservationWindow.Truncate | primitives/mainchain-follower/src/data_source/cnight_observation.rs:208-222 | the loop keeps everything before the transaction that reaches the capacity, and counts transactions |
| ObservationWindow.GetUtxosUpToCapacity | primitives/mainchain-follower/src/data_source/cnight_observation.rs:133-240 | four limited queries, decoding, sort and cut compute the window of the table, its end included |
| ObservationWindow.CompleteIffInReach | primitives/mainchain-follower/src/data_source/cnight_observation.rs:96-240 | with room for two transactions or more the window is the whole observable history from its start to its end exactly when no observable row before the end stands past its query's limit; it never holds anything else, and ends before it starts only if the tip does |
| ObservationWindow.WindowIsCompleteIff | primitives/mainchain-follower/src/data_source/cnight_observation.rs:96-240 | the same on the database alone: nothing observable is past a limit, or the fetched rows reach the capacity and fill the window before the first such row |
| ObservationWindow.RowsBeforeTheEndFit | primitives/mainchain-follower/src/data_source/cnight_observation.rs:138-141 | a window is complete if no query has more rows before its end, decodable or not, than 64 for each transaction of capacity |
| ObservationWindow.ShortWindowIsComplete | primitives/mainchain-follower/src/data_source/cnight_observation.rs:138-141 | where every row decodes, a window with fewer UTXOs than one query's limit is complete |
| ObservationWindow.WindowSize | primitives/mainchain-follower/src/data_source/cnight_observation.rs:208-222 | a window has at most as many UTXOs for each transaction it keeps as the largest transaction has |
| ObservationWindow.OverestimateSuffices | pallets/cnight-observation/src/lib.rs:69-72 | what the factor of 64 is for: with no larger transaction, and every row decoding, every window is complete and smaller than the limit of the call |
| ObservationWindow.SmallWindowIsCompleteIff | primitives/mainchain-follower/src/data_source/cnight_observation.rs:208-238 | below two transactions the window is empty; it is complete exactly when nothing is observable at its start or, if it reaches the tip, up to there |
| WindowLimits.UndecodableRowsHideACreate | primitives/mainchain-follower/src/data_source/cnight_observation.rs:459-462 | at every capacity, any 64 undecodable creates for each transaction of it, in whatever transactions, hide the next create, and the window ends after it |
| WindowLimits.LargeTransactionsLoseCreates | primitives/mainchain-follower/src/data_source/cnight_observation.rs:138-141 | at every capacity from 2 up, a history of transactions with 129 creates each of which the window returns 64 for each transaction of capacity and ends after the rest |
| WindowLimits.CompleteWindowIsRejected | pallets/cnight-observation/src/lib.rs:556-562 | at every capacity from 2 up to 2^26, a complete window of creates and a spend that the call refuses as too many UTXOs |
| WindowLimits.OneTxWindowSkips | primitives/mainchain-follower/src/data_source/cnight_observation.rs:208-238 | a history of one create whose window, with room for one transaction, is empty and ends after it |
| EndToEnd.InherentPassesGuardsIff | pallets/cnight-observation/src/lib.rs:555-567 | the inherent built from a window passes every guard exactly when the tip is not behind the pallet and the window fits the call, which below a capacity of 2^24 means at most 64 UTXOs for each transaction of it, and from 2^26 on always holds |
| EndToEnd.NothingLostIff | pallets/cnight-observation/src/lib.rs:550-641 | over any number of blocks the pallet has processed exactly the observable history from genesis to its position if and only if no accepted window hit a limit too early |
| EndToEnd.StateIsOnePassOverHistory | pallets/cnight-observation/src/lib.rs:550-641 | under that condition the pallet holds one pass over the Cardano history from genesis to its position: nothing lost, repeated or moved |
| Progress.WindowMovesForward | primitives/mainchain-follower/src/data_source/cnight_observation.rs:208-238 | while the tip is not behind, a window ends strictly after it starts |
| Progress.WindowTakesTransactions | primitives/mainchain-follower/src/data_source/cnight_observation.rs:208-238 | a window that stops short of a position its tip has reached leaves one transaction fewer than the capacity behind |
| Progress.CatchesUp | pallets/cnight-observation/src/lib.rs:550-641 | once the tips have reached a position the pallet is past it after as many accepted blocks as it takes, at one transaction fewer than the capacity each, to exceed the transactions with observable UTXOs that lie between |
| WindowPlaces.WindowGrows | primitives/mainchain-follower/src/data_source/cnight_observation.rs:133-240 | with a later tip a window never shrinks, undecodable rows included |
| WindowPlaces.WindowSizeByHistory | primitives/mainchain-follower/src/data_source/cnight_observation.rs:133-240 | where every row decodes, how large a window is does not depend on the order the database gives to the rows of a transaction |
| Progress.RefusedForGood | pallets/cnight-observation/src/lib.rs:555-562 | where every row decodes, a window refused as too large is refused in every later block whose tip is not behind: the pallet never changes again |
| Conversions.SameNonceIff | data-sources/src/grpc/conversions.rs:41-97 | create and spend events share a nonce exactly when they name one transaction and indices equal modulo 2^16, so below 2^16 exactly when they are one output |
| Conversions.WideIndicesCollide | data-sources/src/grpc/conversions.rs:66 | outputs 0 and 65536 of a transaction take one nonce |
| Conversions.ConvertedFields | data-sources/src/grpc/conversions.rs:34-181 | which field of an event becomes which of the UTXO: position in 32 bits, the transaction it was seen in, the output in 16, quantity, holder, mapping |
| Conversions.RefusedEvents | data-sources/src/grpc/conversions.rs:34-181 | an event is refused for a missing kind, a hash not of 32 bytes, an address not of 29 or an undecodable datum, and for nothing else |
| Conversions.RemovalUndoesRegistration | data-sources/src/grpc/conversions.rs:99-179 | whatever is observed between the registration of an output and its removal, the mapping lists end as if neither had been there |
| FederatedAuthority.Pallet.ResetMembers | pallets/federated-authority-observation/src/lib.rs:194-393 | rejects without change, or installs both bodies and deposits an event for each that changed |
| FederatedAuthority.Pallet.OnFinalize | pallets/federated-authority-observation/src/lib.rs:180-182 | the end of a block clears the flag and nothing else |
| FederatedAuthority.OncePerBlock | pallets/federated-authority-observation/src/lib.rs:203 | within a block at most one call is accepted, and none once one has been |
| FederatedAuthority.FirstInherentDecides | pallets/federated-authority-observation/src/lib.rs:194-393 | the first inherent of a block with two non-empty lists installs both, and both stay as it left them whatever is called before the block ends |
| FederatedAuthority.NothingAfterTheFirst | pallets/federated-authority-observation/src/lib.rs:203 | once a call has been accepted nothing changes until the block ends |
| FederatedAuthority.OnlyInherentsCount | pallets/federated-authority-observation/src/lib.rs:202 | calls with another origin than none can be struck from a run without a trace |
| FederatedAuthority.CouncilIsReportedFirst | pallets/federated-authority-observation/src/lib.rs:291-390 | of the events of one call the council's comes first |
| FederatedAuthority.InstalledPairs | pallets/federated-authority-observation/src/lib.rs:206-218 | the stored lists, zipped, are a permutation of the input pairs in account order, stable for equal accounts |
| FederatedAuthority.InputOrderIrrelevantIff | pallets/federated-authority-observation/src/lib.rs:206-218 | what is installed is independent of input order exactly when no account comes with two mainchain ids |
| FederatedAuthority.InputOrderMatters | pallets/federated-authority-observation/src/lib.rs:206-218 | one account with two mainchain ids installs different lists in the two orders |
| FederatedAuthority.RepeatIsSilent | pallets/federated-authority-observation/src/lib.rs:291-390 | repeating a call in the next block changes nothing and emits nothing |
| FederatedAuthority.BodiesComeTogether | pallets/federated-authority-observation/src/lib.rs:232-390 | in every run both bodies are still the first ones or come from one and the same call with neither list empty |
| FederatedAuthority.EventsReplayBodies | pallets/federated-authority-observation/src/lib.rs:291-390 | in every run replaying the deposited events gives exactly the stored bodies, and no event repeats what already was |
| FederatedAuthority.DuplicatedIff | pallets/federated-authority-observation/src/lib.rs:569-577 | the size comparison finds a duplicate exactly when two positions hold one account |
| FederatedAuthority.DecodedMembers | pallets/federated-authority-observation/src/lib.rs:539-566 | keys decode exactly when all have 32 bytes or more, each to the member at its position |
| FederatedAuthority.CreatedInherentPassesCheck | pallets/federated-authority-observation/src/lib.rs:451-527 | a created call is the decoded data and passes its own check |
| FederatedAuthority.CheckReports | pallets/federated-authority-observation/src/lib.rs:482-527 | which error the check reports, if and only if, for every call and every state of the data |
| FederatedAuthority.CreatedInherentInstallsItsData | pallets/federated-authority-observation/src/lib.rs:451-476 | dispatched in a fresh block it installs exactly those members, each once, in strictly ascending account order |
| FederatedAuthority.CheckedCallInstallsIff | pallets/federated-authority-observation/src/lib.rs:451-527 | the check admits one reset call at most, and that call installs both bodies, each member once, from every state exactly when the pallet itself creates it from the data |
| GovernanceDatum.DecodeGovernanceDatum | data-sources/src/grpc/conversions.rs:401-534 | the first failing shape check is returned; else the authorities in map order, or the error of the first malformed key |
| GovernanceDatum.DecodedAuthorities | data-sources/src/grpc/conversions.rs:460-525 | the result holds, in map order, one authority per key that is not skipped |
| GovernanceDatum.DecodedBytes | data-sources/src/grpc/conversions.rs:474-521 | each authority comes from one key of 32 bytes: its mainchain id is that key without the first 4 bytes and its account key the 32 bytes stored first under it; every key in between is passed over for a reason given on the bytes |
| GovernanceDatum.MalformedFailsIff | data-sources/src/grpc/conversions.rs:474-521 | decoding fails exactly when a byte-string key is not of 32 bytes or the byte string stored first under it not of 32 |
| GovernanceDatum.FirstMalformedDecides | data-sources/src/grpc/conversions.rs:474-521 | the error is that of the first such entry |
| GovernanceDatum.ShapeAcceptedIff | data-sources/src/grpc/conversions.rs:401-534 | the shape is accepted exactly for a list that starts with a list, whose second item is a map, and a round below 256; each error names what is wrong |
| GovernanceDatum.AuthorityWidths | data-sources/src/grpc/conversions.rs:474-521 | every key returned has 32 bytes and every mainchain id 28 |
| GovernanceDatum.DecodeFailsIff | data-sources/src/grpc/conversions.rs:474-521 | the member list fails to decode exactly when some key or value is malformed |
| GovernanceDatum.DatumKeysAlwaysDecode | data-sources/src/grpc/conversions.rs:514-524 | decoded authorities never fail to decode in the pallet and can only be too many |
| GovernanceDatum.DatumsInstallIff | pallets/federated-authority-observation/src/lib.rs:451-476 | from two datums an inherent is created exactly when both lists are non-empty, within the limit and without repeated keys, and it installs exactly them |
| Beefy.ComputeBeefyStakes | runtime/src/beefy.rs:118-147 | validators in order with stake one; the committee left over and the warnings are the two multiset differences |
| Beefy.RemoveMatch | runtime/src/beefy.rs:127-136 | the search removes one matching member exactly when there is one |
| Beefy.LeafBytesInjective | runtime/src/beefy.rs:155-168 | the 41-byte leaf of key and little-endian stake determines both |
| Common.LittleEndianAt | runtime/src/beefy.rs:155-168 | byte i of the little-endian stake is its i-th digit in base 256 |
| Beefy.RuntimeAuthoritySet | runtime/src/beefy.rs:149-175 | the announced set has the given id, the number of stakes in 32 bits and the root over the hashed leaves in order |
| Beefy.RelayLeavesAreRuntimeLeaves | relay/src/authorities.rs:75-106 | the relay's leaf hashes are the hashes of the runtime's leaves, position by position |
| Beefy.GetAfterPush | node/src/payload.rs:119-131 | an entry is found after later entries were pushed and sorted in, unless an earlier one has its id |
| Beefy.PushKeepsOrder | node/src/payload.rs:119-131 | pushing keeps a payload in id order and adds one entry |
| Beefy.NodePayloadIff | node/src/payload.rs:100-133 | when the node builds a payload, if and only if, and what it then carries under each of the five ids |
| Beefy.ReadReports | relay/src/justification.rs:37-57 | the relay reports the first part that is missing and otherwise returns each part from its own id |
| Beefy.RelayReadsNodePayload | relay/src/justification.rs:37-57 | the relay parses a node-built payload exactly when next stakes were present, and recovers the same stakes and sets |
| Beefy.RelayRootIsCommitment | relay/src/authorities.rs:44-52 | the root the relay computes is the commitment of the runtime's authority set, and is missing exactly for no stakes |
| RelayProof.VoteIndicesIff | relay/src/cardano_encoding.rs:202-223 | the vote indices are the collected signature indices exactly when no signature lies beyond the validators |
| RelayProof.StraySignatureCastsNoVote | relay/src/cardano_encoding.rs:202-223 | of two signatures for one validator the second is collected but casts no vote |
| RelayProof.GeneratedProofHasNoStray | relay/src/authorities.rs:114-133 | behind a signature check that wants one slot per validator, a generated proof has a vote for every collected index |
| RelayProof.VotesAreWellPlaced | relay/src/cardano_encoding.rs:202-223 | votes have strictly ascending indices within both lists, each with the key and shortened signature at its index |
| RelayProof.EverySignerVotes | relay/src/cardano_encoding.rs:207-222 | every validator that signed has its vote |
| RelayProof.GeneratedProofHangsTogether | relay/src/cardano_encoding.rs:37-51 | in a generated proof the tree proves the leaves the votes name, and with the runtime's stakes each such leaf belongs to the vote's key |
| RelayProof.GeneratedCommitment | relay/src/cardano_encoding.rs:187-226 | a generated proof carries the justification's block, validator set and roots, each root under the id mh, and each vote the signature of its index without the last byte |
| RelayProof.GenerateFailsIff | relay/src/cardano_encoding.rs:37-51 | no proof is generated exactly when the signatures do not verify, the payload cannot be read or there are no stakes, with the error of each |
| RelayProof.EncodedNumberIff | relay/src/cardano_encoding.rs:157-158 | numbers keep their value exactly below 2^63 and can be told apart over all 64 bits |
| RelayProof.ProofPaths | relay/src/cardano_encoding.rs:54-251 | where in the Plutus data the block, the validator set, the root, the leaf count and the tree are found |
| RelayProof.ListPaths | relay/src/cardano_encoding.rs:113-185 | the payloads and votes stand there in order, each with its fields in the order of the record |
| RelayProof.DecodeEncodeProof | relay/src/cardano_encoding.rs:54-251 | the Plutus encoding of the whole proof, tree included, can be read back |
| RelayProof.EncodeProofInjective | relay/src/cardano_encoding.rs:54-251 | two proofs with one encoding are one proof, for every 64-bit validator set id |
| Json.RestoreTransformIff | ledger/src/json.rs:30-77 | a decoder recovers the original value exactly when it holds no string shaped like a rewritten byte array |
| Json.HexStringIsNotRecovered | ledger/src/json.rs:30-77 | the string 0x00 and the array of one zero byte are rewritten to one value |
| Json.TransformInjective | ledger/src/json.rs:30-77 | on such values the rewriting is injective, `vk` pairs included |
| Json.IdempotentIff | ledger/src/json.rs:23-77 | a second rewriting changes nothing exactly when there is no `vk` pair of two non-empty byte arrays |
| Json.SecondPassRewritesVk | ledger/src/json.rs:53-74 | a `vk` pair of byte arrays that a second rewriting changes |
| Json.ArrayRewritten | ledger/src/json.rs:33-51 | a non-empty array of bytes becomes their hex after 0x; any other keeps its places, each rewritten |
| Json.VkPairRewritten | ledger/src/json.rs:53-74 | of a `vk` pair of number arrays the first is rewritten if it holds bytes and the second stays as it is |
| Json.OtherFieldsRewritten | ledger/src/json.rs:53-74 | every other field is rewritten on its own, and no field comes or goes |
| Json.NumbersFixed | ledger/src/json.rs:33-51 | an empty array, or one with a number that is not a byte, is left alone |
| Hex.DecodeEncode | pallets/cnight-observation/src/config.rs:36 | decoding inverts hex encoding |
| Hex.EncodeDecode | pallets/cnight-observation/src/config.rs:63 | encoding inverts decoding exactly on lower-case strings of even length |
| Hex.EncodeAt | pallets/cnight-observation/src/config.rs:36 | each byte is written in its place, high digit first, in lower case |
| Hex.DecodesIff | pallets/cnight-observation/src/config.rs:63 | a string decodes exactly when it has an even number of digits of either case |
| Hex.DecodeAt | pallets/cnight-observation/src/config.rs:63 | each pair of digits gives its byte, the first digit highest |
| GenesisMaps.Serialize | pallets/cnight-observation/src/config.rs:27-40 | writes each pair once under the hex of its key, in ascending order of the keys |
| GenesisMaps.Deserialize | pallets/cnight-observation/src/config.rs:57-70 | builds the map of the entries in order, or returns the error of the first bad key |
| GenesisMaps.ReadSucceedsIff | pallets/cnight-observation/src/config.rs:62-68 | reading succeeds exactly when every key is hex of the right width |
| GenesisMaps.KeyReadsIff | pallets/cnight-observation/src/config.rs:62-68 | a key reads exactly when it has two digits of either case for each byte of the width |
| GenesisMaps.LastEntryWins | pallets/cnight-observation/src/config.rs:57-70 | each key holds the value of the last entry that reads as it, and there are no other keys |
| GenesisMaps.ReadWritten | pallets/cnight-observation/src/config.rs:23-75 | reading back what was written, in any order, is the original map |
| GenesisMaps.SaveAndLoad | pallets/cnight-observation/src/config.rs:77-129 | serialising and deserialising is the identity on every map with keys of the width |
| Base64Url.EncodeSegmentIsUrl | local-environment/src/lib/portForwardWatchdog.ts:90-96 | the replacements and stripping compute unpadded base64url, whose characters exclude the dot |
| Base64Url.SegmentSpells | local-environment/src/lib/portForwardWatchdog.ts:90-96 | the letters of a segment stand for 6 bits each and spell, from the top, the 24 bits of every three bytes, a short last group filled up with zero bits |
| Base64Url.DecodeUrlInverts | local-environment/src/lib/portForwardWatchdog.ts:90-96 | a decoder inverts it |
| Base64Url.EncodeSegmentInjective | local-environment/src/lib/portForwardWatchdog.ts:90-96 | different texts have different segments |
| PidFiles.ParseInvertsName | local-environment/src/lib/portForwardWatchdog.ts:98-159 | parsing a built name returns its segments and port, for every namespace, pod and port below 2^53 |
| PidFiles.NamesAreDistinct | local-environment/src/lib/portForwardWatchdog.ts:98-103 | different watchdogs have different file names, for every port and whatever number parsing does |
| PidFiles.DecimalSpells | local-environment/src/lib/portForwardWatchdog.ts:98-103 | a port is written as the decimal digits that spell it, without a leading zero |
| PidFiles.RecognisedIff | local-environment/src/lib/portForwardWatchdog.ts:131-159 | a name is recognised exactly when it has the prefix, three dot-free parts of which the last is a number, and the suffix; these parts are returned |
| PidFiles.ListPidFiles | local-environment/src/lib/portForwardWatchdog.ts:105-129 | lists, in order, the names that parse and pass the filter; nothing if the directory cannot be read |
| PidFiles.FilterSelectsNamespace | local-environment/src/lib/portForwardWatchdog.ts:114-124 | a non-empty namespace selects exactly its own built names; an empty or missing one selects all |
| SessionManager.NoRunPanics | runtime/src/session_manager.rs:58-97 | in every run installed epochs have no gap and no repetition and the active committee is never ahead of the epoch, behind a guard that keeps the rotation from panicking |
| SessionManager.RotatesWhenDue | runtime/src/session_manager.rs:58-97 | a block start with a later epoch and a next committee rotates to exactly that committee, and any other changes nothing |
| SessionManager.NextCommitteeIsInstalled | runtime/src/session_manager.rs:58-97 | once a committee is set and its epoch has come, any run with a block start installs it as the very next one |

## Left out

- Ledger, zero-knowledge, signature, hash and Merkle libraries: passed in as functions.
- The byte formats of SCALE, CBOR and bech32, and the parsing of registration datums: the model starts from decoded data.
- What makes a row decode: a row of the database is modelled by what it decodes to, or by its query and header if it does not.
- The follower's gRPC source and the database itself: the queries are modelled by what ordering with a limit promises.
- ObservationWindow.WindowIsCompleteIff: the headers of decodable rows are distinct, as the order of UTXOs assumes (a registration stands at a script address without a delegation part, where no create decodes), and transaction indices stay below 2^32 - 1.
- PidFiles.ParseInvertsName: texts are their UTF-8 bytes, so ill-formed strings that JavaScript would replace are not distinguished; number parsing is passed in and assumed right on the decimal digits of integers below 2^53.
- EndToEnd.NothingLostIff: the tip and the database are inputs of each block; the database holds one history throughout, so roll-backs of Cardano are not modelled.
- Progress.RefusedForGood: for capacities below 2^24, where the 32-bit count of UTXOs cannot wrap, and for databases in which every row decodes.
- SessionManager.NoRunPanics: the committee pallet is not part of this model; it is assumed to set a next committee once, for the epoch after the active one.
- Beefy.RelayRootIsCommitment: assumes that the runtime's and the relay's tree libraries compute one root from equal leaf hashes.
- Weights, log lines, the setters of addresses and policy ids, and the block-window warning: single assignments or no effect on state.
- `next_beefy_stakes` and `on_new_validator_set` in the runtime: storage writes around the modelled functions that would only add easy members.
- The motions of `pallets/federated-authority`, node service, RPC, command line, metrics, transaction pool, UI and scripts.
