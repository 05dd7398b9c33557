# Verified model of the voxel engine's authoritative data path

This project models the part of the engine that decides what the voxel world is, and proves what that part promises.

- **Storage and wire format.** `PaletteStorage` is the copy-on-write section storage (Uniform, Palette, Raw); it is
  proved to be a plain array of 4096 cells. `SectionCodec` is its byte format and `SectionFormat` reads those bytes
  back one by one and says exactly which envelopes are accepted; `ModificationLayer` is the layer that dispatches full
  and delta envelopes to receivers, `SectionSlots` the four presence states.
- **Transactions.** `Protocol` states one step of the receipt ledger, prepare, commit, durability acknowledgement and
  unload as functions. `ReceiptLedger`, `MutationStaging`, `SectionPages`, `SectionDelta`, `Transactions`,
  `PublicationAuthority` and `Barriers` are the same steps as the source takes them, on objects with loops, each proved
  equal to its function. `PublicationLog`
  proves what any chain of published roots does to a section, a revision and the dirty frontier. `Runs` proves that
  every interleaving of steps, refusals included, produces such a chain, and draws the conclusions: serial replay,
  nothing lost before it is durable, at most one publication per transaction; `PublishedReads` says which write a cell
  reads after a run. `PrepareOutcomes`, `RunOutcomes` and `LedgerOutcomes` say exactly when prepare, commit and the
  ledger succeed and what each refusal says, `Durability` which acknowledgements are applied and when a section may
  leave; `PinnedRuns` adds region pins.
- **Printers and parsers.** `Canonical` and `CanonicalParser` (the canonical object text), `Keys`, `Fingerprint` and
  `Manifest`, over `Text` and `Bytes`. Each printer and parser is proved to be an exact inverse pair.
  `CanonicalSpelling`, `FingerprintText` and `ManifestOutcomes` say what the texts look like and which are accepted.
- **Derived views.** `RegionPins`, `RegionPinManager` and `RegionExpansion`, `RevisionPins`, `Binding` with
  `BindingLifecycle`, `BlockRead`.

`Wrappers`, `Collections` and `Blocks` hold what the others share. Check everything with `dafny verify dfyconfig.toml`.

How the source's notions appear:

- A digest is represented by what it is taken over. A request stands for its fingerprint (`Fingerprint` proves the
  preimage injective), and a published root, with the replacement folded into it, stands for its identity.
- A `BTreeMap` is a map; where its order can be seen, the keys are visited in `Text.SortedNames` order.
- Unsigned 64-bit counters are bounded and their checked additions refuse; sizes are unbounded where the source only
  compares them.
- Commit, acknowledgement and unload are one atomic step each, as the world's write occupancy makes them.
- Whether a revision pin is free when a root is sealed is a parameter of each publishing step; `RevisionPins` says
  when one is.

Where the code does not keep a simple promise, the exact condition is proved instead:

- A section revision does not move by one "if and only if the section is named". A section without a revision of its
  own follows the world revision, so every publication moves it. `PublicationLog.RevisionStep` says exactly when a
  revision moves, `RunOutcomes.UnnamedSectionCanMove` is a run in which an unnamed one does.
- A commit of a completed transaction returns the stored receipt, but the original evidence if and only if the token is
  a replay token (`RunOutcomes.RepeatReturnsTheReceipt`); `RunOutcomes.OlderTokenAnswersItsBase` is a run with another.
- A binding transaction is published if and only if its base is the live cut as represented and it can commit
  (`Binding.BindingPublication.Publish`); equal cells are not enough (`Binding.RestoredCellsRefuse`).
- Delta dispatch makes a receiver converge if and only if it is at an older revision and, when the stored delta is the
  answer, agrees with the delta's base outside the cells it writes (`ModificationLayer.ConvergenceIsExact`). Increasing
  revisions are one way to have that (`DispatchConverges`), a revision set twice one way to miss it
  (`RepeatedRevisionDiverges`).

## Model

| member | source | states |
|---|---|---|
| Runs.RunsReplaySerially | crates/lumio-voxel-ops/src/mutation/commit.rs:41-113 | Over any interleaving of prepare (also from stale views), commit, abort, ack and unload, each section holds the initial cells with every published edit applied in publication order (or was unloaded); the world revision counts the publications, and a section revision the publications naming it |
| Runs.RunsLoseNothing | crates/lumio-voxel-domain/src/section/dirty.rs:217-322 | In every reachable root a section is dirty exactly while a published edit of it is not covered by a later applied acknowledgement; it is then Ready, its latest dirty revision is its revision, and it reads every published edit |
| Runs.RunsApplyOnce | crates/lumio-voxel-ops/src/mutation/receipt_ledger.rs:141-283 | No two publications of a run share a transaction; a transaction has a receipt exactly when it was published, naming the roots immediately before and after; the ledger never outgrows its bound |
| Runs.ReceiptsAreForever | crates/lumio-voxel-ops/src/mutation/receipt_ledger.rs:236-283 | Whatever runs afterwards, a recorded receipt stays and stays the same |
| PublishedReads.LastPublishedWriteIsRead | crates/lumio-voxel-ops/src/mutation/prepare.rs:135-173 | Over any run a voxel section that is never unloaded reads in each cell the block of the last entry of the last published batch that names the cell, or the first root's block |
| RunOutcomes.RepeatReturnsTheReceipt | crates/lumio-voxel-ops/src/mutation/commit.rs:46-60 | Over any run, committing any token of a completed transaction returns the stored receipt and leaves root and ledger alone; the original evidence comes with it if and only if the token is a replay token |
| RunOutcomes.OlderTokenAnswersItsBase | crates/lumio-voxel-ops/src/mutation/commit.rs:141-161 | A run in which a token prepared before its transaction completed answers with its own base as evidence |
| RunOutcomes.ReceiptRootsDiffer | crates/lumio-voxel-ops/src/mutation/prepare.rs:114-117 | The two roots of a stored receipt are one world revision apart |
| RunOutcomes.ConflictsAreExact | crates/lumio-voxel-ops/src/mutation/receipt_ledger.rs:309-322 | Over any run, an admissible request is a conflict exactly when its transaction is known with a different request |
| RunOutcomes.CommitSucceedsExactlyOnItsBase | crates/lumio-voxel-ops/src/mutation/commit.rs:115-139 | Over any run, a token of an in-flight transaction publishes if and only if the live root is its base and a token id and a pin are left; otherwise root and ledger stay |
| RunOutcomes.CommitRefusals | crates/lumio-voxel-ops/src/mutation/commit.rs:115-139 | Over any run, which refusal a token of an in-flight transaction gets, in the order of the source, and when a token id is used up |
| RunOutcomes.UnknownTokenIsRefused | crates/lumio-voxel-ops/src/mutation/commit.rs:46-60 | A token of an unknown transaction is an invalid handle, one of a transaction known with another request a conflict; nothing changes |
| RunOutcomes.RunKeepsCanonical | crates/lumio-voxel-ops/src/mutation/commit.rs:198-232 | A stamp that starts with canonical section keys keeps them over any run |
| Runs.CommitPublishes | crates/lumio-voxel-ops/src/mutation/commit.rs:61-112 | A commit that publishes replaces the root by one publication of the staged batch and records exactly its receipt and evidence |
| Runs.StagedRootIsPublish | crates/lumio-voxel-ops/src/mutation/commit.rs:177-232 | Staging from the live root laid over it changes the named sections, their revisions and the world revision, and nothing else |
| Runs.PrepareKeeps | crates/lumio-voxel-ops/src/mutation/prepare.rs:21-71 | Prepare completes no transaction; a fresh token carries what staging its base gives, a replay token what the ledger has stored |
| Runs.FailedPrepareReservesNothing | crates/lumio-voxel-ops/src/mutation/prepare.rs:61-70 | A refused prepare leaves the ledger entries as they were |
| PrepareOutcomes.PrepareIsExact | crates/lumio-voxel-ops/src/mutation/prepare.rs:21-71 | A request of an unknown transaction is prepared if and only if world and generation match, it has at most 65536 entries with section keys, every expected revision is the one read, every named section is Ready with voxel cells and has a next revision, the world has one, and the ledger has room; it is then reserved with a fresh token, and a refusal leaves the entries |
| PrepareOutcomes.PrepareRefusals | crates/lumio-voxel-ops/src/mutation/preconditions.rs:133-206 | Which refusal a new request gets: each condition in the order of the source, the first bad key, and the first section in key order that cannot be staged |
| PrepareOutcomes.CompletedRequestIsReplayed | crates/lumio-voxel-ops/src/mutation/prepare.rs:29-56 | Over any run, a completed request prepared again from any view of its world and generation gets a replay token with the stored receipt, its own evidence and nothing staged; the ledger stays |
| PrepareOutcomes.KnownRequestIsRefused | crates/lumio-voxel-ops/src/mutation/preconditions.rs:133-160 | Over any run, a request in flight, or known with other entries, is not prepared |
| Runs.AckIsAcknowledgement | crates/lumio-voxel-world/src/world/durability_ack.rs:74-118 | An applied acknowledgement only removes dirty entries whose latest revision its bounds reach; anything else leaves the root alone |
| Runs.UnloadIsUnload | crates/lumio-voxel-world/src/world/residency.rs:708-821 | An unload that publishes turns one clean, Ready, exempted section Unchanged; anything else leaves the root alone |
| Runs.StepKeeps | crates/lumio-voxel-ops/src/mutation/commit.rs:41-113 | Every action keeps ledger entries, outstanding tokens, receipts and the chain of published roots consistent |
| PublicationLog.SerialReplay | crates/lumio-voxel-ops/src/mutation/prepare.rs:135-173 | Along any chain of publications, acknowledgements and unloads, the slot of a section is the initial one with its published edits replayed; sections that were not Ready are never touched |
| PublicationLog.DirectoryKeysStay | crates/lumio-voxel-ops/src/mutation/commit.rs:177-196 | No event adds or drops a directory entry |
| PublicationLog.WorldRevisionCountsPublications | crates/lumio-voxel-ops/src/mutation/prepare.rs:114-117 | The world revision grows by one per publication and by nothing else |
| PublicationLog.RevisionStep | crates/lumio-voxel-ops/src/mutation/commit.rs:198-232 | The revision read for a section moves exactly when the event publishes and names it or it has no revision of its own, and then by one |
| PublicationLog.SectionRevisionCountsNaming | crates/lumio-voxel-ops/src/mutation/commit.rs:198-232 | Own revisions grew by the number of publications naming the section; without one the section follows the world revision until first named |
| RunOutcomes.UnnamedSectionCanMove | crates/lumio-voxel-ops/src/mutation/commit.rs:207-213 | Counterexample run to "by one if and only if named": an empty batch moves what is read for a section without its own revision |
| PublicationLog.RevisionsStayBelowWorld | crates/lumio-voxel-ops/src/mutation/commit.rs:198-232 | No section revision runs ahead of the world revision |
| PublicationLog.DirtyStaysCurrent | crates/lumio-voxel-domain/src/section/dirty.rs:217-254 | Every dirty section is Ready and its latest dirty revision equals its stamp revision |
| PublicationLog.NoEditIsLost | crates/lumio-voxel-domain/src/section/dirty.rs:272-322 | A section is dirty exactly while a published edit is outstanding; then it was never unloaded and reads all published edits |
| PublicationLog.DirtyRangeIsExact | crates/lumio-voxel-domain/src/section/dirty.rs:217-254 | The entry of a dirty section runs from the least to the greatest revision of its outstanding publications, both attained |
| Durability.CoverageIsExact | crates/lumio-voxel-domain/src/section/dirty.rs:272-312 | A receipt of the frontier's world and generation is accepted exactly when it names section keys once each and no bound is below what is dirty; it covers exactly the dirty sections it names |
| Durability.BoundsAreExact | crates/lumio-voxel-domain/src/section/dirty.rs:285-293 | The declared bounds are read exactly when the keys are section keys without repeats |
| Durability.DirtySpansOutstanding | crates/lumio-voxel-domain/src/section/dirty.rs:217-254 | The same over any run |
| Durability.AcknowledgesExactly | crates/lumio-voxel-world/src/world/durability_ack.rs:74-149 | Over any run an acknowledgement is applied if and only if kind, world, context and generation match, it covers no later world revision, its keys are distinct section keys, no bound is below what is dirty, and, if it names something dirty, a token id and a pin are left; it returns how many dirty sections it names and clears exactly those |
| Durability.AckRefusals | crates/lumio-voxel-world/src/world/durability_ack.rs:127-149 | Which refusal an acknowledgement gets, in the order of the source |
| Durability.RunUsesTokens | crates/lumio-voxel-domain/src/publication/authority.rs:67-100 | Over any run, every publication, acknowledgement and unload that replaced the root used a token id of its own |
| Durability.UnloadNeedsDurability | crates/lumio-voxel-world/src/world/residency.rs:708-821 | Over any run an unload publishes exactly when the section is Ready, none of its published edits is outstanding, the policy exempts it, and a token id and a pin are left |
| Durability.UnloadRefusals | crates/lumio-voxel-world/src/world/residency.rs:708-821 | Over any run, which refusal an unload gets, in the order of the source |
| Durability.StampStaysOwn | crates/lumio-voxel-domain/src/publication/authority.rs:184-200 | The live root always carries the stamp of its authority |
| SectionSlots.ReadyOnlyThroughPending | crates/lumio-voxel-domain/src/section/slot.rs:68-102 | Whatever conversions are attempted, an absent section becomes Ready only by way of Pending |
| SectionSlots.ConversionIsExact | crates/lumio-voxel-domain/src/section/slot.rs:68-102 | Exactly which conversions succeed, and that they reach the presence asked for with the payload given |
| SectionSlots.EventsConvertLegally | crates/lumio-voxel-domain/src/section/slot.rs:68-102 | Every published event changes each slot by a conversion the slot allows |
| PinnedRuns.PinnedSectionsStayReady | crates/lumio-voxel-world/src/world/residency.rs:742-753 | Once a pin is attached and Ready with its sections Ready in the live cut, no action but its release or another attachment makes one of them anything but Ready, so the read gate passes |
| PinnedRuns.StepKeepsHold | crates/lumio-voxel-world/src/world/residency.rs:421-431 | One step other than releasing the pin or attaching another manager keeps what it holds |
| PinnedRuns.MarkedFromWorldHolds | crates/lumio-voxel-world/src/world/residency.rs:388-406 | Marking a declared pin from the world makes it hold its sections exactly when all of them are Ready in the live cut |
| PinnedRuns.PinsGuardUnloads | crates/lumio-voxel-world/src/world/residency.rs:708-821 | Over any run of a world an unload goes through exactly when the section is Ready with nothing outstanding, the caller exempts it, no unreleased pin covers it, and a token id and a pin are left; a clean Ready section under a pin is refused by name |
| PinnedRuns.DeclaredPinHolds | crates/lumio-voxel-world/src/world/residency.rs:437-444 | A declared pin keeps its sections from leaving whether it is ready or not |
| PinnedRuns.LastReleaseFreesTheSection | crates/lumio-voxel-world/src/world/residency.rs:421-431 | Over any run, a clean Ready section under one last pin is kept by it and can be unloaded as soon as the pin is released |
| ReceiptLedgers.ReceiptLedger.Lookup | crates/lumio-voxel-ops/src/mutation/receipt_ledger.rs:141-153 | The ledger object answers Vacant, InFlight or Duplicate as the value model does, errors included |
| ReceiptLedgers.ReceiptLedger.Reserve | crates/lumio-voxel-ops/src/mutation/receipt_ledger.rs:169-194 | Reserving reuses an entry, refuses when full, and binds the ledger to its first world and generation |
| ReceiptLedgers.ReceiptLedger.FinalizeAfterPublish | crates/lumio-voxel-ops/src/mutation/receipt_ledger.rs:236-250 | The first receipt wins and is returned |
| ReceiptLedgers.ReceiptLedger.RecordEvidenceAfterPublish | crates/lumio-voxel-ops/src/mutation/receipt_ledger.rs:252-264 | Evidence is stored once, only beside a receipt |
| ReceiptLedgers.ReceiptLedger.Abort | crates/lumio-voxel-ops/src/mutation/receipt_ledger.rs:267-278 | Only an in-flight entry of a matching request is released |
| ReceiptLedgers.ReceiptLedger.AbortInFlight | crates/lumio-voxel-ops/src/mutation/receipt_ledger.rs:281-283 | Every in-flight entry goes, every completed one stays |
| ReceiptLedgers.ReceiptLedger.Status | crates/lumio-voxel-ops/src/mutation/receipt_ledger.rs:158-167 | Status tells unknown, prepared and applied apart by transaction id |
| LedgerOutcomes.AdmissionIsExact | crates/lumio-voxel-ops/src/mutation/receipt_ledger.rs:292-307 | Over any run, a ledger that knows a transaction admits exactly the named requests of its world and generation, each refusal by name |
| LedgerOutcomes.FirstReservationBinds | crates/lumio-voxel-ops/src/mutation/receipt_ledger.rs:324-331 | An unbound ledger admits every named request and is bound by its first reservation |
| LedgerOutcomes.BindingIsForever | crates/lumio-voxel-ops/src/mutation/receipt_ledger.rs:324-331 | Whatever runs afterwards, the binding and the entry limit stay |
| LedgerOutcomes.LookupIsExact | crates/lumio-voxel-ops/src/mutation/receipt_ledger.rs:141-153 | Over any run, an admitted request is new, in flight, completed with the stored receipt, or a conflict, exactly as the ledger knows it |
| LedgerOutcomes.ReserveIsExact | crates/lumio-voxel-ops/src/mutation/receipt_ledger.rs:169-194 | Over any run, an admitted request is reserved exactly when it is known or new with room; only a new one changes the ledger, by one in-flight entry and one count |
| LedgerOutcomes.AbortIsExact | crates/lumio-voxel-ops/src/mutation/receipt_ledger.rs:267-278 | Over any run, aborting an admitted request is refused exactly in a conflict and takes out exactly its own in-flight entry, which makes the transaction new again |
| LedgerOutcomes.AbortInFlightIsExact | crates/lumio-voxel-ops/src/mutation/receipt_ledger.rs:281-283 | Exactly the entries without a receipt go: those transactions are new again, completed ones answer as before |
| MutationStaging.BuildPlan | crates/lumio-voxel-ops/src/mutation/plan.rs:43-65 | The plan groups the edits by section in submission order; a bad batch has no plan, with the first error |
| MutationStaging.LastEditWins | crates/lumio-voxel-ops/src/mutation/prepare.rs:145-151 | Replaying a batch leaves in each cell what its last edit wrote |
| MutationStaging.LastEntryOfBatchWins | crates/lumio-voxel-ops/src/mutation/prepare.rs:145-151 | A batch leaves in each cell of a section what the last entry for that cell wrote |
| MutationStaging.PayloadForEntries | crates/lumio-voxel-ops/src/mutation/prepare.rs:135-159 | Writing only the last edit of each cell, in submission order, gives the section that writing every edit gives; each edited cell is touched once |
| MutationStaging.CollapseMeansReplay | crates/lumio-voxel-ops/src/mutation/prepare.rs:145-158 | The collapsed writes mean the whole batch |
| Transactions.CheckPlanAgainstRoot | crates/lumio-voxel-ops/src/mutation/preconditions.rs:162-206 | Every expected revision is compared before any presence |
| Transactions.CheckMutation | crates/lumio-voxel-ops/src/mutation/preconditions.rs:133-206 | The precondition check of a request against a captured root and the ledger |
| Transactions.StageSection | crates/lumio-voxel-ops/src/mutation/prepare.rs:135-173 | One section is staged on its own copy: edits written, copy encoded, the page sealed beside it; refused exactly as PrepareOutcomes says, and the seal never refuses |
| Transactions.StageSections | crates/lumio-voxel-ops/src/mutation/prepare.rs:73-96 | The sections of a batch go one by one through the private builder, whose own refusals never fire |
| SectionDelta.SectionDeltaBuilder.Stage | crates/lumio-voxel-domain/src/section/delta.rs:64-78 | A section is staged exactly if its key is canonical, its cell names are present and distinct, and it was not staged before |
| SectionDelta.SectionDeltaBuilder.Freeze | crates/lumio-voxel-domain/src/section/delta.rs:80-91 | Freezing succeeds exactly if the bound root allows every staged slot |
| SectionPages.SidecarIsExact | crates/lumio-voxel-domain/src/section/payload.rs:119-147 | Pages are accepted beside a storage exactly when they are the one dense page of its canonical payload |
| SectionPages.PagesAreSealed | crates/lumio-voxel-domain/src/section/payload.rs:56-76 | Without a sidecar a list of pages is accepted exactly when each is dense, uncompressed and under the digest of its own bytes, and keeps its order |
| SectionPages.FirstBadPageDecides | crates/lumio-voxel-domain/src/section/payload.rs:56-76 | The first page that cannot be sealed decides the refusal |
| SectionPages.SidecarDeterminesCells | crates/lumio-voxel-domain/src/section/payload.rs:128-135 | One page fits the storages of at most one content |
| SectionPages.StagedPageIsAccepted | crates/lumio-voxel-ops/src/mutation/prepare.rs:160-171 | The page taken from the full envelope of any valid storage is accepted beside it |
| SectionPages.FromPagesWithStorage | crates/lumio-voxel-domain/src/section/payload.rs:119-147 | The sealing loop and the sidecar comparison compute the specified pages or refusal |
| Transactions.RecordSections | crates/lumio-voxel-ops/src/mutation/prepare.rs:97-112 | Each named section is marked dirty at its next revision |
| Transactions.SealPrivate | crates/lumio-voxel-ops/src/mutation/prepare.rs:73-133 | Private staging of a whole batch |
| Transactions.Prepare | crates/lumio-voxel-ops/src/mutation/prepare.rs:21-71 | Prepare on the ledger object computes the protocol step whose outcome PrepareOutcomes makes exact: validate, reserve, stage, give the reservation back on refusal |
| Publication.PublicationAuthority.Prepare | crates/lumio-voxel-domain/src/publication/authority.rs:67-100 | Binding succeeds exactly for a stamp of this authority and an unexhausted token counter, and takes the live root as base |
| Publication.PublicationAuthority.PublishOnce | crates/lumio-voxel-domain/src/publication/authority.rs:102-129 | A token is published if and only if it is of this authority and its base is still the live root |
| Barriers.OverlayDirectory | crates/lumio-voxel-ops/src/mutation/commit.rs:177-196 | Replaced slots are laid over the directory, every other slot kept |
| Barriers.BuildStamp | crates/lumio-voxel-ops/src/mutation/commit.rs:198-232 | Next revisions for the union of stamped and named sections |
| Barriers.Commit | crates/lumio-voxel-ops/src/mutation/commit.rs:41-113 | Commit on the live ledger and authority objects, replay first |
| Barriers.Coverage | crates/lumio-voxel-domain/src/section/dirty.rs:272-312 | The covered sections of a receipt, or the first reason to refuse it |
| Barriers.ApplyDurabilityAck | crates/lumio-voxel-world/src/world/durability_ack.rs:74-118 | An acknowledgement on the live authority computes the protocol step that Durability.AcknowledgesExactly characterises, publishing at most once |
| Barriers.UnloadSection | crates/lumio-voxel-world/src/world/residency.rs:708-821 | An unload on the live authority |
| Canonical.DecodeIsExact | crates/lumio-voxel-ops/src/canonical.rs:239-268 | Decoding accepts a text as an object if and only if it is that object's encoding |
| Canonical.EncodeIsInjective | crates/lumio-voxel-ops/src/canonical.rs:174-186 | Equal encodings mean equal objects |
| Canonical.ReorderedMembersAreRejected | crates/lumio-voxel-ops/src/canonical.rs:239-245 | Members out of order are parsed but never accepted |
| CanonicalSpelling.RepeatedMembersAreNamed | crates/lumio-voxel-ops/src/canonical.rs:287-309 | Members listed with a repeated name, in any order, are refused as a duplicate |
| Canonical.ParseQuoted | crates/lumio-voxel-ops/src/canonical.rs:217-230 | Reading back a quoted string gives the string, whatever follows |
| Canonical.ParseAnyOrder | crates/lumio-voxel-ops/src/canonical.rs:287-309 | The parser reads distinct members in any order |
| Canonical.CanonicalObject.Insert | crates/lumio-voxel-ops/src/canonical.rs:116-131 | A member is added once; a second one of the same name is refused without a change |
| Canonical.CanonicalObject.EncodeText | crates/lumio-voxel-ops/src/canonical.rs:174-186 | The emitted text is the canonical encoding, whose spelling CanonicalSpelling gives |
| Canonical.PushQuoted | crates/lumio-voxel-ops/src/canonical.rs:217-230 | The escaping loop emits the canonical quotation, the minimal one by CanonicalSpelling.CanonicalSpellingIsMinimal |
| CanonicalSpelling.PlainTextIsItself | crates/lumio-voxel-ops/src/canonical.rs:217-230 | A text without quotes, backslashes and control characters is quoted as itself |
| CanonicalSpelling.SpecialCharacters | crates/lumio-voxel-ops/src/canonical.rs:217-230 | A quote or backslash gets a backslash, a control character is \u00 and two lower-case digits |
| CanonicalSpelling.CanonicalSpellingIsMinimal | crates/lumio-voxel-ops/src/canonical.rs:213-230 | No text the parser reads as the string is shorter, and one that is no longer differs at most in the case of hexadecimal letters |
| CanonicalSpelling.StringGrammarIsExact | crates/lumio-voxel-ops/src/canonical.rs:356-416 | A text is read as a string if and only if it is a spelling of it in quotes: characters themselves, two escapes, or four digits that are no surrogate |
| CanonicalSpelling.NumberGrammarIsExact | crates/lumio-voxel-ops/src/canonical.rs:341-354 | A text is read as a number if and only if it starts with the shortest decimal of it and goes on without a digit |
| CanonicalSpelling.ObjectsAreListed | crates/lumio-voxel-ops/src/canonical.rs:174-186 | An object is its members in braces, comma-separated, each name once with a colon and its value, names ascending in code-point order |
| CanonicalSpelling.ValuesAreWritten | crates/lumio-voxel-ops/src/canonical.rs:194-211 | A value is a quoted text, the shortest decimal of a number, or quoted items in brackets |
| Text.BeforeIsLexicographic | crates/lumio-voxel-ops/src/canonical.rs:174-186 | The member order: a proper prefix first, else the first different character decides |
| CanonicalParser.Parser.ReadString | crates/lumio-voxel-ops/src/canonical.rs:356-387 | The cursor loop reads a string as the grammar does and only moves forward |
| CanonicalParser.Parser.ReadUint | crates/lumio-voxel-ops/src/canonical.rs:341-354 | A number is read as the grammar does: no leading zero, no overflow |
| CanonicalParser.Parser.ReadObject | crates/lumio-voxel-ops/src/canonical.rs:287-309 | The member loop reads an object as the grammar does; duplicates are refused |
| CanonicalParser.DecodeText | crates/lumio-voxel-ops/src/canonical.rs:239-245 | The parser object accepts exactly the canonical texts |
| PaletteStorage.SectionStorage.Write | crates/lumio-voxel-domain/src/section/block_storage.rs:175-216 | One cell changes and no other; the storage turns Raw exactly when it must and never turns Uniform again |
| PaletteStorage.WritePalette | crates/lumio-voxel-domain/src/section/block_storage.rs:259-300 | A palette write changes one cell, keeps entries distinct and indices in range, and escalates if and only if more than 256 identities result |
| PaletteStorage.DeadSlotReuse | crates/lumio-voxel-domain/src/section/block_storage.rs:276-290 | Overwriting a slot no other cell uses changes the written cell only |
| PaletteStorage.EscalationIsUnavoidable | crates/lumio-voxel-domain/src/section/block_storage.rs:292-299 | When every slot is in use elsewhere the write needs one identity too many |
| PaletteStorage.RawExactlyWhenUnavoidable | crates/lumio-voxel-domain/src/section/block_storage.rs:104-112 | A valid storage is Raw exactly when it holds more than 256 identities |
| PaletteStorage.LiveSlotsExcluding | crates/lumio-voxel-domain/src/section/block_storage.rs:302-312 | The scan marks exactly the slots other cells use |
| PaletteStorage.PaletteOrUniform | crates/lumio-voxel-domain/src/section/block_storage.rs:326-348 | The canonical small form, refused exactly when more than 256 identities are present |
| PaletteStorage.CanonicalEncoding | crates/lumio-voxel-domain/src/section/block_storage.rs:318-324 | The encoding of the canonical form is decided by the number of distinct blocks alone |
| PaletteStorage.OptimalState | crates/lumio-voxel-domain/src/section/block_storage.rs:318-324 | The canonical form is valid and keeps the cells |
| PaletteStorage.RawNeverTurnsUniform | crates/lumio-voxel-domain/src/section/block_storage.rs:175-216 | A write to a Raw storage never leaves a uniform one |
| PaletteStorage.SectionStorage.Compacted | crates/lumio-voxel-domain/src/section/block_storage.rs:228-233 | Compaction keeps the cells and gives the canonical form |
| PaletteStorage.SectionStorage.FromCells | crates/lumio-voxel-domain/src/section/block_storage.rs:92-101 | Building from cells gives the canonical form of those cells |
| SectionCodec.PayloadCharacterisesContent | crates/lumio-voxel-domain/src/section/block_storage.rs:139-160 | Two payloads are equal if and only if the cells are equal, without an encoding tag |
| SectionCodec.PayloadEncoding | crates/lumio-voxel-domain/src/section/block_payload.rs:44-53 | The encoding follows from the cells, and the three payload length ranges do not meet |
| SectionCodec.DecodeOwnPayload | crates/lumio-voxel-domain/src/section/block_payload.rs:230-244 | Every canonical payload decodes to its cells |
| SectionCodec.FullRoundTrip | crates/lumio-voxel-domain/src/section/block_payload.rs:124-179 | A full envelope decodes to its id, revision and cells, without a baseline or over an older one |
| SectionCodec.FullIsStaleUnlessNewer | crates/lumio-voxel-domain/src/section/block_payload.rs:148-152 | A full envelope is refused as stale exactly when the receiver is not at an older revision |
| SectionCodec.CheckedPaletteIsPalette | crates/lumio-voxel-domain/src/section/block_payload.rs:246-292 | A palette that passed the duplicate, range and liveness checks is classified Palette, so the final check never fires |
| SectionCodec.PaletteAcceptance | crates/lumio-voxel-domain/src/section/block_payload.rs:246-292 | Which palette payloads are accepted |
| SectionCodec.RawAcceptance | crates/lumio-voxel-domain/src/section/block_payload.rs:294-309 | A Raw payload is accepted if and only if it holds more than 256 identities |
| SectionCodec.DeltaRoundTrip | crates/lumio-voxel-domain/src/section/block_payload.rs:55-73 | A delta envelope decoded over its base gives the base with the entries applied |
| SectionCodec.EncodedPayload | crates/lumio-voxel-domain/src/section/block_storage.rs:139-160 | The emitted bytes are the canonical payload of the cells |
| SectionCodec.DecodePaletteBytes | crates/lumio-voxel-domain/src/section/block_payload.rs:246-292 | The decoding loops compute the specified palette or refusal |
| SectionFormat.PayloadReadsBack | crates/lumio-voxel-domain/src/section/block_storage.rs:139-160 | The payload byte by byte: four bytes for one block, 16384 for the blocks in turn, else a count, a table and one index per cell, low byte first; each cell reads back |
| SectionFormat.PaletteFollowsCells | crates/lumio-voxel-domain/src/section/block_storage.rs:326-348 | The canonical palette lists blocks in the order of their first cells |
| SectionFormat.DeltaReadsBack | crates/lumio-voxel-domain/src/section/block_payload.rs:55-73 | Entry k of a delta takes six bytes, cell then block, low byte first |
| SectionFormat.BytesApplyExactly | crates/lumio-voxel-domain/src/section/block_payload.rs:311-324 | Whole delta entries apply exactly when every cell offset is in the section |
| SectionFormat.LastEntryWins | crates/lumio-voxel-domain/src/section/block_payload.rs:311-324 | Of several delta entries for a cell the last one wins; other cells keep their block |
| SectionFormat.DecodeIsExact | crates/lumio-voxel-domain/src/section/block_payload.rs:124-179 | Exactly which envelopes a receiver accepts, said of digest, length, key, base, revisions and payload bytes |
| SectionFormat.DecodeRefusals | crates/lumio-voxel-domain/src/section/block_payload.rs:124-179 | Which refusal an envelope gets, in the order of the source |
| SectionFormat.FullBodyRefusals | crates/lumio-voxel-domain/src/section/block_payload.rs:230-309 | Which refusal a full body gets, in the order of the source |
| SectionCodec.ApplyDeltaBytesTo | crates/lumio-voxel-domain/src/section/block_payload.rs:311-324 | Applying delta bytes writes its entries in order |
| SectionCodec.DecodeEnvelope | crates/lumio-voxel-domain/src/section/block_payload.rs:124-179 | Envelope checks in the order of the source |
| ModificationLayer.ConvergenceIsExact | crates/lumio-voxel-domain/src/section/modification_layer.rs:84-114 | For every run and receiver: the answer makes it converge exactly if it is at an older revision and, when the answer is the stored delta, agrees with the delta's base in every cell the delta does not write |
| ModificationLayer.DispatchConverges | crates/lumio-voxel-domain/src/section/modification_layer.rs:84-114 | Along a run with increasing revisions, a receiver of any earlier revision ends with the layer's cells and revision |
| ModificationLayer.AppliedAgree | crates/lumio-voxel-domain/src/section/block_payload.rs:311-324 | Entries lead two sections to the same cells exactly when these agree wherever nothing is written |
| ModificationLayer.FirstDeliveryConverges | crates/lumio-voxel-domain/src/section/modification_layer.rs:84-114 | A receiver with nothing that decodes the answer ends there too |
| ModificationLayer.DispatchIsExact | crates/lumio-voxel-domain/src/section/modification_layer.rs:84-114 | Over every run and delivery state: pending and unavailable are answered in kind, a section not held is Unchanged, any other is Ready at the layer's revision with a delta exactly for a receiver at its base |
| ModificationLayer.LayerHoldsExactly | crates/lumio-voxel-domain/src/section/modification_layer.rs:34-82 | The layer holds a section from a setting until it is marked unchanged |
| ModificationLayer.CurrentReceiverIsRefused | crates/lumio-voxel-domain/src/section/modification_layer.rs:84-114 | A receiver that is not behind the layer gets a full envelope it refuses as stale |
| ModificationLayer.RepeatedRevisionDiverges | crates/lumio-voxel-domain/src/section/modification_layer.rs:34-48 | An instance of the condition failing: a revision set twice, then a delta that writes nothing |
| ModificationLayer.RecordDeltaIsExact | crates/lumio-voxel-domain/src/section/modification_layer.rs:50-78 | When a delta is recorded, what it makes of the section, and that a refusal changes nothing |
| ModificationLayer.SortKeepsLastWrites | crates/lumio-voxel-domain/src/section/modification_layer.rs:61-66 | The stable sort by offset gives the same cells as submission order |
| ModificationLayer.HistoryTracksLayer | crates/lumio-voxel-domain/src/section/modification_layer.rs:34-82 | The layer always holds the last recorded state, and its delta leads there from the one before |
| ModificationLayer.RoomModificationLayer.RecordDelta | crates/lumio-voxel-domain/src/section/modification_layer.rs:50-78 | Recording on the layer object |
| ModificationLayer.RoomModificationLayer.SetReady | crates/lumio-voxel-domain/src/section/modification_layer.rs:34-48 | Setting a section on the layer object |
| ModificationLayer.RoomModificationLayer.MarkUnchanged | crates/lumio-voxel-domain/src/section/modification_layer.rs:80-82 | Forgetting a section on the layer object |
| ModificationLayer.RoomModificationLayer.Dispatch | crates/lumio-voxel-domain/src/section/modification_layer.rs:84-114 | Dispatch on the layer object |
| Keys.ParseSectionIsExact | crates/lumio-voxel-domain/src/key.rs:156-183 | A section key parses to an id if and only if it is that id's key |
| Keys.ParseChunkIsExact | crates/lumio-voxel-domain/src/key.rs:217-238 | The same for chunk keys |
| Keys.ParseDecimalIsExact | crates/lumio-voxel-domain/src/key.rs:286-304 | A coordinate text is accepted exactly in its canonical spelling |
| Keys.SectionKeyIsInjective | crates/lumio-voxel-domain/src/key.rs:181-183 | Different sections have different keys |
| Keys.KeysAreWritten | crates/lumio-voxel-domain/src/key.rs:181-183 | The texts of section and chunk keys |
| Keys.SignedIsWritten | crates/lumio-voxel-domain/src/key.rs:181-183 | A coordinate is its shortest decimal, after a minus sign when negative |
| Keys.LegacyKeyIsRefused | crates/lumio-voxel-domain/src/key.rs:255-261 | The three-coordinate chunk key is never accepted |
| Keys.KeyRefusals | crates/lumio-voxel-domain/src/key.rs:265-283 | Which refusal a section or chunk key gets, said of the segments it joins: retired form, prefix, number of segments, then the first refused segment |
| Keys.CoordRefusals | crates/lumio-voxel-domain/src/key.rs:286-319 | Which refusal a horizontal coordinate gets: empty, out of bounds in its shortest spelling of at most ten digits, or not canonical |
| Keys.LayerRefusals | crates/lumio-voxel-domain/src/key.rs:286-326 | Which refusal a layer gets: empty, not canonical, beyond 64 bits, or no layer of the world |
| Blocks.WorldCellOfAddress | crates/lumio-voxel-domain/src/block.rs:178-216 | Section and offset determine the world cell, negative coordinates included |
| Blocks.AddressOfWorldCell | crates/lumio-voxel-domain/src/block.rs:178-216 | Every address in the domain is the address of its cell |
| Blocks.SectionHoldsItsCells | crates/lumio-voxel-domain/src/block.rs:178-216 | A section is an aligned cube of sixteen blocks each way, on both sides of the origin |
| Blocks.OffsetsAreHeightFirst | crates/lumio-voxel-domain/src/block.rs:178-190 | Offsets inside a section run by height, then z, then x |
| Fingerprint.PreimageIsInjective | crates/lumio-voxel-ops/src/mutation/fingerprint.rs:120-156 | Equal fingerprint preimages mean equal transaction, world, generation and entry list, order included |
| Fingerprint.CanonicalFingerprint | crates/lumio-voxel-ops/src/mutation/fingerprint.rs:120-132 | The builder emits the specified preimage |
| FingerprintText.PreimageIsWritten | crates/lumio-voxel-ops/src/mutation/fingerprint.rs:120-132 | The preimage as a text: five members by name, in order |
| FingerprintText.EntryReadsBack | crates/lumio-voxel-ops/src/mutation/fingerprint.rs:134-146 | The bytes of one entry: key length, key, cell, block and expected revision, each number low byte first |
| FingerprintText.EntriesReadBack | crates/lumio-voxel-ops/src/mutation/fingerprint.rs:134-146 | The entry list: its length, then each entry behind those before it, in request order |
| Bytes.Utf8CharReads | crates/lumio-voxel-ops/src/mutation/fingerprint.rs:134-146 | The UTF-8 bytes of a character spell it, in the shortest way |
| Fingerprint.EncodeEntries | crates/lumio-voxel-ops/src/mutation/fingerprint.rs:134-146 | The framing loop emits the specified entry bytes |
| Manifest.CaptureIsRecovered | crates/lumio-voxel-ops/src/snapshot/restore_preflight.rs:122-222 | Preflight of an encoded capture recovers it if and only if the capture is well formed |
| Manifest.AcceptedBytesAreTheManifest | crates/lumio-voxel-ops/src/snapshot/restore_preflight.rs:122-251 | Accepted bytes are exactly the manifest of the decoded fields |
| ManifestOutcomes.PreflightIsExact | crates/lumio-voxel-ops/src/snapshot/restore_preflight.rs:122-222 | Restore accepts exactly the manifests of well-formed captures of the expected world, generation and configuration, and recovers the capture |
| ManifestOutcomes.MismatchIsNamed | crates/lumio-voxel-ops/src/snapshot/restore_preflight.rs:137-199 | The manifest of another world, generation or configuration is refused by the first that differs |
| ManifestOutcomes.UndecodableIsNamed | crates/lumio-voxel-ops/src/snapshot/restore_preflight.rs:122-135 | What is no text or no object is an invalid handle, a text in another spelling a digest mismatch |
| ManifestOutcomes.ExtraMemberIsNamed | crates/lumio-voxel-ops/src/snapshot/restore_preflight.rs:201-222 | A manifest with one member more is refused: an unknown name as an unsupported version, a revision without a section or a number as an invalid handle |
| Manifest.FixedFieldsAreKept | crates/lumio-voxel-ops/src/snapshot/manifest_adapter.rs:29-73 | The manifest of a capture has each of the ten fixed fields with its value |
| Manifest.CollectIsExact | crates/lumio-voxel-ops/src/snapshot/restore_preflight.rs:201-222 | The revision map is collected exactly from the revision fields, unknown fields refused |
| Manifest.DecodeObjectIsExact | crates/lumio-voxel-ops/src/snapshot/restore_preflight.rs:122-135 | Bytes decode to an object exactly when they are its canonical text |
| Manifest.ManifestObject | crates/lumio-voxel-ops/src/snapshot/manifest_adapter.rs:29-73 | The adapter builds the manifest object |
| Manifest.OfferedBuildManifest | crates/lumio-voxel-ops/src/snapshot/manifest_adapter.rs:29-73 | The offered members are distinct and make up the manifest |
| Manifest.CollectRevisions | crates/lumio-voxel-ops/src/snapshot/restore_preflight.rs:201-222 | The collecting loop computes the specified map or refusal |
| Manifest.ParseHex32 | crates/lumio-voxel-ops/src/snapshot/restore_preflight.rs:240-251 | The digest loop reads exactly 64 lower-case digits |
| RegionPins.BudgetHoldsOverRuns | crates/lumio-voxel-world/src/world/residency.rs:255-314 | Over any run the distinct active sections exceed neither budget |
| RegionPins.DeclareIsExact | crates/lumio-voxel-world/src/world/residency.rs:255-314 | When a declaration is accepted; a rejected one changes nothing |
| RegionPins.DeclareRefusals | crates/lumio-voxel-world/src/world/residency.rs:255-314 | Which refusal a declaration gets: over the limit with everything within it admissible, inadmissible keys, or over budget beside the active sections |
| RegionPins.AdmitIsExact | crates/lumio-voxel-world/src/world/residency.rs:271-281 | A list is admitted exactly when it is made of distinct section keys within the limit |
| RegionPins.AdmitRefusals | crates/lumio-voxel-world/src/world/residency.rs:271-281 | A refused list exceeds the limit exactly when everything within the limit is admissible |
| RegionPins.ReleaseIsExact | crates/lumio-voxel-world/src/world/residency.rs:421-431 | A declared pin is released exactly once; afterwards a section is pinned, counted or gated only by another pin, and no other pin changes |
| RegionPins.MarkReadyIsExact | crates/lumio-voxel-world/src/world/residency.rs:370-380 | A declared pin becomes ready exactly once and before its release; then its sections are readable only as Ready, and what is pinned stays |
| RegionPins.DeclaredIsPinned | crates/lumio-voxel-world/src/world/residency.rs:255-314 | A declaration pins its sections at once beside those pinned before and gates nothing yet |
| RegionPinManagers.RegionPinManager.DeclarePinWithBudget | crates/lumio-voxel-world/src/world/residency.rs:255-314 | Declaring on the manager object |
| RegionPinManagers.RegionPinManager.MarkReady | crates/lumio-voxel-world/src/world/residency.rs:370-380 | The one transition to ready |
| RegionPinManagers.RegionPinManager.MarkReadyFromWorld | crates/lumio-voxel-world/src/world/residency.rs:388-406 | Ready exactly if the pin is declared and every section is Ready in the cut, with the error of each refusal |
| RegionPins.RunPinsSectionKeys | crates/lumio-voxel-world/src/world/residency.rs:271-281 | Only canonical section keys are ever pinned |
| RegionPinManagers.RegionPinManager.ReleasePin | crates/lumio-voxel-world/src/world/residency.rs:421-431 | Release on the manager object, the step RegionPins.ReleaseIsExact characterises |
| RegionPinManagers.RegionPinManager.IsPinned | crates/lumio-voxel-world/src/world/residency.rs:437-444 | Whether an unreleased pin covers the section |
| RegionPinManagers.RegionPinManager.ValidatePresence | crates/lumio-voxel-world/src/world/residency.rs:520-540 | The gate every read passes |
| RegionExpansion.SectionKeysForRegion | crates/lumio-voxel-world/src/world/residency.rs:571-613 | Exactly the sections holding a block of the box, sorted, once each, as many as the span product; refused exactly over budget |
| RegionExpansion.TouchesIsWithin | crates/lumio-voxel-world/src/world/residency.rs:586-591 | A section holds a block of the box exactly when it lies in the span |
| RevisionPins.PinAccounting | crates/lumio-voxel-domain/src/revision/pin.rs:103-179 | Over every run a slot exists exactly while a live handle names it and counts them; live slots fit the bound; the live root keeps its slot |
| RevisionPins.SealingSucceeds | crates/lumio-voxel-domain/src/publication/prepared.rs:52-70 | When sealing succeeds; with a bound of two and no other slot there is always room |
| RevisionPins.SealIsExact | crates/lumio-voxel-domain/src/revision/pin.rs:103-132 | Over an accounted state, sealing adds one slot and handle of its own, or nothing |
| RevisionPins.CloneIsExact | crates/lumio-voxel-domain/src/revision/pin.rs:153-165 | Cloning adds one handle of the same slot |
| RevisionPins.DropIsExact | crates/lumio-voxel-domain/src/revision/pin.rs:169-179 | A slot goes exactly with the last of its handles |
| RevisionPins.PublishIsExact | crates/lumio-voxel-domain/src/publication/authority.rs:102-129 | Publishing a held pin makes its stamp live; the slot before goes exactly when nothing else holds it |
| RevisionPins.PinRegistry.TryPin | crates/lumio-voxel-domain/src/revision/pin.rs:103-132 | Pinning on the registry object |
| RevisionPins.PinRegistry.CloneHandle | crates/lumio-voxel-domain/src/revision/pin.rs:153-165 | Cloning counts one more |
| RevisionPins.PinRegistry.DropHandle | crates/lumio-voxel-domain/src/revision/pin.rs:169-179 | Dropping the last handle removes the slot |
| RevisionPins.PreparedCut.Seal | crates/lumio-voxel-domain/src/publication/prepared.rs:52-70 | A cut is sealed at most once; a refused pin leaves it open |
| Binding.Validate | crates/lumio-voxel-domain/src/binding.rs:343-387 | Validation passes if and only if the references are a bijection from the cells that need an entity onto the registry, every entity alive and of the expected type; each refusal has a witness of its kind |
| Binding.Commit | crates/lumio-voxel-domain/src/binding.rs:587-622 | When a transaction commits and what it makes of cells, references and entities |
| Binding.BindingPublication.Publish | crates/lumio-voxel-domain/src/binding.rs:683-701 | A transaction is published if and only if its base is still the live cut as represented and it can commit; published cuts are well bound and a refusal changes nothing |
| Binding.PlaceKeepsWellBound | crates/lumio-voxel-domain/src/binding.rs:460-486 | Placing a live entity of the expected type under a fresh id keeps the bijection |
| Binding.RemoveKeepsWellBound | crates/lumio-voxel-domain/src/binding.rs:488-506 | Removing block, reference and entity together keeps it |
| Binding.PlacedTransactionIsWellBound | crates/lumio-voxel-domain/src/binding.rs:460-486 | A transaction that only places one such entity passes validation |
| BindingLifecycle.PlaceAndPublish | crates/lumio-voxel-domain/src/binding.rs:460-486 | A binding placed on a live cut and published: the block, its one reference and its entity are there, the replaced entity is gone |
| BindingLifecycle.PlaceTwiceAndPublish | crates/lumio-voxel-domain/src/binding.rs:460-486 | Of two entities placed on a cell in one transaction only the second is published |
| BindingLifecycle.RemoveAndPublish | crates/lumio-voxel-domain/src/binding.rs:488-506 | A binding removed and published: block replaced, reference and entity gone |
| BindingLifecycle.PlaceThenRemove | crates/lumio-voxel-domain/src/binding.rs:460-506 | Placing and then removing brings references and entities back |
| Binding.BlockParts | crates/lumio-voxel-domain/src/block.rs:149-163 | Type and state of a block are its upper 24 and lower 8 bits and determine it |
| Binding.SplitIsExact | crates/lumio-voxel-domain/src/binding.rs:628-640 | A transaction is split exactly when two of its changes carry different commit ids |
| Binding.BindingTransaction.Place | crates/lumio-voxel-domain/src/binding.rs:460-486 | Block, reference and entity are staged together and a replaced entity is retired |
| Binding.BindingTransaction.Remove | crates/lumio-voxel-domain/src/binding.rs:488-506 | Block, reference and entity are retired together |
| Binding.RestoredCellsRefuse | crates/lumio-voxel-domain/src/binding.rs:692-697 | Another block is written to a uniform cut and taken back: with equal cells, references and entities an earlier transaction is refused, and the same changes begun on the live cut are published |
| Binding.CommitIgnoresRepresentation | crates/lumio-voxel-domain/src/binding.rs:587-622 | Whether changes can commit depends on the cells of the base, not on their representation |
| BlockRead.ReadCellsIntoBuffers | crates/lumio-voxel-ops/src/query/block_read.rs:807-832 | Slot i holds what a single read of the i-th cell returns (the cell's own stored block by ReadIsOfItsCell), the segments are the maximal runs, and any error leaves both buffers untouched |
| BlockRead.ReadBoxInto | crates/lumio-voxel-ops/src/query/block_read.rs:1001-1021 | A box read succeeds exactly when the box is well formed, within the limit and readable and the buffers fit; slots, runs, counts and untouched tail are those of single reads of its cells in y, z, x order |
| BlockRead.ReadColumnInto | crates/lumio-voxel-ops/src/query/block_read.rs:1036-1052 | The same for the cells of a column from the lower height upward |
| BlockRead.PreflightCells | crates/lumio-voxel-ops/src/query/block_read.rs:852-881 | The preflight's segment count is the number of maximal runs |
| BlockRead.VisitCells | crates/lumio-voxel-ops/src/query/block_read.rs:883-935 | The visiting loop emits exactly those runs |
| BlockRead.RunsTile | crates/lumio-voxel-ops/src/query/block_read.rs:906-934 | The runs tile the positions without gap or overlap, neighbours differ, and there is one per header change |
| BlockRead.BoxOrder | crates/lumio-voxel-ops/src/query/block_read.rs:991-997 | The reading order lists exactly the cells of the box, each at its position |
| BlockRead.ReadCells | crates/lumio-voxel-ops/src/query/block_read.rs:772-805 | Grouped reads hold each section's cells in reading order, sections by first encounter |
| BlockRead.ReadBox | crates/lumio-voxel-ops/src/query/block_read.rs:984-998 | The same for a box |
| BlockRead.DistinctPointsDistinctCells | crates/lumio-voxel-ops/src/query/block_read.rs:734-770 | Different points read different cells, each under the address of its own point |
| BlockRead.ReadIsOfItsCell | crates/lumio-voxel-ops/src/query/block_read.rs:734-770 | A read of a world cell is decided by the section that holds the cell: its stored block at the cell's offset when Ready or Unchanged, none without storage, unavailable at revision zero when absent, refused with storage in another state |
| BlockRead.ReadableHeights | crates/lumio-voxel-ops/src/query/block_read.rs:734-770 | A read is refused for its height exactly outside 0 to 255; any other is of a cell some section addresses |
| BlockRead.OrderIsHeightFirst | crates/lumio-voxel-ops/src/query/block_read.rs:991-997 | The reading order of a box is y, then z, then x |
| BlockRead.EncountersFollowCells | crates/lumio-voxel-ops/src/query/block_read.rs:772-805 | Groups come in the order of the first cells of their sections |
| BlockRead.CellsAreListed | crates/lumio-voxel-ops/src/query/block_read.rs:772-805 | A group lists each cell of its section behind those read before it |

## Left out

- Locks, poisoning, `Arc` sharing and thread scheduling: values and atomic steps stand for them, so sharing of unchanged pages is not captured.
- SHA-256 itself, payload and evidence digests, and the byte layout of the root identity: digests are represented by their content, so collisions are not modelled.
- The invalid-UTF-8 branch of byte decoding beyond "not the encoding of any text".
- Error-id strings, dispositions, interning and display: only the error cases remain.
- The configuration hash that prepare and commit compare, and the schema-id check of a stamp: the model has one approved configuration.
- Move-only tokens: the runs in `Runs` may use a token again, which allows more runs than the source does.
- `saturating_add` of the reservation counter and of pin reference counts: both are unbounded counters here.
- The palette bitmap as four 64-bit words: it is the set of marked bit positions.
- Public `finalize` on the ledger and direct publication by outside callers: not steps of the protocol.
- World creation, lifecycle, restore publication, routing, shutdown and the write lane: `world/restore.rs` and its neighbours are not part of this model.
- Physics queries: floating-point geometry.
- Block catalogs, state layouts, material data and greedy meshing: flat tables and checks.
- The wire format of the binding reference table and the rejection of business data in payloads.
- Binding policies that override the default methods: the policy is the function from block type to entity type.
- Read sources built from a published view and presence guards on reads: the read world is taken as given; the gate itself is `RegionPinManager.ValidatePresence`.
- Pin status, settling and streaming-priority projections of the region-pin manager: they only read fields.
