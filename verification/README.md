# Verification of the PasswordSafe V3 vault core

This project models a lossless PasswordSafe V3 vault core and proves properties of it in Dafny 4.11.
The vault core reads and writes encrypted vault files, edits them copy-on-write, publishes them
transactionally on disk, and drives them from an application with explicit phases. The proofs are
about the model in these files; `dafny verify dfyconfig.toml` checks them.

| files | what they model |
|---|---|
| `Basics`, `Utf8` | bytes, results, little-endian numbers, accepted text and the scalar values it encodes |
| `CustomFields` | the custom-field grammar: parser, printer, targeted editor |
| `Schema`, `Documents`, `Validation`, `SchemaMeaning` | field tables, documents, the schema pass and the save check, and what they decide |
| `Revisions`, `Edits`, `Commands`, `Histories`, `Sessions`, `VaultSession`, `Guards`, `Effects`, `Views` | copy-on-write sessions, warning remapping, runs of commands, when commands are accepted, the views they answer with |
| `Crypto`, `Writer`, `Payloads`, `Reader`, `Vaults`, `Acceptance` | CBC, key wrapping, streaming writer and reader, the whole-file round trip, and which files open |
| `Publication`, `CooperatingWriters`, `LateRollbacks` | one publication with crash points and a fault; many writers under one lock, and when their rollbacks come late |
| `Pending`, `SlotCodec` | suspended sessions on disk and their slot record |
| `Application` | phases, decisions, drafts, keys and the ledger of unsaved work |
| `Service`, `Coupling` | open, save, suspend and resume across session, codec and stores; one vault with the application over them |
| `Executor` | the one-worker command executor and its shutdown |
| `PayloadCompare` | stream comparison |
| `Leases`, `RevisionHeap` | shared payload buffers and the revisions of a session on the heap |

The main results:

- Every document the writer's check accepts is read back exactly, whatever the keys, the chaining
  value, the paddings and the chunking (`Vaults.WholeFileRoundTrip` with `Writer.WriteCandidate` and
  `Vaults.OpenSnapshot`). Block cipher, hash and authenticator are parameters; the only law assumed
  is that decryption undoes encryption.
- The reader accepts exactly what the writer can write: a file opens under a passphrase if and only if
  it is the file of some document the writer accepts under the same limits
  (`Acceptance.OpensExactlyWritten`, for a cipher that permutes the blocks). Which documents those are
  is said of the field table and of positions alone (`SchemaMeaning.SaveAcceptsExactly`).
- A session accepts exactly the commands the document allows, and a protected record stays as it is
  until its protection is lifted (`Guards.CommandAcceptedExactly`, `Guards.RunKeepsProtected`).
- The incremental warning remapping of a session agrees with validation from scratch, for every
  command and every run (`Revisions.ForkWarningsFaithful`, `Histories.CommandKeepsFaithful`,
  `Sessions.RunKeepsFaithful`).
- Publication is safe at every step prefix and compare-and-swap over every interleaving
  (`Publication.LocalVaultStore.PublishSource`, `CooperatingWriters.RunSwaps`).
- A save puts into the destination bytes that open as exactly the session's document, or changes
  nothing; suspending and resuming give the same document back (`Service.SaveSession`,
  `Service.SuspendSession`, `Service.ResumeSession`).
- Over every sequence of edits, saves, exports and closings on the heap, a revision that is not closed
  reads the bytes it was made with, and plaintext is wiped exactly with its last owner
  (`RevisionHeap.Drive`).
- Suspended slots stay distinct and intact over all runs with faults (`Pending.Drive`).
- Unsaved work is conserved over all runs of the application against a service that may fail
  anywhere, also after it has done what it was asked (`Application.Drive`). Work ends only by an
  explicit discard, when an applied edit cannot be listed, or behind a clean view that hides it
  (`Application.Entry.MayCost`).
- What that ledger counts as saved or stored is in the files: over every run of edits, saves, locks
  and unlocks of one vault, with faults in both stores, the document as the last applied edit left it
  is in the live session, or opens from the file, or opens from the stored artifact
  (`Coupling.Drive`, with `Coupling.Deployment.Valid` as the invariant of application, session,
  stores and ledger).

Five promises do not hold as stated, and the exact condition is proved for each:

- A move across records that both carry warnings leaves the warnings in an order no save accepts
  (`Histories.MoveCanBreakSaving`); it is harmless exactly when no two warned records cross
  (`Histories.MoveKeepsOrderExactly`).
- Adding a record whose UUID lacks the RFC 4122 variant (section 4.1.1) makes the document
  unsaveable, and only that does (`Histories.AddNeedsVariant`).
- Rollback of a failed publication runs after the destination lock is released, so another writer
  can publish in between. The slot can then end up naming a removed artifact
  (`LateRollbacks.LateRollbackLosesRecovery`) or an outdated one
  (`LateRollbacks.LateRollbackForgetsRecovery`). Over all interleavings from a state at rest, every
  state of a run is free of the first exactly when its events are `LateRollbacks.Orderly`
  (`LateRollbacks.SafeExactly`), and of both exactly when they are `LateRollbacks.Timely`
  (`LateRollbacks.RecoverableExactly`).
- Locking a resumed session again can lose the artifact it came from: publishing the new artifact
  removes the earlier one, and when the source then turns out to have changed, the new one is taken
  back. Faults aside, that happens exactly when the new artifact was published and the source had
  changed by the last look (`Coupling.Deployment.LockThrough`, `Service.SuspendSession`). The
  application then names an artifact that is gone and never lets go of it (`Coupling.LoseArtifact`,
  `Application.Drive`), and a later edit that cannot be listed costs the work it held
  (`Application.LostArtifactCostsWork`).
- A session command can fail after it has changed the document, because the view it answers with
  decodes four texts under a bound the way in does not enforce. That happens exactly when one of
  them is longer than the bound (`Views.AnswerFailsExactly`, with the input `Views.LongTitle`), and
  as long as it is there no save accepts the document (`Views.UnviewableIsUnsaveable`). If the view
  was clean it stays so over a changed session, and closing, locking or replacing the vault gives
  the change up without a decision (`Application.HiddenWorkIsGivenUp`); it is the only way a view
  comes to hide work or to list other records than the session has (`Application.Drive`), the latter
  even without a failure (`Application.CancelShowsOutdated`).

A candidate that fails after the application has adopted it, with no session to replace, leaves the
private reference on an ended session (`lingering`). `Application.VaultApplication.UnlockVault` and
`RunReplacement` say exactly when; it never costs stored work.

Modelling conventions. A field object's identity is the pair of its record and its position, and a
planned field that keeps such an origin is the retained object. Handles, revision tokens and random
identifiers are numbers from a supply that never repeats. File baselines compare contents, so digests
count as injective. What the operating system, the service or another thread decides is a parameter
of each operation, which makes every theorem hold for all such decisions.

## Model

| member | source | states |
|---|---|---|
| `CustomFields.ParsePrintHex` | src/bonobo_core/passwordsafe/custom_fields.py:664-677 | printing a number in a fixed number of lower-case digits and parsing it gives the number back |
| `CustomFields.PrintParseHex` | src/bonobo_core/passwordsafe/custom_fields.py:664-677 | every accepted digit string is the canonical printed form of its value |
| `CustomFields.ReadLowerHex` | src/bonobo_core/passwordsafe/custom_fields.py:664-677 | the digit loop accepts exactly the lower-case strings and computes their value |
| `CustomFields.EncodeFields` | src/bonobo_core/passwordsafe/custom_fields.py:454-472 | the encoding loop emits fields and separators in order and refuses adjacent fields without a separator between them |
| `CustomFields.ParseCustomFields` | src/bonobo_core/passwordsafe/custom_fields.py:376-437 | the offset loop accepts and rejects exactly as the grammar does, for every input and bound |
| `CustomFields.ParseThenEncode` | src/bonobo_core/passwordsafe/custom_fields.py:376-470 | every accepted input re-encodes to itself byte for byte, and parses to a well-formed list |
| `CustomFields.EncodeThenParse` | src/bonobo_core/passwordsafe/custom_fields.py:376-470 | every well-formed list within the length bound is read back exactly |
| `CustomFields.HeaderIsNotSeparator` | src/bonobo_core/passwordsafe/custom_fields.py:657-661 | no property encoding begins with the separator token |
| `CustomFields.SeparatorIsNotHeader` | src/bonobo_core/passwordsafe/custom_fields.py:657-661 | the separator token can never be read as a property header |
| `CustomFields.ReplaceCustomValue` | src/bonobo_core/passwordsafe/custom_fields.py:479-525 | the edit loop replaces the one field with that name, refuses a missing name, and leaves the others |
| `CustomFields.EditFrame` | src/bonobo_core/passwordsafe/custom_fields.py:746-776 | replacing a value changes only the value and the requested sensitivity; every other property keeps its bytes and order |
| `CustomFields.TargetedEdit` | src/bonobo_core/passwordsafe/custom_fields.py:531-580 | a raw edit is refused as invalid exactly for a bad value or a missing name; what it writes parses again and differs only in the named field |
| `Validation.GroupRoles` | src/bonobo_core/passwordsafe/schema.py:280-390 | the hard-wired attachment and passkey groups are exactly the fields whose table role asks for them |
| `Validation.ValidateFieldSequence` | src/bonobo_core/passwordsafe/reader.py:1291-1345 | one pass with an occurrence set and a running text budget: classification and ordered warnings of a section, or the first refusal; `SchemaMeaning.SectionExactly` says which |
| `Validation.ValidateRecord` | src/bonobo_core/passwordsafe/reader.py:1219-1240 | a record ends with its terminator, passes the field rules, and has its mandatory fields once and its groups complete |
| `Validation.ValidateSchemaFields` | src/bonobo_core/passwordsafe/reader.py:1202-1240 | header first, then records in order, one running budget across all of them |
| `Validation.ValidateDocumentForSerialization` | src/bonobo_core/passwordsafe/reader.py:1244-1287 | the save check recomputes everything and demands equality with what is stored |
| `Validation.BudgetOnlyRefuses` | src/bonobo_core/passwordsafe/reader.py:1291-1345 | a text budget never changes the verdict on a field, it can only refuse the document |
| `Validation.SchemaChecks` | src/bonobo_core/passwordsafe/reader.py:1202-1240 | the pass succeeds with exactly the recomputed classes and warnings, and fails on a structured document only for its budget |
| `Validation.SaveCheckIsConsistency` | src/bonobo_core/passwordsafe/reader.py:1244-1287 | an accepted document is consistent, and a consistent one is accepted unless a resource limit refuses it |
| `SchemaMeaning.SectionExactly` | src/bonobo_core/passwordsafe/reader.py:1291-1345 | a section is accepted exactly when every field is admitted and its texts fit the budget; then each field has the class its content calls for, and there is one warning for each unknown, repeated single or ill-formed field, in field order, and no other |
| `SchemaMeaning.SchemaExactly` | src/bonobo_core/passwordsafe/reader.py:1202-1240 | the same for a whole document: header, complete records, one budget, and a warning exactly where a field draws it |
| `SchemaMeaning.VersionExactly` | src/bonobo_core/passwordsafe/reader.py:1163-1190 | the version is the first header field, there once, two little-endian bytes in the supported range |
| `SchemaMeaning.SaveAcceptsExactly` | src/bonobo_core/passwordsafe/reader.py:1244-1287 | a save accepts exactly the documents that are shaped and sized as allowed, conform to the format, and store the right classes and warnings |
| `Utf8.AcceptedExactly` | src/bonobo_core/passwordsafe/schema.py:644-647 | accepted text is the UTF-8 form of some scalar values that do not begin with the byte-order mark |
| `Validation.EndIsLastOnly` | src/bonobo_core/passwordsafe/reader.py:1291-1345 | in an accepted section the terminator is last, empty and nowhere else |
| `Validation.SchemaErased` | src/bonobo_core/passwordsafe/reader.py:1260-1287 | the pass reads types, bytes and positions only, never the classification a field carries |
| `Revisions.SeenAfterPlan` | src/bonobo_core/passwordsafe/session.py:1045-1085 | after a faithful plan a retained field has seen its type before exactly as it had, and a fresh field never has |
| `Revisions.AlignedWarnings` | src/bonobo_core/passwordsafe/session.py:1108-1124 | walking old record and plan side by side, the remapped warnings are those a fresh pass produces |
| `Revisions.PlannedRecordExamined` | src/bonobo_core/passwordsafe/session.py:1045-1085 | a faithful plan keeps every field acceptable and every stored classification right |
| `Revisions.ForkStructured` | src/bonobo_core/passwordsafe/session.py:1045-1085 | a fitting plan turns a structured document into a structured one |
| `Revisions.ForkWarningsFaithful` | src/bonobo_core/passwordsafe/session.py:1108-1124 | incremental remapping agrees, record by record and in order, with validation from scratch |
| `Revisions.ConsistentExactlyWhenOrdered` | src/bonobo_core/passwordsafe/reader.py:1260-1287 | a save accepts a document exactly when it is structured, its warnings are right per record, and they are in document order |
| `Edits.BuildReplacements` | src/bonobo_core/passwordsafe/session.py:725-745 | the edit loop resolves a patch left to right and refuses a repeated or ambiguous field |
| `Guards.EditAcceptedExactly` | src/bonobo_core/passwordsafe/session.py:784-814 | a typed edit is accepted exactly when the field is editable so, alone in its record, known at this format level, and takes the value |
| `Guards.EncodedPayload` | src/bonobo_core/passwordsafe/session.py:784-814 | an accepted edit puts exactly the given bytes, or the number in the width of the field, into the record |
| `Edits.EncodedIsClean` | src/bonobo_core/passwordsafe/session.py:784-814 | an encoded edit value never fails or draws a warning at save time |
| `Edits.EncodedEditsAreGood` | src/bonobo_core/passwordsafe/session.py:725-745 | a resolved patch names each type once, touches no structural field, and never removes a mandatory one |
| `Edits.PlanEditedFields` | src/bonobo_core/passwordsafe/session.py:746-770 | the two loops replace in place and insert the rest before the terminator |
| `Edits.EditedFieldsFaithful` | src/bonobo_core/passwordsafe/session.py:725-782 | the edited sequence retains what the patch does not name, in order, and each fresh field is alone in its type |
| `Commands.PatchMeaning` | src/bonobo_core/passwordsafe/session.py:725-782 | exactly the unnamed fields are kept in order, each set type has its value and nothing else, each removed type is gone |
| `Commands.EditedShape` | src/bonobo_core/passwordsafe/session.py:725-782 | a patched record still ends properly, has its mandatory fields once and its groups complete |
| `Guards.CommandAcceptedExactly` | src/bonobo_core/passwordsafe/session.py:364-462 | an open, current session that is not saving accepts a command exactly when the document allows it, and no other session accepts any |
| `Guards.ProtectionForbids` | src/bonobo_core/passwordsafe/session.py:364-462 | a protected record can only be moved or have its protection lifted |
| `Guards.RunKeepsProtected` | src/bonobo_core/passwordsafe/session.py:201-668 | over every run a protected record stays in the document, field for field, until its protection is lifted |
| `Histories.ActionFits` | src/bonobo_core/passwordsafe/session.py:364-462 | patch, move, delete, protect and unprotect always plan a faithful revision |
| `Histories.NewRecordFits` | src/bonobo_core/passwordsafe/session.py:1013-1039 | a new record with an accepted identity is complete and draws no warning |
| `Histories.CommandKeepsFaithful` | src/bonobo_core/passwordsafe/session.py:364-462 | every accepted command keeps the stored classifications and per-record warnings equal to recomputed ones |
| `Histories.AddNeedsVariant` | src/bonobo_core/passwordsafe/session.py:389-403 | adding keeps the document saveable if and only if the identity has the RFC 4122 variant |
| `Histories.CommandKeepsOrder` | src/bonobo_core/passwordsafe/session.py:859-873 | every command but a move keeps the warnings in document order |
| `Histories.MoveKeepsOrderExactly` | src/bonobo_core/passwordsafe/session.py:406-428 | a move leaves a saveable document saveable if and only if the moved record and one it passes are not both warned |
| `Histories.MoveCanBreakSaving` | src/bonobo_core/passwordsafe/session.py:406-428 | a concrete vault a save accepts and a move after which no save accepts it |
| `Histories.FaithfulIsPermutation` | src/bonobo_core/passwordsafe/session.py:1108-1124 | the stored warnings are always a permutation of the recomputed ones |
| `Sessions.StepKeepsWell` | src/bonobo_core/passwordsafe/session.py:859-885 | handles stay distinct, revisions fresh, the save snapshot frozen, and the change log replays to the current document |
| `Sessions.FinishSaveKeepsView` | src/bonobo_core/passwordsafe/session.py:521-556 | finishing a save changes no record, handle or revision, it only empties the log |
| `Sessions.RefusalsChangeNothing` | src/bonobo_core/passwordsafe/session.py:879-888 | a refused request changes nothing, and an accepted edit consumes the revision it was based on |
| `Sessions.RunKeepsFaithful` | src/bonobo_core/passwordsafe/session.py:201-668 | over every run of requests the stored metadata is what a fresh pass finds, record by record |
| `Sessions.RunStaysSaveable` | src/bonobo_core/passwordsafe/session.py:201-668 | over every run without a crossing move, saving is refused only by a resource limit |
| `VaultSessions.ForkDocument` | src/bonobo_core/passwordsafe/session.py:1045-1085 | the loops with their identity dictionaries compute the fork |
| `VaultSessions.RemapWarnings` | src/bonobo_core/passwordsafe/session.py:1108-1124 | the dictionary lookups compute the remapping, dropping warnings of fields that are gone |
| `VaultSessions.PlanForkable` | src/bonobo_core/passwordsafe/session.py:364-462 | no command ever plans one record or one field object twice |
| `VaultSessions.VaultSession.Commit` | src/bonobo_core/passwordsafe/session.py:859-873 | one revision is forked, logged and given a fresh token |
| `VaultSessions.VaultSession.ApplyPatch` | src/bonobo_core/passwordsafe/session.py:364-383 | done exactly when the guards allow it: one new revision with the patched record; the answer prepared afterwards is the view of that record, which may fail once the change is committed |
| `VaultSessions.VaultSession.AddRecord` | src/bonobo_core/passwordsafe/session.py:389-403 | guards in order, then one new revision with the record appended; the answer prepared afterwards is its view, which may fail once the record is there |
| `Views.ViewShowsExactly` | src/bonobo_core/passwordsafe/session.py:684-694 | a view carries handle, revision and protection, and for each of the four types the text of the first such field if it is clean, else nothing |
| `Views.ViewFailsExactly` | src/bonobo_core/passwordsafe/session.py:684-694 | the view of a record whose texts validation accepts fails exactly when its title, group, user name or address is longer than the decoding bound |
| `Views.CommandViewsExactly` | src/bonobo_core/passwordsafe/session.py:364-462 | every accepted command keeps that equivalence for every record, whatever identity an added record has |
| `Views.AnswerFailsExactly` | src/bonobo_core/passwordsafe/session.py:364-403 | an accepted patch, addition, move or change of protection has changed the document, and the call then fails exactly when one of the four texts of the record it answers for is too long |
| `Views.RunViewsExactly` | src/bonobo_core/passwordsafe/session.py:201-668 | the equivalence holds for every record after every run of requests |
| `Views.AddedViewExactly` | src/bonobo_core/passwordsafe/session.py:389-403 | for an added record the condition can be read off the four texts the caller passes |
| `Views.LongTitleIsAddedAndFails` | src/bonobo_core/passwordsafe/schema.py:591-595 | a title one byte over the bound is accepted into every document and its view then fails |
| `Views.UnviewableIsUnsaveable` | src/bonobo_core/passwordsafe/reader.py:1291-1345 | a document with a record that cannot be viewed is refused by every save, whatever the limits |
| `VaultSessions.VaultSession.MoveRecord` | src/bonobo_core/passwordsafe/session.py:406-428 | remove and reinsert at the checked ordinal |
| `VaultSessions.VaultSession.DeleteRecord` | src/bonobo_core/passwordsafe/session.py:431-441 | done exactly when the session is open, current and not saving and the record is there unprotected; otherwise refused |
| `VaultSessions.VaultSession.ChangeProtection` | src/bonobo_core/passwordsafe/session.py:820-856 | sets or clears the marker unless the state, the count or the format level forbids it |
| `VaultSessions.VaultSession.BeginSave` | src/bonobo_core/passwordsafe/session.py:497-507 | freezes the current document once |
| `VaultSessions.VaultSession.CompleteSave` | src/bonobo_core/passwordsafe/session.py:521-556 | accepts only an exactly equal reread document and keeps the session identities |
| `VaultSessions.VaultSession.LockClean` | src/bonobo_core/passwordsafe/session.py:643-656 | refuses while saving or with unsaved changes |
| `VaultSessions.VaultSession.Discard` | src/bonobo_core/passwordsafe/session.py:659-666 | ends the session whatever is unsaved |
| `Crypto.XorLaws` | src/bonobo_core/passwordsafe/crypto.py:481-482 | exclusive or of blocks is bit by bit, symmetric, has the zero block as unit, and is zero only for equal blocks |
| `Crypto.CbcEncryptor.Transform` | src/bonobo_core/passwordsafe/crypto.py:473-496 | one block is mixed with the chain, encrypted, and becomes the chain; under a cipher that can be undone any other chaining value would have given another block |
| `Crypto.CbcEncryptBlock` | src/bonobo_core/passwordsafe/crypto.py:473-496 | of a whole stream every ciphertext block is its plaintext block encrypted together with the ciphertext block before it, the first with the initial value |
| `Crypto.StartMatters` | src/bonobo_core/passwordsafe/crypto.py:435-496 | the same plaintext from two initial values agrees in no ciphertext block |
| `Crypto.CbcDecryptor.Transform` | src/bonobo_core/passwordsafe/crypto.py:587-612 | one block is decrypted and mixed with the saved chain, and its ciphertext becomes the chain |
| `Crypto.CbcRoundTrip` | src/bonobo_core/passwordsafe/crypto.py:435-660 | decrypting the continuous stream restores the plaintext for every key and chaining value |
| `Crypto.CbcEncryptAppend` | src/bonobo_core/passwordsafe/crypto.py:435-496 | the stream is continuous across any block boundary |
| `Crypto.CbcWindow` | src/bonobo_core/passwordsafe/crypto.py:549-612 | any aligned window of plaintext is its ciphertext window decrypted from the block before it |
| `Crypto.StretchPassphrase` | src/bonobo_core/passwordsafe/crypto.py:332-365 | refuses exactly the counts outside the bound; else the result ends a chain of that many hashes from the hash of passphrase and salt |
| `Crypto.WrapVaultKeys` | src/bonobo_core/passwordsafe/crypto.py:371-393 | four blocks at their offsets: both halves of K, then both halves of L |
| `Crypto.UnwrapVaultKeys` | src/bonobo_core/passwordsafe/crypto.py:399-429 | four blocks decrypted back into two keys |
| `Crypto.UnwrapUndoesWrap` | src/bonobo_core/passwordsafe/crypto.py:371-429 | unwrapping under the same derived key restores both keys |
| `Writer.FieldStream.EncryptBytes` | src/bonobo_core/passwordsafe/writer.py:556-572 | data of any length goes out in whole blocks of one continuous stream; less than a block stays pending |
| `Writer.FieldStream.WriteField` | src/bonobo_core/passwordsafe/writer.py:518-551 | succeeds exactly when the chunks deliver the declared length; emits the one-shot encryption of the frame, leaves nothing pending, authenticates exactly the payload |
| `Writer.WriteCandidate` | src/bonobo_core/passwordsafe/writer.py:473-503 | the streamed file is the envelope, the one-shot stream, the end marker and the authenticator, for any chunking |
| `Writer.ValidateDocument` | src/bonobo_core/passwordsafe/writer.py:596-613 | save check, iteration limit and size loop, in this order |
| `Writer.SizeIsExact` | src/bonobo_core/passwordsafe/writer.py:604-613 | the size loop accepts exactly the streams that fit and computes their size |
| `Writer.CandidateSize` | src/bonobo_core/passwordsafe/writer.py:596-613 | an accepted candidate is exactly as long as computed and within the limit |
| `Payloads.StreamChunks` | src/bonobo_core/passwordsafe/payloads.py:550-586 | a deferred span yields exactly the declared payload, every chunk but the last full, no framing or padding |
| `Payloads.BlockOfFrame` | src/bonobo_core/passwordsafe/payloads.py:550-586 | decrypting one block of a span from the block before it gives that block of its frame |
| `Reader.ConsumeFieldPayload` | src/bonobo_core/passwordsafe/reader.py:1073-1155 | inline or deferred, the stored payload stands for the declared bytes, which alone are authenticated; the digest comparison always succeeds |
| `Reader.ResolveAdvance` | src/bonobo_core/passwordsafe/reader.py:504-534 | storing spans or storing bytes makes no difference to how fields are routed |
| `Reader.DecryptFields` | src/bonobo_core/passwordsafe/reader.py:987-1066 | the ciphertext loop accepts, refuses and routes exactly as parsing the decrypted stream does |
| `Vaults.FrameReadsBack` | src/bonobo_core/passwordsafe/reader.py:1008-1022 | the head and payload of a written frame are found where the parser looks |
| `Vaults.ParseIsFold` | src/bonobo_core/passwordsafe/reader.py:1003-1060 | parsing what was framed depends only on the fields, for any padding |
| `Vaults.ParseDocument` | src/bonobo_core/passwordsafe/reader.py:987-1066 | parsing the frames of an accepted document rebuilds its sections and authenticates exactly its payloads |
| `Vaults.PublishAccepted` | src/bonobo_core/passwordsafe/reader.py:556-569 | the document published from an accepted one is exactly equal to it |
| `Vaults.EnvelopeReadsBack` | src/bonobo_core/passwordsafe/reader.py:946-982 | every envelope part is found again where it was written |
| `Vaults.OpenSnapshot` | src/bonobo_core/passwordsafe/reader.py:780-940 | envelope, stretching, password check, key unwrapping, parsing, authentication, then publication, in this order |
| `Acceptance.OpensExactlyWritten` | src/bonobo_core/passwordsafe/reader.py:780-940 | a file opens under a passphrase if and only if it is the file the writer emits for some document it accepts under the same limits, with material derived from that passphrase |
| `Acceptance.WritingIsUnique` | src/bonobo_core/passwordsafe/reader.py:780-940 | however a file came to be written, documents, material and keys are the same |
| `Acceptance.CandidateLayout` | src/bonobo_core/passwordsafe/writer.py:473-503 | where every part of a written file stands, byte for byte |
| `Acceptance.PayloadsInOrder` | src/bonobo_core/passwordsafe/writer.py:518-551 | what is authenticated is every payload at its place in order and nothing else |
| `Acceptance.OpenedIsAuthentic` | src/bonobo_core/passwordsafe/reader.py:856-897 | every opened file carries the hash of the derived key and the authenticator of exactly the published payloads |
| `Acceptance.OtherAuthenticatorFails` | src/bonobo_core/passwordsafe/reader.py:895-896 | any other authenticator on a file that opens is refused as a mismatch |
| `Acceptance.DigestVerdictsExactly` | src/bonobo_core/passwordsafe/reader.py:780-897 | for every readable envelope: refused for the password exactly when the check differs, and for the authenticator exactly when the check agrees, the stream parses and its payloads give another one |
| `Vaults.WholeFileRoundTrip` | src/bonobo_core/passwordsafe/writer.py:473-613 | whatever the writer accepts reads back exactly, with the same keys, for every key, chaining value and padding under equal limits |
| `Vaults.PublishedIsConsistent` | src/bonobo_core/passwordsafe/reader.py:1163-1240 | every document the reader publishes passes the save check, budgets aside |
| `Publication.TransactionSlot` | src/bonobo_core/passwordsafe/storage.py:1582-1596 | the new artifact first, every older one kept behind it, never more than 64 identifiers |
| `Publication.FirstFreshExactly` | src/bonobo_core/passwordsafe/storage.py:976-1021 | the name of a recovery is the first of at most 32 drawn that is not taken |
| `Publication.LocalVaultStore.CreateRecovery` | src/bonobo_core/passwordsafe/storage.py:976-1021 | the destination is preserved under the first unused name within 32 attempts |
| `Publication.LocalVaultStore.Preserve` | src/bonobo_core/passwordsafe/storage.py:791-803 | recheck, preserve, announce, recheck; a failure says what is left to undo |
| `Publication.LocalVaultStore.CommitRecovery` | src/bonobo_core/passwordsafe/storage.py:1099-1119 | all superseded artifacts go before the slot shrinks; a failed removal keeps the slot long |
| `Publication.LocalVaultStore.LockedTransaction` | src/bonobo_core/passwordsafe/storage.py:788-843 | replaces exactly the content the baseline describes or nothing |
| `Publication.LocalVaultStore.RollBack` | src/bonobo_core/passwordsafe/storage.py:867-896 | a failed transaction restores the staged name, the slot and the artifacts |
| `Publication.LocalVaultStore.PublishSource` | src/bonobo_core/passwordsafe/storage.py:733-928 | every step prefix is safe, the outcome is the whole new or the whole old state, and without a fault it succeeds exactly when it should |
| `Publication.LocalVaultStore.Restore` | src/bonobo_core/passwordsafe/storage.py:689-719 | only the advertised recovery is republished, and what it replaces becomes the next recovery |
| `Publication.RestoreTwice` | src/bonobo_core/passwordsafe/storage.py:689-719 | two successful restores bring destination and recovery content back, identifiers aside |
| `CooperatingWriters.LooksCompare` | src/bonobo_core/passwordsafe/storage.py:788-835 | both looks at the destination compare it with the baseline, whoever has written it, and creation needs it absent |
| `CooperatingWriters.StepSwaps` | src/bonobo_core/passwordsafe/storage.py:788-835 | only a replacement moves the destination, and it replaces the baseline of its writer |
| `CooperatingWriters.RunSwaps` | src/bonobo_core/passwordsafe/storage.py:776-835 | over every interleaving of any number of writers the successful publications form a chain and none is lost |
| `CooperatingWriters.RunExclusive` | src/bonobo_core/passwordsafe/storage.py:788-896 | a schedule that suffices: if nobody takes the lock during a rollback, the slot is always safe and at rest preserves what the last publication replaced |
| `LateRollbacks.SafeExactly` | src/bonobo_core/passwordsafe/storage.py:788-896 | over every interleaving, every state of a run has a slot naming an existing artifact if and only if no rollback puts back a removed artifact and none is removed while a rollback has put it back |
| `LateRollbacks.RecoverableExactly` | src/bonobo_core/passwordsafe/storage.py:788-896 | over every interleaving, every state of a run has a slot naming the right artifact if and only if no rollback follows a replacement newer than its own draw, puts back a withdrawn artifact, or falls between an announcement and its replacement |
| `LateRollbacks.TimelyRunsRecover` | src/bonobo_core/passwordsafe/storage.py:788-896 | after a run without late rollbacks the named artifact holds what the last replacement replaced, or the present content during a later transaction |
| `LateRollbacks.TimelyIsOrderly` | src/bonobo_core/passwordsafe/storage.py:788-896 | naming the right artifact is the stronger of the two run properties |
| `LateRollbacks.LateRollbackLosesRecovery` | src/bonobo_core/passwordsafe/storage.py:888-896 | a run of two cooperating writers after which the slot names a removed artifact, because rollback follows the release of the lock |
| `LateRollbacks.LateRollbackForgetsRecovery` | src/bonobo_core/passwordsafe/storage.py:888-896 | a run after which, at rest, the slot names an existing artifact of an older revision than the one last replaced |
| `Pending.PendingSessionStore.PublicationPrevious` | src/bonobo_core/passwordsafe/pending.py:901-940 | the scan selects the one expected slot or none, and refuses every alias of the source |
| `Pending.PendingSessionStore.PublishArtifact` | src/bonobo_core/passwordsafe/pending.py:628-700 | the artifact is complete and authenticated before it is named, or nothing is left |
| `Pending.PendingSessionStore.SwapSlot` | src/bonobo_core/passwordsafe/pending.py:735-785 | two renames, undone on a fault, with an intact artifact behind whatever is visible |
| `Pending.PendingSessionStore.RestorePreviousSlot` | src/bonobo_core/passwordsafe/pending.py:1066-1141 | takes back exactly the renames that happened |
| `Pending.PendingSessionStore.Publish` | src/bonobo_core/passwordsafe/pending.py:583-853 | with one fault anywhere the result is the complete old state or the new one with exactly the leftovers of a failed cleanup, the caller is told which, and without a fault it succeeds exactly when it should |
| `Pending.PendingSessionStore.Clean` | src/bonobo_core/passwordsafe/pending.py:822-850 | the previous artifact and slot are removed only behind the new slot, and a failure leaves exactly the part not yet removed |
| `Pending.PendingSessionStore.DiscardPending` | src/bonobo_core/passwordsafe/pending.py:526-577 | removing the artifact is the commit point: a fault before it restores the slot, one after it leaves the moved slot behind and reports success |
| `Pending.Drive` | src/bonobo_core/passwordsafe/pending.py:526-940 | over every run of publications and discards with a fault in any of them, slots keep pairwise distinct sources and intact artifacts, and no step of any request shows a slot without its artifact |
| `SlotCodec.DecimalRoundTrip` | src/bonobo_core/passwordsafe/pending.py:1276-1280 | strict decimal parsing undoes decimal printing |
| `SlotCodec.SplitJoined` | src/bonobo_core/passwordsafe/pending.py:1234-1248 | splitting joined lines gives the lines back |
| `SlotCodec.SlotRoundTrip` | src/bonobo_core/passwordsafe/pending.py:1222-1263 | every stored value that fits the slot bound reads back as itself |
| `SlotCodec.EncodesExactly` | src/bonobo_core/passwordsafe/pending.py:1222-1232 | a value is written exactly when its lines take at most 1024 characters |
| `Application.VaultApplication.Publish` | src/bonobo_core/application/facade.py:1243-1265 | each publication consumes one generation and voids every draft |
| `Application.VaultApplication.EndLocked` | src/bonobo_core/application/facade.py:1145-1190 | a locked snapshot shows nothing; work held nowhere else is recorded as given up |
| `Application.VaultApplication.ProjectSession` | src/bonobo_core/application/facade.py:1073-1082 | a candidate gets distinct keys from the unused supply |
| `Application.VaultApplication.RefreshProjection` | src/bonobo_core/application/facade.py:1115-1127 | known handles keep their key, new ones draw fresh keys, keys stay injective |
| `Application.VaultApplication.BeginEdit` | src/bonobo_core/application/facade.py:339-353 | a draft is bound to this generation and this revision |
| `Application.VaultApplication.CommitEdit` | src/bonobo_core/application/facade.py:360-380 | a draft works once and only in its own generation; its secret closes on every path; a listed edit shows the records of the edited session, a refused one changes no session, one applied by a call that then fails leaves the view as it was, and work is lost only if an applied edit cannot be listed |
| `Application.VaultApplication.CommitDraft` | src/bonobo_core/application/facade.py:650-745 | the draft is consumed before its revision is compared |
| `Application.VaultApplication.ShowLive` | src/bonobo_core/application/facade.py:1102-1127 | the published view lists one record per key, and the keys are those of exactly the records of the session |
| `Application.VaultApplication.ViewListsRecords` | src/bonobo_core/application/facade.py:1088-1127 | the state invariant says of every unlocked view: a record per key, the dirty mark as the phase has it, keys of exactly the records of the session unless an applied edit was never listed, and a decision shows what the view before it showed |
| `Application.VaultApplication.SaveVault` | src/bonobo_core/application/facade.py:470-492 | a failed save keeps session and view, a published one loses no work whatever fails afterwards and lists the records again or locks |
| `Application.VaultApplication.LockVault` | src/bonobo_core/application/facade.py:539-567 | work shown as dirty goes into the stored artifact or stays live; a suspension taken back costs the earlier artifact and is counted so |
| `Application.VaultApplication.UnlockVault` | src/bonobo_core/application/facade.py:580-609 | stored work comes back whole, a failure keeps it stored, an artifact that is gone is never resumed, the passphrase closes |
| `Application.VaultApplication.DiscardSuspended` | src/bonobo_core/application/facade.py:615-643 | stored work is given up only by this explicit command and only when it succeeds |
| `Application.VaultApplication.RunReplacement` | src/bonobo_core/application/facade.py:964-1001 | a candidate that fails to authenticate or project leaves the old session and its work untouched; the exact case in which the reference to an ended session stays, which never costs work that is stored |
| `Application.VaultApplication.OpenOrCreate` | src/bonobo_core/application/facade.py:432-465 | accepted exactly without a pending decision or an undiscarded artifact; work shown as dirty is never replaced without a decision; otherwise the new session appears under its path exactly when the old one ended and the candidate answers |
| `Application.VaultApplication.RequestClose` | src/bonobo_core/application/facade.py:498-515 | a session shown as dirty is never closed without a decision, and nothing is given up unless a clean view hides it |
| `Application.VaultApplication.ResolveCloseOnly` | src/bonobo_core/application/facade.py:1043-1069 | saving first loses nothing; a failed save keeps the session |
| `Application.VaultApplication.SaveThenReplace` | src/bonobo_core/application/facade.py:1006-1038 | the old work is saved before the replacement may take over |
| `Application.VaultApplication.ResolveClose` | src/bonobo_core/application/facade.py:520-534 | the token works once, cancelling restores the view, and work is given up only by choosing to discard |
| `Application.Perform` | src/bonobo_core/application/facade.py:225-1341 | one command keeps the state invariant, is never left busy, gives work up only in the named ways, hides work only after an edit applied by a failing call, and never makes a gone artifact usable |
| `Application.Drive` | src/bonobo_core/application/facade.py:225-1341 | over every run and every behaviour of the service each accepted edit is live, saved, in an artifact that exists, or given up by a command of the run that discards, cannot list an applied edit, or ends a session a clean view hides |
| `Application.HiddenWorkIsGivenUp` | src/bonobo_core/application/facade.py:650-694 | a run in which an edit applied by a failing call is given up by closing the vault, with no decision |
| `Application.LostArtifactCostsWork` | src/bonobo_core/application/facade.py:539-567 | a run in which a suspension taken back and an edit that cannot be listed together cost work that had been stored, leaving the vault locked over an artifact that is gone |
| `Application.CancelShowsOutdated` | src/bonobo_core/application/facade.py:520-534 | a run after which a view without a failure does not list a record the session has |
| `Service.WriteVerified` | src/bonobo_core/passwordsafe/writer.py:277-360 | a candidate comes out exactly when the document is acceptable and its parts can be written, and then it opens as that document |
| `Service.ReopenAgrees` | src/bonobo_core/passwordsafe/reader.py:832-866 | reopening under the retained key accepts exactly the files that open with the passphrase and carry the expected salt and iterations, with the same result |
| `Service.SaveSession` | src/bonobo_core/passwordsafe/service.py:342-403 | a save publishes bytes that open as exactly the session document and makes the session clean, or changes neither session nor destination |
| `Service.SaveAndForget` | src/bonobo_core/passwordsafe/service.py:373-396 | after the save the stored artifact of a resumed session is removed; a failure there is a committed save |
| `Service.SuspendSession` | src/bonobo_core/passwordsafe/service.py:409-460 | a suspension stores bytes that open as exactly the session document behind a visible slot, or keeps the session; without a fault it succeeds exactly when the document can be written and stored and the source never changed, and is taken back, the earlier artifact gone, exactly when the source had changed only by the last look |
| `Service.OpenedStartsSession` | src/bonobo_core/passwordsafe/reader.py:780-940 | every opened vault is a consistent first revision for a session |
| `Service.OpenSession` | src/bonobo_core/passwordsafe/service.py:317-336 | a file opens as a clean session exactly when nothing is stored for it and it opens under the passphrase |
| `Service.ResumeSession` | src/bonobo_core/passwordsafe/service.py:479-536 | exactly when the slot still selects the intact artifact, the source is unchanged at every look and both open, resuming gives a dirty session on exactly the document that was suspended |
| `Coupling.Deployment.EditThrough` | src/bonobo_core/application/facade.py:650-745 | a confirmed draft reaches the session exactly when it is live, admissible and agrees; the edit is counted and the document moves on exactly when the session takes it, also when its answer or the list fails afterwards |
| `Coupling.Deployment.SaveThrough` | src/bonobo_core/application/facade.py:470-492 | work is counted as committed only when the file opens as the document of the session; without a fault that happens exactly when the document can be written and the file is the one it was opened on |
| `Coupling.Deployment.LockThrough` | src/bonobo_core/application/facade.py:539-567 | work counted as stored is behind a slot whose artifact opens as the document; without a fault it is stored exactly when it is published and the source has not changed by the last look, and an artifact that was there is lost exactly when the session came from it, the new one was published, and the source had changed |
| `Coupling.Deployment.UnlockThrough` | src/bonobo_core/application/facade.py:580-609 | on an undisturbed file a session comes back exactly when the artifact is there, bound to the file, and both open, or nothing is stored and the file opens; and it has the document as the last applied edit left it; over a gone artifact the vault stays locked |
| `Coupling.Serve` | src/bonobo_core/application/facade.py:339-609 | every coupled command, with a fault in either store, keeps the agreement of application, session, artifact, file and ledger |
| `Coupling.Drive` | src/bonobo_core/application/facade.py:339-609 | over every run of edits, saves, locks and unlocks with faults, the document as the last applied edit left it is live, in the file or in the stored artifact, unless somebody else wrote the file or the ledger says something was given up |
| `Coupling.LoseArtifact` | src/bonobo_core/passwordsafe/service.py:409-460 | the run that loses a stored artifact over the real service, from any resumed session whose document can be published, after which it stays lost whatever follows |
| `Executor.RunKeeps` | src/bonobo_desktop/tasks.py:208-334 | the invariant over both guards holds in every interleaving |
| `Executor.ReachableIsSafe` | src/bonobo_desktop/tasks.py:89-334 | no task is both started and canceled, the terminal callback is taken at most once and never beside an active command, it is consumed once cleanup is done, and nothing waits after shutdown began |
| `Executor.StepIsMonotone` | src/bonobo_desktop/tasks.py:89-113 | started and canceled are final, and a callback fires only when no command is active |
| `Executor.NothingStartsAfterShutdown` | src/bonobo_desktop/tasks.py:260-268 | the set of started commands is final once shutdown began |
| `Executor.StartsInOrder` | src/bonobo_desktop/tasks.py:208-243 | commands start in the order in which they were submitted |
| `Executor.RunLosesNone` | src/bonobo_desktop/tasks.py:208-243 | until shutdown every accepted task waits, is in the hands of the worker, has started or is canceled, over every interleaving |
| `Executor.DroppedNeverStarts` | src/bonobo_desktop/tasks.py:223-243 | a task the pool refused is never started, whatever the others do |
| `Executor.TerminalFiresOnce` | src/bonobo_desktop/tasks.py:268-334 | the terminal callback of a shutdown is neither lost nor repeated |
| `Executor.TerminalIsConsumed` | src/bonobo_desktop/tasks.py:289-295 | when the worker holds no running command after cleanup, the terminal callback has been taken |
| `PayloadCompare.Pull` | src/bonobo_core/passwordsafe/model.py:681-720 | each pull shrinks a measure even on endless iterators, and a stream it rejects cannot be exact |
| `PayloadCompare.PayloadsEqual` | src/bonobo_core/passwordsafe/model.py:664-741 | terminates on every pair of iterators; true exactly when both are properly chunked, deliver their length and hold the same bytes |
| `PayloadCompare.InteropPayloadsEqual` | tools/verify_passwordsafe_interop.py:500-563 | the second comparator decides the same question |
| `PayloadCompare.BothComparators` | tools/verify_passwordsafe_interop.py:500-542 | the two comparators agree on every pair of streams |
| `Leases.Retain` | src/bonobo_core/passwordsafe/payloads.py:193-197 | a new lease is counted and shares the storage |
| `Leases.Close` | src/bonobo_core/passwordsafe/payloads.py:213-225 | one lease ends, other open owners read the same bytes, and the buffer is wiped with the last one |
| `Leases.Adopt` | src/bonobo_core/passwordsafe/payloads.py:270-284 | a buffer taken over has one lease and reads what it held |
| `Leases.WipedExactly` | src/bonobo_core/passwordsafe/payloads.py:168-225 | a buffer is wiped when no owner is open and holds what it was adopted with until then |
| `Leases.CloseRevision` | src/bonobo_core/passwordsafe/model.py:443-461 | closing a revision changes nothing another live owner can read |
| `Effects.PatchReadsBack` | src/bonobo_core/passwordsafe/session.py:725-782 | a patched record reads back each value the patch set and nothing of what it removed |
| `Effects.ProtectionTakesEffect` | src/bonobo_core/passwordsafe/session.py:820-856 | after protecting a record it is protected, after unprotecting it is not |
| `Effects.NewRecordReadsBack` | src/bonobo_core/passwordsafe/session.py:1013-1039 | a new record reads back every text it was given, and an empty optional text leaves no field |
| `Effects.OtherRecordsKept` | src/bonobo_core/passwordsafe/session.py:364-462 | a command keeps the handle, fields and relative place of every record it does not name |
| `Guards.AddKeepsAll` | src/bonobo_core/passwordsafe/session.py:389-403 | an added record comes last with the fields it was given, and every other record stays where it is |
| `RevisionHeap.LeaseHeap.CloseDocument` | src/bonobo_core/passwordsafe/model.py:443-461 | closing a revision closes each distinct owner once, owners that fail stay pending, and no other revision is touched |
| `RevisionHeap.LeaseHeap.ForkFields` | src/bonobo_core/passwordsafe/session.py:1045-1104 | each kept owner is retained once and each new buffer adopted once; fields with one origin share one lease |
| `RevisionHeap.LeaseHeap.Fork` | src/bonobo_core/passwordsafe/session.py:1045-1092 | a fork holds exactly what the plan asks for, and one that needs a closed owner leaves nothing behind |
| `RevisionHeap.LeaseHeap.RetainDocument` | src/bonobo_core/passwordsafe/model.py:395-424 | a copy reads what the original reads, sharing included |
| `RevisionHeap.SessionRevisions.Edit` | src/bonobo_core/passwordsafe/session.py:859-873 | the fork replaces its predecessor once that is closed; a predecessor that will not close undoes the edit |
| `RevisionHeap.SessionRevisions.BeginSave` | src/bonobo_core/passwordsafe/session.py:497-505 | a frozen copy reads what the live revision reads |
| `RevisionHeap.SessionRevisions.FinishSave` | src/bonobo_core/passwordsafe/session.py:521-556 | only a file that holds what was frozen becomes the live revision, and no failing close of a predecessor disturbs it |
| `RevisionHeap.SessionRevisions.AbortSave` | src/bonobo_core/passwordsafe/session.py:560-565 | a failed save gives the frozen copy back and leaves the live revision alone |
| `RevisionHeap.SessionRevisions.CloseResources` | src/bonobo_core/passwordsafe/session.py:910-935 | everything the session owns is closed or kept for another attempt |
| `RevisionHeap.SessionRevisions.FinishSuspend` | src/bonobo_core/passwordsafe/session.py:610-629 | the frozen copy is retired and the session ended |
| `RevisionHeap.SessionRevisions.NothingLeft` | src/bonobo_core/passwordsafe/session.py:910-968 | once the session has ended with nothing left over and every copy is closed, every buffer is wiped |
| `RevisionHeap.Drive` | src/bonobo_core/passwordsafe/session.py:490-968 | over every sequence of edits, saves, suspensions, exports and closings, any of them failing: a revision not closed reads the bytes it was made with, and a buffer is wiped exactly when its last owner is closed |

## Left out

- Twofish, SHA-256 and HMAC internals, the native binding and random generation: foreign code, taken as function parameters.
- Descriptors, permissions, fsync, Windows and Darwin directory handles: only the abstract directory operations and named locks are kept, each taken as one atomic step.
- Publication.LocalVaultStore.PublishSource: assumes a stable directory and at most one fault, so rollback steps after the first fault succeed.
- Publication.LocalVaultStore.Preserve: uncooperative writers between the last recheck and the rename are not modelled, as the code disclaims them.
- CooperatingWriters.RunExclusive: a sufficient schedule only; `LateRollbacks.RecoverableExactly` is the exact condition.
- LateRollbacks.SafeExactly: a writer that crashes while holding the lock and never rolls back is not a step.
- LateRollbacks.RecoverableExactly: recovery identifiers are never reused, as they come from 256-bit digests of random nonces.
- Sessions.RunStaysSaveable: resource limits are set aside, and identities are assumed to carry the accepted variant, because the statement is false without it.
- Sessions.RunKeepsFaithful: the change log of the model keeps the whole command where the code keeps its kind.
- VaultSessions.VaultSession.CompleteSave: comparison of the published size and digest with the reread snapshot is part of the caller here.
- VaultSessions.VaultSession.Discard: failures while closing payload owners and their later retry are modelled in `RevisionHeap`, not here.
- Edits.EncodedIsClean: typed edits carry the UTF-8 bytes of their text, so runtime type checks of values do not appear.
- Vaults.OpenSnapshot: the hardened second key derived for low iteration counts and the manifest of safe evidence are left out.
- Reader.ConsumeFieldPayload: the refusals for a short payload and for a digest mismatch are proved unreachable instead of being returned.
- Writer.WriteCandidate: the payload's iterator is assumed to split its own bytes; what is checked is chunk emptiness, length and padding.
- Pending.PendingSessionStore.Publish: a crash between the two slot renames leaves no visible slot; atomicity is claimed with rollback only.
- Pending.Drive: at most one fault strikes each request, and a rollback after it succeeds.
- Service.SaveSession: key iterations and their hardening are left out.
- SlotCodec.SlotRoundTrip: the other direction fails because decimal parsing accepts leading zeros.
- Application.VaultApplication.CommitEdit: draft contents, search text, selection and display labels are left out.
- Application.VaultApplication.SaveVault: the service's outcomes are refused, published and published-with-failure; `Coupling` shows the service's results to be among them.
- Coupling.Drive: closing with a decision, replacing one vault by another and discarding a stored artifact are not among the coupled commands; `Application.Drive` has them.
- Coupling.Deployment.SaveThrough: a save that publishes the very bytes it replaces counts as a disturbance, because baselines compare contents.
- Coupling.Deployment.EditThrough: the editor's drafts are patches and additions; moving and protecting records is not offered by the application.
- Application.Drive: clipboard, browser and search commands republish the prior snapshot and are left out.
- Executor.ReachableIsSafe: the thread pool, signal delivery and the wait for draining work are left out.
- Leases.Close: locks, iterator registration and physical memory are left out; one thread acts at a time.
- RevisionHeap.Drive: owners are inline buffers; deferred spans hold no plaintext. A close fails as a whole and leaves its buffer as it was.
- PayloadCompare.PayloadsEqual: closing of suspended generators is left out.
- Legacy export, passphrase change, recovery listing and the interoperability report: each reuses operations modelled here.
- Copy and pickle rejection, redacted representations and error-message mapping: single-branch facts.
