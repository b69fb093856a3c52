# Verification of the Basil signing paths

This project models, in Dafny, the parts of Basil whose correctness spans several functions or a
whole run, and proves what they promise. It has five components.

- **Nix cache signing batch.** Narinfo records are edited byte by byte, fingerprinted in canonical
  PATH_INFO_V1 form, signed through an RPC and committed one by one, with an audit trail.
  Modules `Narinfo`, `NarinfoEdits`, `EditOutcomes`, `NarinfoEditor`, `Fingerprint`, `CanonicalFingerprint`,
  `FingerprintBuilder`, `Signatures`, `SigningTarget`, `Audit`, `Batch`,
  `BatchRunner`, `BatchResume`, `BatchRerun`, `BatchTrail`, `BatchIdentity`,
  `BatchTurns`, `BatchCommands`, `CommandEffects`, `RemoveEffects`, `CommandEndings`, `DryRuns`;
  examples in `PlainRecord`, `FullRecord`, `RerunExample`.
- **NXSG external-signer provider.** A wire codec, and a listener whose concurrent handlers share
  one identity pin and three semaphores. Modules `NxsgCodec`, `Provider`, `ProviderSteps`,
  `ProviderSafety`, `ProviderRuns`, `ProviderReplies`, `WireLayouts`.
- **CI identity session.** A biased select loop with token refresh, expiry, admission and shutdown,
  and the bootstrap handshake before it. Modules `RefreshSchedule`, `Session`, `SessionPermits`,
  `SessionIdentities`, `SessionRuns`, `SessionAnswers`, `SessionOutcomes`, `SessionExamples`,
  `Bootstrap`, `SessionStart`.
- **Sealed invocation over a carrier.** Module `Carrier`.
- **Qualification helpers.** Module `BoundedBody`.

`Bytes`, `Sequences` and `Ordering` hold byte strings, UTF-8 (section 4 of RFC 3629), filtering,
counting and sorting. `Witnesses` shows that the laws assumed of cryptography can be met.

Loops and objects of the program are methods and classes, each proved equal to a specification
function; the theorems are about those functions. Concurrent parts are state machines: a function
gives the state after each step, a schedule is any sequence of enabled steps, and a theorem holds
for every schedule. Whatever the environment decides (RPC replies, cancellation, dropped futures,
I/O faults, random draws, chunk sizes, the clock) is a parameter of a step, and every theorem is
for all of them. `dafny verify dfyconfig.toml` checks everything.

## Where a promise needs a condition

- Repeating a replace does not always leave the record alone: `ReplaceIdempotentIff` gives the
  exact condition, `ReplaceNotIdempotentOnExample` a record, `ReplaceTwiceSettles` what is left.
- A dry run can announce a change that the real run refuses, when the record has no room for a
  signature: `DryRunAgreesIff`, with the record of `DryRunDisagreesOnFullRecord`. For removal the
  real run also checks the store path: `RemoveDryRunAgreesIff`.
- Free session permits and unjoined tasks do not always make 32: a panicked task gives its permit
  back before it is joined. `PermitBalance` states the exact sum and when it is 32.
- Stopping a replace and running it again need not give the cache of one uninterrupted run, for the
  same reason that a repeated replace need not settle: `RerunMatchesIff` gives the exact condition,
  `RerunDiffersOnExample` a batch.
- A trail is left open when its audit is dropped while a panic unwinds, and only then
  (`Audit.BatchAudit.Release`).
- A refreshed identity can be expired at the instant it is stored, because validity is checked
  first: by a wait for the write lock or by the clock alone. `InstalledExpiredIff` gives exactly
  these two roads, `ExpiredByWaiting` and `ExpiredByTheClock` a run for each. No answer is ever
  given under such an identity (`StableProof`).
- The expiry timer is rounded up to whole seconds, so that a session can be refreshed just after
  its expiry and go on: `ExpiryDeadline`, `OutlivesExpiry`. One refresh can start that late:
  `FailingSourceBound`, `AttemptsPastExpiry`.
- The loop reads the identity at its head and in the expiry branch, and while the write of its own
  refresh is queued those reads wait for a future that only the loop polls. `LoopCanTurnIff` and
  `TurnDoomsIff` say exactly when, `StuckForever` that it stays so, `StuckByAccepting` gives a run.
  So once the expiry timer is due and neither a signal nor a shutdown request is pending, the
  session ends if and only if no write is queued: `ExpiryEndsSession`.

## Assumptions

- Ed25519 verification, base64 and the sealing of requests are parameters. Base64 decoding undoes
  encoding and its alphabet has no line ending (`Lawful`); the request hash is injective and the
  broker can open what is sealed to it (`Perfect`); the carrier's verifier accepts only bytes that
  the broker signed.
- The theorems on signing assume a key name that is non-empty ASCII without colon or line ending,
  and a selection that names no record twice (the program's selection drops duplicates).
- The 64-bit counters of the audit saturate as in the program; a selection is at most 65536 records.
- Session time is counted in nanoseconds and never goes back; the monotonic and the system clock
  advance together. A timer is ready at every poll at or after its deadline, and any time may pass
  between polls and between two readings of the clock within one.
- The identity's lock is fair, as tokio's is: a reader waits behind a queued writer. A task holds
  its read guard over a step of its own.
- The write-lock section of the provider is modelled with more interleavings than the program has:
  a timeout may strike inside it.

## Model

| member | source | states |
|---|---|---|
| `Narinfo.LinesPartition` | crates/basil-core/src/core/nix_cache_file.rs:939-959 | cutting a record into lines loses nothing: every line but the last is terminated, no line holds an inner newline, and the lines glued together are the record |
| `Narinfo.LinesOfFlatten` | crates/basil-core/src/core/nix_cache_file.rs:939-959 | the inverse: well-formed lines glued together are cut back into exactly those lines |
| `NarinfoEditor.Validate` | crates/basil-core/src/core/nix_cache_file.rs:738-772 | the validation loop, with its octet counter, accepts exactly the records with no CR, only well-formed lines and exactly one `NarHash` line, and reports an oversized one first |
| `NarinfoEditor.FilterSignatures` | crates/basil-core/src/core/nix_cache_file.rs:872-888 | the copying loop yields the record without the named keys' lines exactly when every `Sig: ` line has a key, and refuses otherwise |
| `NarinfoEditor.Add` | crates/basil-core/src/core/nix_cache_file.rs:784-807 | the one-pass loop finds a conflict, an identical signature or room for an insertion exactly as the classification of all lines of that key says |
| `NarinfoEditor.EditRecord` | crates/basil-core/src/core/nix_cache_file.rs:723-736 | the whole edit, built from the loops, is the specified edit for each of add, replace and remove |
| `NarinfoEdits.LinesFiltered` | crates/basil-core/src/core/nix_cache_file.rs:872-888 | removal deletes whole lines: the lines of the result are the kept lines of the input, in order |
| `NarinfoEdits.FilteredContents` | crates/basil-core/src/core/nix_cache_file.rs:872-888 | removal empties the named keys and touches no other key's signatures and no other line |
| `NarinfoEdits.InsertedContents` | crates/basil-core/src/core/nix_cache_file.rs:890-928 | insertion puts one `Sig: ` line just after the last signature line (or at the end) and leaves every other line's content alone, whatever the final newline |
| `NarinfoEdits.EditKeepsValidity` | crates/basil-core/src/core/nix_cache_file.rs:723-736 | a successful edit of any kind yields a valid record |
| `NarinfoEdits.EditEffect` | crates/basil-core/src/core/nix_cache_file.rs:723-833 | for every key: other lines are untouched, removed keys lose all signatures, an added key carries only the new value (once if it had none or was removed), all other keys are unchanged |
| `EditOutcomes.EditOutcomeIff` | crates/basil-core/src/core/nix_cache_file.rs:723-928 | each answer of the editor, read off the record's lines and the arguments: accepted if and only if both are sound, no signature of the same key that stays differs from the added one, and a line that has to be inserted fits; a conflict, too large and invalid each if and only if |
| `EditOutcomes.EditUnchangedIff` | crates/basil-core/src/core/nix_cache_file.rs:784-833 | an accepted edit says that it changed the record exactly when it did, and (unless it removes the key it adds) exactly when a named key had a line or the signature to add was missing |
| `EditOutcomes.TakenIff` | crates/basil-core/src/core/nix_cache_file.rs:738-772 | the records the editor takes, spelled out: size, no carriage return, one nix32 `NarHash` line, and signature lines only of the form `Sig: `, non-empty ASCII key name, colon |
| `NarinfoEdits.AddAndRemoveSettle` | crates/basil-core/src/core/nix_cache_file.rs:784-833 | repeating an add or a remove changes nothing |
| `NarinfoEdits.ReplaceIdempotentIff` | crates/basil-core/src/core/nix_cache_file.rs:809-823 | repeating a replace changes nothing if and only if the new key is not among the removed names or the filtered record does not end at an open insertion point |
| `NarinfoEdits.ReplaceTwiceSettles` | crates/basil-core/src/core/nix_cache_file.rs:809-823 | a third replace never changes what the second left |
| `NarinfoEdits.ReplaceNotIdempotentOnExample` | crates/basil-core/src/core/nix_cache_file.rs:809-823 | a concrete record on which the repeated replace rewrites the record again |
| `FingerprintBuilder.ExactlyOneField` | crates/basil-bin/src/nix_cache_cli.rs:1268-1278 | the loop returns the value of a field exactly when one line carries its prefix |
| `FingerprintBuilder.Collect` | crates/basil-bin/src/nix_cache_cli.rs:1251-1266 | the loop over reference tokens returns the sorted tokens exactly when there are no more than the bound and each is a valid store base name (that they are distinct is found later, by the parser) |
| `FingerprintBuilder.MeasureReferences` | crates/basil-bin/src/nix_cache_cli.rs:1193-1249 | the checked additions give the exact rendered length or detect the overflow |
| `FingerprintBuilder.RenderLoop` | crates/basil-bin/src/nix_cache_cli.rs:1193-1249 | the rendering loop appends exactly the canonical text |
| `FingerprintBuilder.BuildFingerprint` | crates/basil-bin/src/nix_cache_cli.rs:1193-1249 | the imperative builder computes the specified fingerprint, or rejects, on every record |
| `CanonicalFingerprint.RenderedLengthExact` | crates/basil-bin/src/nix_cache_cli.rs:1193-1249 | the length computed before rendering is the exact length of the rendered text, so the size bound is exact |
| `CanonicalFingerprint.CanonicalPartsParse` | crates/basil-core/src/core/nix_cache_fingerprint.rs:27-79 | every rendering of canonical parts within the bound is accepted by the PATH_INFO_V1 parser |
| `CanonicalFingerprint.ParsedPartsCanonical` | crates/basil-core/src/core/nix_cache_fingerprint.rs:27-142 | and whatever rendering it accepts has canonical parts: strictly ascending, valid references, a canonical size and hash |
| `CanonicalFingerprint.FromFieldsIff` | crates/basil-bin/src/nix_cache_cli.rs:1193-1249 | a fingerprint is produced exactly from acceptable fields, and it is the rendering over the sorted references |
| `CanonicalFingerprint.FromNarinfoIff` | crates/basil-bin/src/nix_cache_cli.rs:1193-1278 | for a record with one line for each of the four fields, the fingerprint is the rendering of exactly those values, or none, by the same condition |
| `CanonicalFingerprint.MissingField` | crates/basil-bin/src/nix_cache_cli.rs:1268-1278 | a record in which one of the four fields is missing or repeated has no fingerprint |
| `PlainRecord.PlainFingerprint` | crates/basil-bin/src/nix_cache_cli.rs:1193-1249 | the fingerprint of a concrete record, written out octet for octet |
| `CanonicalFingerprint.DependsOnFieldLines` | crates/basil-bin/src/nix_cache_cli.rs:1193-1278 | result or rejection depends only on the bag of lines that carry one of the four fields |
| `CanonicalFingerprint.LineOrderIrrelevant` | crates/basil-bin/src/nix_cache_cli.rs:1193-1278 | permuting the lines of a record changes neither the fingerprint nor its rejection |
| `CanonicalFingerprint.ReferenceOrderIrrelevant` | crates/basil-bin/src/nix_cache_cli.rs:1251-1266 | permuting the reference tokens changes neither |
| `CanonicalFingerprint.SignaturesIrrelevant` | crates/basil-bin/src/nix_cache_cli.rs:1193-1278 | adding or removing `Sig: ` lines changes neither |
| `CanonicalFingerprint.RenderInjective` | crates/basil-bin/src/nix_cache_cli.rs:1193-1249 | different canonical parts never render to the same text |
| `CanonicalFingerprint.FingerprintDetermines` | crates/basil-bin/src/nix_cache_cli.rs:1193-1278 | two records with the same fingerprint agree on path, hash, size and the bag of references |
| `Signatures.InspectExistingSignature` | crates/basil-bin/src/nix_cache_cli.rs:1123-1166 | the loop over all lines computes the specified classification |
| `Signatures.VerifiedIff` | crates/basil-bin/src/nix_cache_cli.rs:1123-1166 | verified with a value exactly when at least one line carries the key name and all such lines are canonical, verify, and equal that value |
| `Signatures.AbsentIff` | crates/basil-bin/src/nix_cache_cli.rs:1123-1166 | absent exactly when no line carries the key name; with `VerifiedIff`, everything else is a conflict |
| `Signatures.InspectOrderIrrelevant` | crates/basil-bin/src/nix_cache_cli.rs:1123-1166 | the answer does not depend on the order of lines |
| `Signatures.InspectedLines` | crates/basil-bin/src/nix_cache_cli.rs:1123-1166 | the lines inspected by prefix are exactly the lines the editor attributes to that key |
| `SigningTarget.VerifiedMeansIff` | crates/basil-bin/src/nix_cache_cli.rs:1123-1191 | verified means: the key has lines, and all are the canonical text of one 64-octet signature that verifies over the fingerprint; and everything that is so is verified |
| `SigningTarget.ValidationIff` | crates/basil-bin/src/nix_cache_cli.rs:1168-1180 | the removal of no key accepts a record exactly when it is valid |
| `SigningTarget.NeededSignatureEdit` | crates/basil-bin/src/nix_cache_cli.rs:648-719 | what installing a freshly produced signature does: a changed record with room, the two refusals without |
| `SigningTarget.EditedRecordSettles` | crates/basil-bin/src/nix_cache_cli.rs:648-719 | after an edit with a genuine signature the record has the same fingerprint, is verified under that value, and needs no further signature |
| `SigningTarget.DryRunAgreesIff` | crates/basil-bin/src/nix_cache_cli.rs:1022-1076 | the sign and replace preview says unchanged, would-change or the same refusal as the real run if and only if a signature that would be needed fits the record |
| `SigningTarget.RemoveDryRunAgreesIff` | crates/basil-bin/src/nix_cache_cli.rs:858-863 | the remove preview agrees with the real run if and only if the record is invalid or passes the store-path check that only the real run makes |
| `FullRecord.DryRunDisagreesOnFullRecord` | crates/basil-bin/src/nix_cache_cli.rs:1022-1076 | on one concrete record of exactly the size limit every dry run announces a change and every real run refuses |
| `DryRuns.PreviewComesTrueIff` | crates/basil-bin/src/nix_cache_cli.rs:997-1076 | for sign and replace, against a real turn that nothing disturbs: would-change, unchanged and refused come true if and only if a signature the record needs has room |
| `DryRuns.RemovePreviewComesTrueIff` | crates/basil-bin/src/nix_cache_cli.rs:997-1076 | for remove, if and only if the record is invalid or has the selected store path |
| `Audit.CommitKeepsOpen` | crates/basil-bin/src/nix_cache_mutation_audit.rs:143-180 | a path commit extends an open trail and is counted |
| `Audit.EndCloses` | crates/basil-bin/src/nix_cache_mutation_audit.rs:182-222 | every terminal event closes an open trail with the counters as they are, and dropping the audit afterwards adds nothing |
| `Audit.DropCloses` | crates/basil-bin/src/nix_cache_mutation_audit.rs:297-303 | dropping adds the task-cancelled event exactly when no terminal event was written |
| `Audit.BatchAudit.constructor` | crates/basil-bin/src/nix_cache_mutation_audit.rs:98-120 | a new audit has emitted its start event and nothing else |
| `Audit.BatchAudit.RecordCommit` | crates/basil-bin/src/nix_cache_mutation_audit.rs:143-180 | counters and event as specified; an open trail stays open |
| `Audit.BatchAudit.Terminate` | crates/basil-bin/src/nix_cache_mutation_audit.rs:182-222 | one terminal event with the current counters; an open trail becomes closed |
| `Audit.BatchAudit.Release` | crates/basil-bin/src/nix_cache_mutation_audit.rs:297-303 | dropping an audit whose trail is open or closed leaves it closed exactly when it was closed or no panic is unwinding |
| `BatchRunner.DrawFreshId` | crates/basil-bin/src/nix_cache_cli.rs:151-172 | the bounded drawing loop returns the first non-zero draw outside the excluded set, or nothing after eight |
| `BatchTurns.FreshIdIff` | crates/basil-bin/src/nix_cache_cli.rs:151-172 | a fresh ID is the first of at most eight draws that is neither zero nor used; there is none exactly when all of those are |
| `BatchTurns.StorePathIs` | crates/basil-bin/src/nix_cache_cli.rs:667-674 | the path a commit event names is the value of the record's one `StorePath` line |
| `BatchTurns.SelectedIff` | crates/basil-bin/src/nix_cache_cli.rs:913-927 | a record is the selected one exactly when it has one `StorePath` line with the expected path, or hash; a record with a fingerprint is |
| `BatchRunner.CommitKeeps` | crates/basil-core/src/core/nix_cache_file.rs:400-444 | a commit is all or nothing and touches no other record |
| `BatchRunner.Runner.Run` | crates/basil-bin/src/nix_cache_cli.rs:525-619 | the imperative loop over the selected records, its last checkpoint and its terminal event compute the specified run; the theorems on runs are about that function |
| `BatchResume.RequestedIsGenuine` | crates/basil-bin/src/nix_cache_cli.rs:929-959 | asking for a signature makes at most one RPC, over this record's fingerprint and under an ID that is non-zero and never used before; a value accepted for use verifies under the key and carries that ID |
| `BatchResume.FinishedRenews` | crates/basil-bin/src/nix_cache_cli.rs:648-719 | a finished record keeps its unsigned lines, its fingerprint and the signatures of all keys neither written nor removed, verifies under the key, has no signature left under a removed name, and would ask for no other signature |
| `BatchResume.SignTargetEffect` | crates/basil-bin/src/nix_cache_cli.rs:648-719 | one target: nothing else in the cache moves; its record is byte-identical or its own old bytes edited with one genuine signature; a finished target is finished from those old bytes; and an RPC is made only for an unsettled one |
| `BatchResume.StepEffect` | crates/basil-bin/src/nix_cache_cli.rs:525-619 | the same for a whole turn of the loop with its checkpoint, audit entry and output, whichever of them stops it |
| `BatchTurns.TurnFinishesIff` | crates/basil-bin/src/nix_cache_cli.rs:593-880 | a turn of any batch finishes exactly when it is not cancelled, reads its record, the record and (for signing) the broker's answer let the job be done, a changed record is committed for good, and the output line is written |
| `BatchTurns.TurnHaltIff` | crates/basil-bin/src/nix_cache_cli.rs:593-880 | why a turn stops: dropped or cancelled exactly where it waits, output failed exactly after the record was done, otherwise operation failed |
| `BatchTurns.TurnAsksIff` | crates/basil-bin/src/nix_cache_cli.rs:929-959 | exactly one Sign RPC, with which fields, for a sound record without a verified signature when a fresh ID is found and it is not cancelled before sending; none for any other |
| `BatchTurns.TurnRecords` | crates/basil-bin/src/nix_cache_cli.rs:602-636 | a changed and durable record adds one path commit with its own path, fingerprint, RPC and source; an unchanged one is counted so; a signature counts as produced if this turn asked for it and as reused if not |
| `BatchResume.RunKeepsOthers` | crates/basil-bin/src/nix_cache_cli.rs:602-610 | records that are not selected never change |
| `BatchResume.RunCache` | crates/basil-bin/src/nix_cache_cli.rs:525-619 | after any run, however it stops: finished records are finished from their own old bytes, the one at the stop is byte-identical or its old bytes edited with one genuine signature, all later ones are byte-identical |
| `BatchResume.RunCalls` | crates/basil-bin/src/nix_cache_cli.rs:525-619 | every Sign RPC of a run is for a record that was not settled before the run |
| `BatchCommands.RunCompletesIff` | crates/basil-bin/src/nix_cache_cli.rs:525-619 | a batch loop runs to its end exactly when every record lets its turn be done |
| `BatchCommands.RunTells` | crates/basil-bin/src/nix_cache_cli.rs:525-636 | the path commits of a run, however it stops, are the changed records in order, up to the one it stopped at; a completed run names them all and counts the others |
| `BatchCommands.RunObserves` | crates/basil-bin/src/nix_cache_cli.rs:648-719 | in a completed signing run every Sign RPC is one produced signature and every other record one reused signature |
| `BatchCommands.PreviewRun` | crates/basil-bin/src/nix_cache_cli.rs:997-1020 | a dry run changes nothing and asks for nothing, and a completed one has counted each record by what its preview says |
| `CommandEffects.CommandSigns` | crates/basil-bin/src/nix_cache_cli.rs:282-619 | what a whole sign or replace command does to the cache, told from its arguments: a dry run nothing; a real one nothing to unselected records, and to each selected one nothing or a signing that keeps fingerprint, other lines and other keys, removes exactly the old names and leaves one verifying signature of the described key; a completed one has so signed them all |
| `CommandEffects.CommandCompletesIff` | crates/basil-bin/src/nix_cache_cli.rs:282-619 | it completes if and only if everything before the loop went well, each selected record is signable (in a dry run: not refused) in its environment, and it is not cancelled at the end |
| `CommandEffects.CommandTells` | crates/basil-bin/src/nix_cache_cli.rs:282-636 | its path commits are exactly its changed records in order; selected, untouched, produced, reused and would-change counters of a completed command are the numbers they name |
| `RemoveEffects.CommandStrips` | crates/basil-bin/src/nix_cache_cli.rs:764-880 | a remove command: a dry run changes nothing; a real one empties exactly the named keys of selected records, keeping every other line; a completed one has so stripped them all |
| `RemoveEffects.RemovalCompletesIff` | crates/basil-bin/src/nix_cache_cli.rs:764-880 | it completes if and only if it is prepared, each selected record is readable, valid and (in a real run) of the selected path, what changes is committed for good, and every output line is written |
| `RemoveEffects.RemovalTells` | crates/basil-bin/src/nix_cache_cli.rs:764-880 | its path commits and counters, as for the other commands |
| `CommandEndings.EarlyStopTells` | crates/basil-bin/src/nix_cache_cli.rs:282-355 | a command that does not come to its loop stops for the first thing that went wrong, with which reason |
| `CommandEndings.LoopStopTells` | crates/basil-bin/src/nix_cache_cli.rs:525-619 | one in its loop stops with the reason of the first turn that does not finish, or of the last checkpoint |
| `CommandEndings.RemovalStopTells` | crates/basil-bin/src/nix_cache_cli.rs:764-847 | the same for a remove command that does not come to its loop |
| `CommandEndings.RemovalLoopStopTells` | crates/basil-bin/src/nix_cache_cli.rs:818-880 | and for one in its loop |
| `BatchResume.ResumeConverges` | crates/basil-bin/src/nix_cache_cli.rs:525-619 | after any stop of a first run, a second run makes no Sign RPC for a record the first one changed; through both runs every record keeps its unsigned lines and the other keys' signatures; and if the second completes, every target, compared with what the first run found, keeps its fingerprint, verifies under the key and has lost the removed keys |
| `BatchRerun.StepBytes` | crates/basil-bin/src/nix_cache_cli.rs:593-880 | with a signer that is a function of the fingerprint, a turn of a signing or removal batch leaves its record alone or makes it one determined sequence of bytes, and the latter whenever it finishes |
| `BatchRerun.RunBytes` | crates/basil-bin/src/nix_cache_cli.rs:525-619 | the same over every run, however it stops: what it writes is determined, byte for byte, by what it found and how far it came |
| `BatchRerun.TwiceIff` | crates/basil-bin/src/nix_cache_cli.rs:648-880 | doing the job twice on one record gives the same bytes as once if and only if the first changed nothing or the record settles at once |
| `BatchRerun.RerunMatchesIff` | crates/basil-bin/src/nix_cache_cli.rs:525-619 | a stopped run followed by a completed rerun leaves the same cache as one uninterrupted run if and only if each record the stopped run changed is one that settles at once (always so for sign and remove; for replace, unless the new key is removed and the filtered record ends at an open insertion point) |
| `RerunExample.SmoothTurnIff` | crates/basil-bin/src/nix_cache_cli.rs:593-880 | a turn that nothing disturbs writes its record exactly when the job can be done on it, and finishes exactly when its output line is written too |
| `RerunExample.StopShows` | crates/basil-bin/src/nix_cache_cli.rs:525-619 | for every record that lacks its signature and ends unsigned without a newline, and a replace of the key by itself: stopped by its output after the commit, the rerun completes and changes the cache again |
| `RerunExample.RerunDiffersOnExample` | crates/basil-bin/src/nix_cache_cli.rs:525-619 | one concrete record, key and environment on which the stopped and repeated replace and the uninterrupted one leave different caches |
| `BatchTrail.StepBalance` | crates/basil-bin/src/nix_cache_cli.rs:602-636 | one turn accounts for one record: the counters match the job, and a stop leaves at most one record half-accounted |
| `BatchTrail.RunBalance` | crates/basil-bin/src/nix_cache_cli.rs:525-636 | the same over the loop: all selected records are accounted for exactly when it ran to the end |
| `BatchTrail.SignTargetAudit` | crates/basil-bin/src/nix_cache_cli.rs:648-719 | signing one record counts exactly one produced or reused signature when it succeeds and at most one when it does not, emits no event and moves no other counter |
| `BatchTrail.LoopIsTruthful` | crates/basil-bin/src/nix_cache_cli.rs:525-619 | the trail of every batch loop is closed, truthful and consistent with how it ended |
| `BatchTrail.SigningTrail` | crates/basil-bin/src/nix_cache_cli.rs:282-355 | every sign or replace command that starts its audit, stopped at any await by error, signal or drop, emits one start, path commits, one terminal event whose counters match and which tells exactly how it ended (completed, failed with that reason, cancelled by that signal, task cancelled); completion balances exactly; a dry run commits nothing |
| `BatchTrail.RemoveTrail` | crates/basil-bin/src/nix_cache_cli.rs:764-806 | the same for removal commands |
| `BatchTrail.RunCorrelated` | crates/basil-bin/src/nix_cache_cli.rs:593-636 | over the loop, RPC IDs stay distinct and every path commit with a produced signature carries the ID of the Sign RPC made over its fingerprint, reused ones none |
| `BatchTrail.CommandCorrelated` | crates/basil-bin/src/nix_cache_cli.rs:299-355 | for the whole command: the batch ID is non-zero, on every RPC and every event, and distinct from all request IDs, which are distinct from each other |
| `BatchIdentity.EventsNameDescribedKey` | crates/basil-bin/src/nix_cache_cli.rs:282-355 | for the whole command: every event says its operation, key ID and flags; the start event names no key; every later event carries the key name and backend version that the describe call answered, and none if it did not answer |
| `NxsgCodec.HeaderIff` | crates/basil-bin/src/nix_provider.rs:549-625 | a header is accepted exactly when it is the encoding of a valid request header |
| `NxsgCodec.HeaderRefusals` | crates/basil-bin/src/nix_provider.rs:549-625 | which headers are closed silently, refused for their version, or refused as malformed, each if and only if |
| `NxsgCodec.ResponseIsNoRequest` | crates/basil-bin/src/nix_provider.rs:549-625 | a response header is never accepted as a request |
| `NxsgCodec.RequestIff` | crates/basil-bin/src/nix_provider.rs:522-547 | an input is accepted exactly when it is one header and one body of the announced length, read to its end without a read error, and is then the only encoding of its result |
| `NxsgCodec.RequestRefusedIff` | crates/basil-bin/src/nix_provider.rs:522-625 | how every input that is not accepted is met, each if and only if: silence for one too short or no request, unsupported version, malformed (a wrong flag, length or read error) |
| `NxsgCodec.RequestRefusalEchoes` | crates/basil-bin/src/nix_provider.rs:522-625 | an answered refusal carries the input's own IDs and its type plus 0x80 |
| `NxsgCodec.SignBodyIff` | crates/basil-bin/src/nix_provider.rs:627-680 | a sign body parses to a tuple exactly when it is the encoding of that valid tuple |
| `NxsgCodec.SignBodyPrefixFree` | crates/basil-bin/src/nix_provider.rs:627-680 | no proper prefix or extension of an accepted body is accepted |
| `NxsgCodec.ZeroEndpointIff` | crates/basil-bin/src/nix_provider.rs:627-680 | a body is a key mismatch exactly when its name is valid and its endpoint all zero; every other failure is malformed |
| `NxsgCodec.SignBoundIsLeast` | crates/basil-bin/src/nix_provider.rs:35-35 | 524808 is the least bound that admits every body the client can ask for |
| `NxsgCodec.ResponseTruthfulIff` | crates/basil-bin/src/nix_provider.rs:736-747 | a response frame states its own length, type, status and IDs truthfully if and only if its body length fits the field |
| `NxsgCodec.StatusOnTheWire` | crates/basil-bin/src/nix_provider.rs:98-118 | the type and status octets of every response frame, number by number |
| `WireLayouts.FrameLayout` | crates/basil-bin/src/nix_provider.rs:736-747 | where each part of a frame lies: magic, version, type, status, flags, length, IDs, body |
| `WireLayouts.SignBodyLayout` | crates/basil-bin/src/nix_provider.rs:627-680 | where each part of a sign request lies |
| `WireLayouts.DescribeLayout` | crates/basil-bin/src/nix_provider.rs:705-713 | where each part of a describe reply lies |
| `WireLayouts.SignReplyLayout` | crates/basil-bin/src/nix_provider.rs:715-734 | where each part of a sign reply lies |
| `NxsgCodec.DescribeRoundTrip` | crates/basil-bin/src/nix_provider.rs:705-713 | a describe reply for a validated identity reads back as that identity and endpoint: the zero-length fallback is never taken |
| `NxsgCodec.SignReplyRoundTrip` | crates/basil-bin/src/nix_provider.rs:715-734 | a sign reply for a validated identity reads back as its name, key, endpoint and signature |
| `NxsgCodec.EncodeDiagnostic` | crates/basil-bin/src/nix_provider.rs:749-766 | the loop over characters computes the specified diagnostic |
| `NxsgCodec.DiagnosticText` | crates/basil-bin/src/nix_provider.rs:749-766 | the diagnostic text is the longest prefix of the control-stripped message that fits 1024 bytes of UTF-8 |
| `NxsgCodec.LongestFittingUnique` | crates/basil-bin/src/nix_provider.rs:749-766 | there is only one such prefix |
| `NxsgCodec.DiagnosticWellFormed` | crates/basil-bin/src/nix_provider.rs:749-766 | a diagnostic body announces its length truthfully and is well-formed UTF-8 |
| `ProviderSteps.EveryTaskSteps` | crates/basil-bin/src/nix_provider.rs:268-455 | every step of a connection task touches that task alone, moves exactly the permits it takes or gives back, and changes the lock and the pin only through the lock's holder |
| `ProviderSteps.EveryTaskAdvances` | crates/basil-bin/src/nix_provider.rs:268-455 | every step of a task, an abort included, brings that task and no other closer to its end |
| `ProviderRuns.StepLocking` | crates/basil-bin/src/nix_provider.rs:364-389 | the writer is the one task in the critical section, a task about to store still finds the pin empty, and a set pin never changes |
| `ProviderRuns.RunIsSafe` | crates/basil-bin/src/nix_provider.rs:268-455 | every schedule of concurrent handlers, replies, timeouts and aborts keeps the whole invariant and only extends the logs |
| `ProviderRuns.PinOverRuns` | crates/basil-bin/src/nix_provider.rs:364-455 | over a listener's life the pin is set at most once and to a validated identity; every OK reply speaks for it (name, key, endpoint, and a signature that verifies over the asked fingerprint); every Sign RPC was made for the pinned key, this endpoint and a canonical fingerprint |
| `ProviderRuns.FramesOverRuns` | crates/basil-bin/src/nix_provider.rs:336-362 | every written frame is truthful, echoes its connection's request, is the only one on its connection, and has a status that request explains: a version refusal or malformed only for an input so refused (a failed read included), a key mismatch only for a zero endpoint, no pin, or a tuple that differs from the pin, an invalid fingerprint only for a pinned, correctly addressed request without a canonical one |
| `ProviderReplies.StepRepliesIff` | crates/basil-bin/src/nix_provider.rs:336-471 | which steps decide a reply, if and only if, and why its status is what it is: refused input, overload responder, backend error by error, key invalid or changed, not the pinned tuple, no canonical fingerprint, all eight sign permits taken, answer not fit to pass on; an OK body reads back to exactly the key or signature |
| `ProviderReplies.StepCallsIff` | crates/basil-bin/src/nix_provider.rs:364-455 | the backend is called exactly for a describe request and for an admitted sign request, with which fields |
| `ProviderReplies.FramesHaveReasons` | crates/basil-bin/src/nix_provider.rs:268-471 | over every run each frame was decided by one step of its own task, for that step's reason |
| `ProviderReplies.AnswerArrives` | crates/basil-bin/src/nix_provider.rs:326-362 | from any state of any run, a decided reply waits for its write whatever the other tasks do, and a complete write sends it |
| `ProviderReplies.SignAnsweredIff` | crates/basil-bin/src/nix_provider.rs:391-455 | a sign call that returns is answered OK if and only if the backend spoke for the pinned key with a 64-octet signature that verifies over the asked fingerprint, and then with exactly that signature |
| `ProviderReplies.DescribesOverRuns` | crates/basil-bin/src/nix_provider.rs:364-389 | over every run a describe call is answered OK if and only if the backend described a valid key that is the pin for good, and with exactly that key; unavailable if another key is pinned, internal if it is invalid |
| `ProviderRuns.AdmissionOverRuns` | crates/basil-bin/src/nix_provider.rs:285-312 | a stream is handled by a handler, given to the overload responder or dropped, the last exactly when all 33 are busy; at most 32 handlers, 1 responder and 8 sign permits at any time |
| `ProviderRuns.PermitsComeBack` | crates/basil-bin/src/nix_provider.rs:268-334 | when all tasks are over, by completion, timeout or abort, every permit and the lock are free |
| `ProviderRuns.ShutdownOverRuns` | crates/basil-bin/src/nix_provider.rs:320-324 | after the stop, in every interleaving of the tasks' own remaining steps and their aborts: no connection is accepted, at most six steps are taken per task, a task that is not over can be aborted, and once all are over every permit and the lock are free |
| `RefreshSchedule.RefreshAtIff` | crates/basil-bin/src/ci_session.rs:1301-1311 | a first refresh exists exactly while the identity lives, lies in [now, valid_until), and precedes the end by a fifth of the rest, but no less than 1 and no more than 30 seconds |
| `RefreshSchedule.RefreshAfterSuccessIff` | crates/basil-bin/src/ci_session.rs:1313-1315 | after a success it is strictly later than now, and absent exactly when at most a second is left |
| `RefreshSchedule.RetryRefreshIff` | crates/basil-bin/src/ci_session.rs:1317-1324 | after a failure it is exactly now + 1, if the identity still lives then |
| `RefreshSchedule.ValidUntilIff` | crates/basil-bin/src/ci_session.rs:908-937 | the effective validity is the smaller of expiry and issue time plus maximum age, and exists exactly for a positive span without overflow |
| `RefreshSchedule.InstantBounds` | crates/basil-bin/src/ci_session.rs:1326-1329 | a timer armed for a Unix second never fires before it, may be up to a second and the arming lag late, and is due at once when armed in or after its second |
| `SessionPermits.PermitBalance` | crates/basil-bin/src/ci_session.rs:497-596 | in every reachable state free permits plus unjoined tasks are 32 plus the panicked tasks not yet joined, so 32 if and only if there are none |
| `SessionPermits.PermitBalanceExample` | crates/basil-bin/src/ci_session.rs:1130-1159 | a concrete run in which they are 33 |
| `SessionPermits.AdmissionOverRuns` | crates/basil-bin/src/ci_session.rs:547-580 | under the guard on the task count a control connection always gets its permit, and an adapter connection is turned away exactly while another adapter handler is unfinished |
| `SessionPermits.ControlNeverRefused` | crates/basil-bin/src/ci_session.rs:547-560 | over whole runs no accepted control connection goes without a permit |
| `SessionPermits.OneShotOverRuns` | crates/basil-bin/src/ci_qualification.rs:429-446 | the one-shot adapter is invoked at most once per session, and never again once its claim is spent, a malformed first frame included |
| `SessionAnswers.HandlerGoesOnIff` | crates/basil-bin/src/ci_session.rs:1177-1239 | each step of an adapter handler goes on if and only if: the claim was free, the frame decoded, the identity (the current one when captured) is unexpired, the invocation succeeded and it still is |
| `SessionAnswers.AnswersAreEarned` | crates/basil-bin/src/ci_session.rs:1177-1239 | over every run each OK answer was earned by one connection that went through all of these, the last at the stated time |
| `SessionAnswers.ReturnIsAnswered` | crates/basil-bin/src/ci_session.rs:1222-1239 | an invocation that returns is answered whatever the session does meanwhile: its complete reply adds one OK answer if it succeeded with its identity unexpired, and none if not |
| `SessionPermits.PermitsComeBack` | crates/basil-bin/src/ci_session.rs:1168-1175 | however the session ended, in every order of aborts, remaining steps and joins: once all tasks are joined, all 32 permits and the adapter slot are free, and until then there is a task left to join |
| `SessionPermits.ReapJoins` | crates/basil-bin/src/ci_session.rs:1168-1175 | after the end each join leaves one unjoined task fewer and nothing else changes their number |
| `SessionRuns.StableProof` | crates/basil-bin/src/ci_session.rs:855-884 | every identity ever installed keeps the published proof and audience, has the smaller of its two limits as validity and was found valid no later than its installation; every OK adapter answer was given under an installed identity unexpired when its invocation finished |
| `SessionRuns.FailedRefreshKeeps` | crates/basil-bin/src/ci_session.rs:886-899 | a failed refresh leaves the identity and the installs as they were |
| `SessionRuns.InstallsIff` | crates/basil-bin/src/ci_session.rs:526-538 | a turn of the loop installs exactly when it comes to the refresh branch and the refresh stores in that poll, and then it is exactly that one identity |
| `SessionRuns.InstalledExpiredIff` | crates/basil-bin/src/ci_session.rs:855-884 | a turn installs an identity already expired if and only if it polls the refresh, no reader holds the lock, and either a write that had been waiting is stored no earlier than its validity end, or a token is checked before that end and stored, in the same poll, no earlier than it |
| `SessionExamples.ExpiredByTheClock` | crates/basil-bin/src/ci_session.rs:873-884 | a concrete run of the first road: the clock passes the end between the check and the store |
| `SessionExamples.ExpiredByWaiting` | crates/basil-bin/src/ci_session.rs:873-884 | a concrete run of the second: the write waits for a reader past the end |
| `SessionRuns.ScheduleOverRuns` | crates/basil-bin/src/ci_session.rs:500-546 | every refresh was scheduled in [now, valid_until), strictly later after a success and at now + 1 after a failure; scheduled times strictly increase; one refresh is in flight at most |
| `SessionRuns.FailingSourceBound` | crates/basil-bin/src/ci_session.rs:886-906 | while nothing is installed, from any state of any run, the further attempts are at most the seconds left to the identity, or one if a refresh is still pending when none are left |
| `SessionRuns.AttemptsFromStart` | crates/basil-bin/src/ci_session.rs:500-546 | from the start of a session with a source that always fails: at most valid_until - now attempts |
| `SessionExamples.AttemptsPastExpiry` | crates/basil-bin/src/ci_session.rs:507-546 | a concrete run in which that one attempt is started after the expiry |
| `SessionRuns.UndisturbedEndsExpired` | crates/basil-bin/src/ci_session.rs:511-595 | absent a signal, a shutdown request and a listener or task failure, a session that ends has ended as expired, after its expiry |
| `SessionOutcomes.EndingsHaveCauses` | crates/basil-bin/src/ci_session.rs:497-596 | over every run a shutdown is pending exactly if a control client asked for it, and an ending by signal, shutdown, failed listener, failed task or expiry has its cause in the run |
| `SessionOutcomes.TurnEndsIff` | crates/basil-bin/src/ci_session.rs:511-589 | which ending a poll of the select brings, each if and only if |
| `SessionOutcomes.TurnStartsIff` | crates/basil-bin/src/ci_session.rs:539-546 | a poll starts a refresh exactly when it is due, none is in flight and nothing more urgent is ready |
| `SessionOutcomes.RefreshDeadline` | crates/basil-bin/src/ci_session.rs:506-509 | a scheduled refresh is due within a second and the arming lag after its second, never before it |
| `SessionOutcomes.RefreshSchedulesNext` | crates/basil-bin/src/ci_session.rs:526-538 | a completed refresh schedules the next from the new identity after a success, and from the old one after a failure while that lives |
| `SessionOutcomes.TurnAdmitsIff` | crates/basil-bin/src/ci_session.rs:547-580 | a poll takes in a connection, and of which kind, exactly when it comes to the listeners, one is ready and there are permits |
| `SessionRuns.ExpiryEndsSession` | crates/basil-bin/src/ci_session.rs:521-525 | in every reachable state with the expiry timer due, the next turn ends by a pending signal or shutdown request, or else goes to the expiry check; there it ends as expired if no write is queued, and is stuck if and only if one is |
| `SessionRuns.ExpiryDeadline` | crates/basil-bin/src/ci_session.rs:506-510 | the expiry timer is due within a second and the arming lag after the expiry, never before it, and at once when armed past it |
| `SessionExamples.OutlivesExpiry` | crates/basil-bin/src/ci_session.rs:506-538 | a concrete run in which a refresh completes after the expiry and before its timer, and the session goes on |
| `SessionRuns.LoopCanTurnIff` | crates/basil-bin/src/ci_session.rs:502-589 | a serving loop can take a step exactly when it is not waiting for its own read of the identity behind the write queued in its own refresh |
| `SessionRuns.StuckForever` | crates/basil-bin/src/ci_session.rs:502-589 | once it is, no schedule of tasks, clock, signals or requests lets it turn again or changes the identity |
| `SessionRuns.TurnDoomsIff` | crates/basil-bin/src/ci_session.rs:511-589 | a turn brings that about if and only if no signal or shutdown is pending and either the expiry timer is due with the write queued, or the refresh is left queued by this poll while another branch is taken |
| `SessionRuns.DoomedForever` | crates/basil-bin/src/ci_session.rs:502-505 | after such a turn the only ending left is a panicked task found while reclaiming at the head of the loop |
| `SessionExamples.StuckByAccepting` | crates/basil-bin/src/ci_session.rs:502-560 | a concrete run into it: a connection is accepted while the write is queued |
| `Bootstrap.FrameIff` | crates/basil-bin/src/ci_session.rs:370-432 | a frame is read exactly from the streams that begin with the encoding of that valid frame |
| `Bootstrap.HandshakeIff` | crates/basil-bin/src/ci_session.rs:370-445 | frame then commit is accepted exactly when the stream is the encoding of four in-bound UTF-8 fields with a known provider, then byte 1, then the end |
| `WireLayouts.BootstrapLayout` | crates/basil-bin/src/ci_session.rs:370-398 | where each part of the bootstrap frame lies |
| `Bootstrap.BootstrapInput.Read` | crates/basil-bin/src/ci_session.rs:333-347 | one short read: any positive number of available bytes, none exactly at the end |
| `Bootstrap.BootstrapInput.ReadExact` | crates/basil-bin/src/ci_session.rs:349-367 | for every chunking the buffer is filled with exactly the next bytes, or the input is at its end |
| `Bootstrap.CheckLengths` | crates/basil-bin/src/ci_session.rs:379-398 | the loop over the length fields accepts exactly the headers within all bounds |
| `Bootstrap.BootstrapInput.ReadFields` | crates/basil-bin/src/ci_session.rs:399-432 | the loop over the fields, each through short reads, yields the specified frame |
| `Bootstrap.BootstrapInput.ReadFrame` | crates/basil-bin/src/ci_session.rs:370-432 | the frame is the specified one whatever the chunking, and at most 65536 bytes are consumed in every case |
| `Bootstrap.BootstrapInput.ReadCommit` | crates/basil-bin/src/ci_session.rs:434-445 | the commit is accepted exactly when the rest of the input is the byte 1 |
| `Bootstrap.BootstrapInput.ReadHandshake` | crates/basil-bin/src/ci_session.rs:370-445 | both together accept exactly the encodings, for every chunking |
| `SessionStart.ServesOnlyAfterCommit` | crates/basil-bin/src/ci_session.rs:698-734 | serving begins only after the outputs were published and then the commit was observed complete, byte and end of input |
| `SessionStart.ServesIff` | crates/basil-bin/src/ci_session.rs:698-734 | and it begins if and only if, without a signal, preparation succeeds while the commit is incomplete, the outputs are written, and then the rest of the commit is read, however spread over the polls |
| `SessionStart.EarlyCommitStops` | crates/basil-bin/src/ci_session.rs:711-721 | a commit observed complete before publication stops the session for good |
| `Carrier.SignaturesAreAnswers` | crates/basil-client/src/sealed_invocation.rs:826-906 | with any number of outstanding requests and any carrier, every returned signature is the broker's OK answer to exactly that request's bytes and message, in a message that a pinned key signed for this caller and that was issued, unexpired and for an allowed audience by the time it was judged by |
| `Carrier.NoCrossTalk` | crates/basil-client/src/sealed_invocation.rs:599-640 | a reply made for other request bytes is never taken |
| `Carrier.HonestAnswerAcceptedIff` | crates/basil-client/src/sealed_invocation.rs:826-906 | the broker's own OK answer yields exactly its signature if and only if a pinned key signed it, it is not empty, and it is timely |
| `Carrier.RejectionTells` | crates/basil-client/src/sealed_invocation.rs:599-640 | what each rejection says about the message that was rejected |
| `Carrier.PinnedBrokerVerifier` | crates/basil-client/src/sealed_invocation.rs:656-681 | the verifier is built exactly when there is a key and all entries are sound, then holds exactly the supplied keys; otherwise the error is that of the first bad entry |
| `BoundedBody.ReadBounded` | crates/basil-bin/src/ci_session.rs:1010-1032 | the accumulator accepts exactly when the declared length, if any, and the total are within the limit, returns the concatenation, and its buffer never exceeds the limit |
| `BoundedBody.ClaimRepeatedly` | crates/basil-bin/src/ci_qualification.rs:442-446 | of any number of claims on a fresh flag the first and only the first is won |

## Left out

- File descriptors, directories, the cache lock, temporary files and metadata checks: system calls; a commit is the replacement of one map entry that succeeds, fails before the rename, or fails after it.
- Panics of the batch itself: `Release` takes whether one is unwinding as a parameter, and the batch drops its audit without one.
- Partially written response frames and partially written output lines: a write is complete or absent.
- Command-line parsing, target selection and its duplicate checks, rendering of output lines: they would add only easy members.
- The hashing of fingerprints and of IDs inside audit events: events hold the values before hashing.
- HTTP, TLS, URL and JSON handling, the JWT encoding and the qualification request itself: a token is unreadable or carries its two time claims.
- The COSE and CBOR byte formats: a signed reply is a record, and decoding failures are replies the broker did not sign.
- Carrier.SignaturesAreAnswers: claim times are unbounded integers, so the 64-bit saturation of their sums is not modelled.
- RefreshSchedule.RetryRefreshIff: states the retry for validity times of 64 bits only; the clock itself is unbounded.
- Steps of the system clock against the monotonic one: both advance together.
- Memory ordering of the atomic claim: the exchange is one step.
- Key enrolment, the courier, the agent's own catalog and the remaining client commands: other components.
