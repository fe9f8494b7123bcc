# Otaman core: models and proofs

This project models the parts of `otaman-core` that carry its guarantees, and proves those
guarantees for all inputs, all runs and all interleavings:

- `owner_paths.dfy`: path-ownership globs, from the scanner that builds the expression to the owner of a path.
- `blocked_entries.dfy`, `entry_rendering.dfy`: the text store of blocked entries, how it parses and is written.
- `tombstone_frame.dfy`, `clearing.dfy`, `rendered_clearing.dfy`, `ref_lookup.dfy`: what clearing entries
  changes, exactly when that is what was meant, and what a reference finds before and after.
- `acting_lock.dfy`: the acting-session lock as a transition system over the atomic steps of all processes.
- `registry_access.dfy`, `audit_log.dfy`: the decision register and its append-only audit log.
- `scr_template.dfy`, `scr_answers.dfy`: the change-request template, and what counts as an answer in it.
- `secrets.dfy`, `changelog_manifest.dfy`, `bus_stem.dfy`, `bus_uri.dfy`: printers and
  parsers that are meant to undo each other.
- `secret_frames.dfy`: what a write to the dotenv store does to everything else in it.
- `credential_cascade.dfy`: one credential over several dotenv layers, and its values-free inventory.
- `knowledge.dfy`: the knowledge store and its amend edges.
- `spec_lifecycle.dfy`, `gate_verdicts.dfy`: stages, gates and the verbs that move a change.
- `gates_config.dfy`, `gates_reading.dfy`, `verification_gates.dfy`: the gate configuration and the choice of critics.
- `jwks_cache.dfy`: the signing-key cache and its lookup.
- `filings.dfy`: filed task-completes, retraction and cut eligibility.
- `text.dfy`, `occurrences.dfy`, `wrappers.dfy`: strings as Python sees them, where one text occurs in another,
  and optional values, shared by the others.

Objects that change in place are classes; loops are loops with invariants; each is proved against a
specification function, and the laws are lemmas about those functions. Where the code does less than
its documentation says, the claim is stated with the exact condition under which it holds, and a lemma
gives an input or a reachable state at which it fails:

- A pattern's `$` also stands before a final line feed, for owner globs and for bus segments.
- Tombstoning replaces the first occurrence of a block's text, which can lie in an earlier block. Of two
  identical entries cleared in one call, the second stays live.
- A release unlinks the sidecar after giving up the kernel lock, so it can delete the next holder's. A
  probe can then answer that nobody has a lock that is held; it can name a session that is dead while
  another call has the lock; and it can make an acquirer fail although nobody holds the lock. A failed
  sidecar write keeps the kernel lock without a lock object to release.
- A field update named `transitions` replaces the audit log, and undoing the first status of a record
  leaves a null status behind.
- A dotenv value with a vertical tab, form feed or separator character is accepted, does not read back,
  and can define other keys. Values wrapped in single quotes, empty values, and keys that start with `#`
  do not read back either.
- An empty value in a near layer hides a farther value from the inventory but not from the resolver; the
  empty name resolves without being listed.
- Slugging the default fallback again can cut it.
- Different endpoints with a double hyphen inside a segment can share a lock key.
- An amend whose correction has the stem of an entry further down the chain closes a cycle, and one
  with the stem of its own target overwrites it.
- Ratifying a change below spec-approved writes `approved_by`, which the merge gate takes for a
  disagreement and refuses in every mode. A ratifier whose name holds a spaced dash is not read back from
  that field.
- A backslash at an end of a path turns into a slash that stays, where a slash would go.

`dafny verify dfyconfig.toml` checks everything.

## Model

| member | source | states |
|---|---|---|
| `OwnerPaths.GlobToRegex` | src/otaman_core/owner_paths.py:187-207 | The scanner loop emits exactly the parts the left-to-right token choice (a double star with its slash, a double star, a star, a question mark, a literal) prescribes, for every pattern, and terminates. |
| `OwnerPaths.GlobRefinement` | src/otaman_core/owner_paths.py:187-207 | For every path and every pattern whose double stars are whole segments, the anchored expression built by the scanner accepts exactly what a segment-by-segment matcher accepts. No restriction to paths without line feeds or empty segments: the reference says what happens there too (the `$` also stands before a final line feed). |
| `OwnerPaths.PathMatchesOwns` | src/otaman_core/owner_paths.py:210-242 | `path_matches` is the segment-wise meaning of its pattern, on the normalized path and pattern. |
| `OwnerPaths.SlashesIgnored` | src/otaman_core/owner_paths.py:210-242 | Slashes around the path or the pattern change no answer. |
| `OwnerPaths.Backslashes` | src/otaman_core/owner_paths.py:210-242 | An argument reads the same with its backslashes written as slashes exactly when no backslash stands at either end once the outer slashes are off. |
| `OwnerPaths.BareNameIsSubtree` | src/otaman_core/owner_paths.py:210-242 | For every path: the name followed by a slash and a double star accepts exactly what the bare name accepts, less the name itself and the paths below it with a line feed before their end. |
| `OwnerPaths.OnlyDoubleStarCrosses` | src/otaman_core/owner_paths.py:187-242 | A pattern without a double star only matches paths with as many slashes as it has. |
| `OwnerPaths.DoubleStarInsideSegment` | src/otaman_core/owner_paths.py:187-207 | A concrete pattern with a double star inside a segment accepts a path that its segments do not accept, so the refinement needs some condition; whole segments are one that suffices. |
| `OwnerPaths.FinalLineFeed` | src/otaman_core/owner_paths.py:187-207 | A wildcard pattern for a single character accepts that character with a line feed behind it, which its segments do not. |
| `OwnerPaths.GetRepo` | src/otaman_core/owner_paths.py:71-76 | The first repository of that name, or the end of the list. |
| `OwnerPaths.LongestMatch` | src/otaman_core/owner_paths.py:262-274 | The loop ends with a most specific matching entry: no matching pattern is longer, and none of the same length comes earlier. |
| `OwnerPaths.ResolveOwnerForPath` | src/otaman_core/owner_paths.py:245-274 | The owner is that of the most specific matching entry, the repository owner when none matches, and an error for an unknown repository. |
| `OwnerPaths.OwnerOfUnique` | src/otaman_core/owner_paths.py:245-274 | That description fixes a single owner. |
| `BlockedEntries.FindAll` | src/otaman_core/blocked_entries.py:56 | The scan yields the blocks of the text in order. |
| `BlockedEntries.Tiling` | src/otaman_core/blocked_entries.py:56 | Every text is its preamble followed by its blocks: nothing is lost or read twice. |
| `BlockedEntries.FittingParses` | src/otaman_core/blocked_entries.py:125-166 | Blocks that fit together after a preamble that leaves them alone parse back to exactly that preamble and those blocks. |
| `BlockedEntries.ParsedFits` | src/otaman_core/blocked_entries.py:125-166 | Whatever parsing gives always fits, so the previous claim applies to every parsed text. |
| `BlockedEntries.ParseEntries` | src/otaman_core/blocked_entries.py:125-166 | The parse loop gives the entry of every block, tombstoned ones only on request. |
| `BlockedEntries.Tombstone` | src/otaman_core/blocked_entries.py:198-222 | The rewriting loop performs one replacement per live target whose block is in the text, in order. |
| `BlockedEntries.TombstonedBlock` | src/otaman_core/blocked_entries.py:211-221 | A tombstoned live block is again one well-formed block that swallows nothing behind it. |
| `BlockedEntries.TombstonedText` | src/otaman_core/blocked_entries.py:211-221 | The comment as it is written: the block, the date, a spaced em dash and the reason, with the white space the block ended with behind it. |
| `BlockedEntries.TombstonedEntry` | src/otaman_core/blocked_entries.py:198-222 | It reads as tombstoned, with its title and well-formedness as before. |
| `Clearing.ReasonRecorded` | src/otaman_core/blocked_entries.py:58-222 | The reason put on record reads back, stripped, when the block speaks of nothing cleared, the date is well formed and the reason holds no closing angle bracket. |
| `TombstoneFrame.TombstoneOneFrame` | src/otaman_core/blocked_entries.py:198-222 | Tombstoning a live entry re-parses to the same preamble and blocks with only that block changed, exactly when the first occurrence of its text is the entry itself. |
| `TombstoneFrame.TombstoneAllFrame` | src/otaman_core/blocked_entries.py:198-222 | For a list of targets of any text, each found at its own place when its turn comes: those blocks are marked in place and no others. The rows below say when that is so, in terms of the text before the call. |
| `Clearing.HeadingsClear` | src/otaman_core/blocked_entries.py:198-222 | For any text and any list of targets in any order: when no target's heading line stands anywhere in the text before the target, and neither the reason nor the date holds a line feed or an entry header, every turn finds its own entry. |
| `Clearing.ClearingByHeading` | src/otaman_core/blocked_entries.py:198-222 | On such a text the list is cleared in place and nothing else changes. |
| `RenderedClearing.ClearingExact` | src/otaman_core/blocked_entries.py:198-222 | For files of entries written line by line: clearing a list of them in file order marks those blocks and no others exactly when each of them occurs first at its own place in the text before the call. |
| `RenderedClearing.ClearedWrong` | src/otaman_core/blocked_entries.py:198-222 | Otherwise some target is parsed afterwards as the live block it was, and every later one is marked. |
| `RenderedClearing.IdenticalPair` | src/otaman_core/blocked_entries.py:198-222 | Two identical entries that end in one line feed, cleared in one call: the second turn wraps the first one's comment again, and the second entry stays on the live list. |
| `TombstoneFrame.LiveWithout` | src/otaman_core/blocked_entries.py:125-166 | Marking one block takes its entry off the live list and leaves the rest in order. |
| `TombstoneFrame.ClearingOne` | src/otaman_core/blocked_entries.py:198-222 | End to end: clearing one entry removes exactly it from the live list, keeping its title on the record. |
| `RefLookup.EarlierCopy` | src/otaman_core/blocked_entries.py:198-222 | Behind an entry whose title quotes its heading, clearing an entry marks the inside of the earlier one instead, and the entry meant stays live. |
| `RefLookup.FindMeans` | src/otaman_core/blocked_entries.py:245-258 | In every text a reference that is not blank finds exactly the live entries of just that reference, of the kinds asked for. |
| `RefLookup.FindRendered` | src/otaman_core/blocked_entries.py:245-258 | In a file of rendered entries a reference finds exactly the entries written with it, of the kinds asked for, in order; a blank reference finds nothing. |
| `RefLookup.ClearingByRef` | src/otaman_core/blocked_entries.py:198-258 | For any text in which no found entry's heading line stands before the entry: clearing everything a reference finds leaves exactly the other live entries in order, the reference then finds nothing, and every other reference finds what it found before. |
| `RefLookup.ClearingRendered` | src/otaman_core/blocked_entries.py:169-258 | For every file of rendered entries: clearing what a reference finds leaves exactly the other live entries, and nothing for the reference to find, exactly when each found entry's text occurs first at the entry itself, in the file before the call. |
| `RefLookup.RenderedOthers` | src/otaman_core/blocked_entries.py:169-258 | Then every other reference finds what it found before. |
| `RefLookup.TwinsNotFirst` | src/otaman_core/blocked_entries.py:198-258 | Two identical found entries never meet that condition, in any text. |
| `EntryRendering.RenderEntry` | src/otaman_core/blocked_entries.py:169-195 | The line-appending writer produces header, reference, kind, date and extra fields in that order. |
| `EntryRendering.RenderRoundTrip` | src/otaman_core/blocked_entries.py:125-195 | Parsing the concatenation of any list of rendered plain entries returns exactly that list: live, well formed, with title and fields, and with no preamble. |
| `EntryRendering.KindAndRefRead` | src/otaman_core/blocked_entries.py:97-195 | Each is read with the reference it was written with and with its own kind if that is one of the two, and otherwise the kind its label calls for. |
| `EntryRendering.KindMeans` | src/otaman_core/blocked_entries.py:97-118 | For every parsed entry: its kind is the declared one, in any case, if that is one of the two; an undeclared one waits for approval exactly when it names a proposal. Its reference is the proposal, or else the change. |
| `ActingLocks.StepKeeps` | src/otaman_core/acting_lock.py:125-277 | Every atomic step of every process keeps the lock invariant. |
| `ActingLocks.LockSafety` | src/otaman_core/acting_lock.py:181-222 | In every interleaving at most one un-released lock exists per key, it owns the kernel lock, and its sidecar is its own complete record or absent. |
| `ActingLocks.SidecarLostOnlyByRelease` | src/otaman_core/acting_lock.py:156-167 | Only the late unlink of an earlier release can take a holder's sidecar away. |
| `ActingLocks.SidecarKeptIff` | src/otaman_core/acting_lock.py:156-222 | A call that just took the lock is sure to keep its sidecar in every continuation exactly when no release was between its close and its unlink at that moment. |
| `ActingLocks.ReleaseOverlaps` | src/otaman_core/acting_lock.py:156-222 | A reachable state in which a call has just taken the lock while an earlier release is between its close and its unlink. |
| `ActingLocks.CrashFrees` | src/otaman_core/acting_lock.py:199-222 | When the process that has the lock dies, the next call gets it. |
| `ActingLocks.RefusedOnlyWhenTaken` | src/otaman_core/acting_lock.py:199-216 | Acquiring is refused exactly when some other call has the kernel lock. |
| `ActingLocks.ProbeCanRefuse` | src/otaman_core/acting_lock.py:251-277 | A probe in passing can be that other call: in a reachable state an acquirer has failed although no lock is held or leaked. |
| `ActingLocks.ProbeAnswers` | src/otaman_core/acting_lock.py:132-277 | In every run a probe answers none exactly when the lock was free as it was asked or the sidecar was missing or torn as it was read; otherwise it answers with the record that was there. |
| `ActingLocks.RefusalReports` | src/otaman_core/acting_lock.py:132-216 | In every run a refused acquirer had found the lock taken, and carries what the sidecar told when it was read, after the descriptor was closed. |
| `ActingLocks.NamedIsHolder` | src/otaman_core/acting_lock.py:181-222 | In a state of any run, the call the sidecar names has the kernel lock exactly when some acquire that has returned has it. |
| `ActingLocks.ReportedIsHolder` | src/otaman_core/acting_lock.py:199-277 | So the call that a probe or a refusal names had the lock as the sidecar was read exactly when an acquire that had returned had it then. |
| `ActingLocks.ProbeBlind` | src/otaman_core/acting_lock.py:156-277 | A reachable state in which a lock is held and a probe has answered none: the holder lost its sidecar to an earlier release. |
| `ActingLocks.ProbeNamesDead` | src/otaman_core/acting_lock.py:181-277 | A reachable state in which a probe has named a call whose process is dead, while another call has the lock. |
| `ActingLocks.ProbeLeavesNoLock` | src/otaman_core/acting_lock.py:251-277 | A finished probe has no lock, in every interleaving. |
| `ActingLocks.Acquire` | src/otaman_core/acting_lock.py:181-222 | With any steps of other processes in between, the outcome is a valid lock; or a refusal, the lock having been found taken by another call in one state and the sidecar read in a later one, whose content the refusal carries; or a bad mode before anything is touched; or a write error that leaves the kernel lock taken. In each case the call makes exactly the steps given, in that order. |
| `ActingLocks.Probe` | src/otaman_core/acting_lock.py:251-277 | The answer is none when the lock was free in the state it was tried in, and otherwise what the sidecar told in a later state; the probe ends without the lock, and makes exactly the steps given, in order. |
| `ActingLocks.ActingLock.Release` | src/otaman_core/acting_lock.py:156-167 | The release gives up the kernel lock, then the sidecar, then the preempt marker, in just these steps: it names the state in which each of the two is gone, unless its unlinking raised, in which case it is as it was. A second release does nothing. |
| `ActingLocks.ReleaseAlone` | src/otaman_core/acting_lock.py:156-167 | With no step of others in between, the lock is free afterwards and both files are gone. |
| `ActingLocks.PreemptChanges` | src/otaman_core/acting_lock.py:156-319 | The preempt marker appears by a request alone, and goes by its own removal or by a release alone. |
| `RegistryAccess.Register.Get` | src/otaman_core/registry_access.py:200-205 | The index of the first record with that id, or the number of records. |
| `RegistryAccess.Register.CreateRecord` | src/otaman_core/registry_access.py:208-220 | The new data and outcome for every shape of the data; a raising call changes nothing. |
| `RegistryAccess.CreateMeans` | src/otaman_core/registry_access.py:190-220 | On the records themselves: a blank id is refused, then one that a record of the file has; otherwise the record is appended at the end, if the file has a list. |
| `RegistryAccess.Register.ApplyTransition` | src/otaman_core/registry_access.py:242-314 | The new data and outcome: entry appended, status moved, fields written; a raising call changes nothing and an approval-required action needs a well-formed approval. |
| `RegistryAccess.TransitionMeans` | src/otaman_core/registry_access.py:51-283 | Every outcome on the records and the approval map themselves: an unknown id first; then an acceptance or rejection of a cost or a choice whose approval does not give non-blank texts for who, when and against what, one of the three ways, and a hat that is absent, null or a non-blank text; then a log that is no list. |
| `RegistryAccess.Register.ValidateApproval` | src/otaman_core/registry_access.py:223-242 | The checks in turn accept exactly those approvals. |
| `RegistryAccess.MovedReplays` | src/otaman_core/registry_access.py:279-314 | One transition appends one entry, and redoing that entry on the old state gives the new one. |
| `RegistryAccess.MovedUndoes` | src/otaman_core/registry_access.py:279-314 | Walking the entry back restores the old state exactly when no status was set or the record had one. |
| `AuditLog.RunAudit` | src/otaman_core/registry_access.py:208-314 | Over any run of creations and transitions in which no transition of a record names `transitions` among its fields, its log gains exactly the entries of its own transitions, replaying them gives its current state, walking them back restores the start (if it had a status), and every approval-required entry carries a well-formed approval. |
| `AuditLog.OneEntryPerTransition` | src/otaman_core/registry_access.py:279-314 | Over any run there is one such entry per transition of that record that went through, and none otherwise. |
| `AuditLog.RunUnique` | src/otaman_core/registry_access.py:208-314 | Ids stay unique over any run in which no transition names `id` among its fields. |
| `AuditLog.HistoryKept` | src/otaman_core/registry_access.py:303-314 | One transition appends its own entry to the log, and changes nothing else in it, exactly when its fields do not name `transitions`: no list that a caller passes can already hold the entry that will carry it. |
| `AuditLog.HistoryReplaced` | src/otaman_core/registry_access.py:303-314 | Otherwise the log is the list passed, or is lost when the value is no list. |
| `AuditLog.RunHistory` | src/otaman_core/registry_access.py:208-314 | Over any run a record's log ends as it began with the entries of its own transitions behind it, exactly when none of them names `transitions`. |
| `AuditLog.RunOverwritten` | src/otaman_core/registry_access.py:208-314 | Otherwise it is the last list passed with the entries since, and the entry of the overwriting transition is not in that list. |
| `ScrTemplate.SectionBodies` | src/otaman_core/scr_template.py:141-159 | The line loop gives, for each section heading met, the stripped text up to the next heading. |
| `ScrTemplate.HeadingMeans` | src/otaman_core/scr_template.py:141-159 | A line is a heading exactly when it opens with two to four hashes, white space and one more character at least; its text is what follows the hashes, stripped. |
| `ScrTemplate.Render` | src/otaman_core/scr_template.py:117-138 | The rendered request as title, evidence level and one heading with body or prompt per section. |
| `ScrTemplate.RoundTrip` | src/otaman_core/scr_template.py:117-159 | Reading a rendered request gives every section's text or prompt and nothing else, for every single-line title and bodies without heading lines. |
| `ScrTemplate.SectionRead` | src/otaman_core/scr_template.py:117-159 | A section whose only line breaks are line feeds comes back exactly as given, stripped. |
| `ScrAnswers.PassesMeans` | src/otaman_core/scr_template.py:105-194 | A text is no answer exactly when it is blank, or its first filled line opens, after white space and in any case, with one of eight words up to the end of the word, or with two question marks; unless the word is `n/a` or `na` and is followed by joiners, `because`, white space and a reason. |
| `ScrAnswers.UnfilledSections` | src/otaman_core/scr_template.py:175-194 | The loop lists the sections with no answered body, in table order. |
| `ScrAnswers.UnfilledExactly` | src/otaman_core/scr_template.py:117-194 | For a rendered request these are exactly the sections not given, or given a text that is not an answer in the sense of the row above. |
| `ScrAnswers.IsHollow` | src/otaman_core/scr_template.py:208-259 | A templated body is hollow exactly when validation without an evidence level fails; an untemplated one exactly when each of its lines is blank, a heading, or opens with one of those words or marks. |
| `ScrTemplate.TableInUseGood` | src/otaman_core/scr_template.py:55-97 | The section table the program uses meets the conditions of these claims, whatever its guidance texts. |
| `Secrets.ReadDotenvValue` | src/otaman_core/_secrets.py:171-190 | The first line that defines the key decides; an empty value reads as none. |
| `Secrets.LoadDotenv` | src/otaman_core/_secrets.py:193-222 | All pairs, the last line of a key winning. |
| `Secrets.DotenvKeys` | src/otaman_core/_secrets.py:368-382 | The set of non-empty keys of the lines. |
| `Secrets.UpsertDotenvSecret` | src/otaman_core/_secrets.py:410-470 | A bad key or value is refused; otherwise the text is the old lines with every line of the key replaced in place, or the new line added at the end. |
| `Secrets.WrittenLines` | src/otaman_core/_secrets.py:448-466 | The written text splits back into the old lines with every line of the key, or the end, giving way to the lines the rendered pair is read as; these are several when the value holds a line break that the writer lets through. |
| `Secrets.UpsertRoundTrip` | src/otaman_core/_secrets.py:171-470 | Reading after a write gives the value back exactly for a key that does not start with `#` and a non-empty single-line value whose own single quotes the reader would not take off. |
| `SecretFrames.UpsertFrame` | src/otaman_core/_secrets.py:171-470 | Every other key reads as before, unless a later line of the written pair is a line of it. |
| `SecretFrames.HarmlessExactly` | src/otaman_core/_secrets.py:171-470 | For every accepted value: another key reads as before in every file exactly when no later line of the written pair defines it (for a key that starts with `#`: gives it a value). |
| `SecretFrames.OtherKeyWritten` | src/otaman_core/_secrets.py:424-470 | The failing input: a value made of a word, a vertical tab and a pair of another key, written into an empty file, gives that other key its value. |
| `SecretFrames.ReadersAgree` | src/otaman_core/_secrets.py:171-222 | After a write the first-wins reader and the last-wins loader agree on the key exactly when they agree on the written lines alone, as they do for every value of one line. |
| `SecretFrames.LoaderFrame` | src/otaman_core/_secrets.py:193-222 | The loader's other keys are as before in every file exactly when the written lines list no key but the one written. |
| `SecretFrames.UpsertTwice` | src/otaman_core/_secrets.py:424-470 | Writing the same pair again changes nothing, exactly for keys that do not start with `#` and values of one line. |
| `SecretFrames.HashGrows` | src/otaman_core/_secrets.py:424-470 | For a key that starts with `#` every write adds its lines once more. |
| `CredentialCascade.ResolveCascade` | src/otaman_core/_secrets.py:319-338 | The first non-empty value, nearest layer first. |
| `CredentialCascade.CredentialProvenance` | src/otaman_core/_secrets.py:341-365 | Overwriting farthest first maps each listed key to its nearest layer, and nothing else. |
| `CredentialCascade.ListKeys` | src/otaman_core/_secrets.py:385-407 | The union of the keys of all layers. |
| `CredentialCascade.CascadeAgrees` | src/otaman_core/_secrets.py:319-365 | For a non-empty key the resolved value is the one in the layer the inventory names, or none if it names none, exactly when that layer holds a value or no farther layer does. |
| `CredentialCascade.ValueHidden` | src/otaman_core/_secrets.py:319-365 | The failing input: with an empty value in the near layer and a value in the far one, the key resolves to the far value, while the inventory names the near layer. |
| `CredentialCascade.CascadeTruthful` | src/otaman_core/_secrets.py:319-365 | When no layer lists the key with an empty value, it resolves to the value in the named layer, and to nothing exactly when the inventory has no such key. |
| `CredentialCascade.EmptyNameUnlisted` | src/otaman_core/_secrets.py:319-382 | The empty name is never listed, and resolves exactly when some layer holds a value for it. |
| `CredentialCascade.EmptyNameResolves` | src/otaman_core/_secrets.py:171-382 | A file whose line is an equals sign and a value gives it one. |
| `CredentialCascade.KeysAreDomain` | src/otaman_core/_secrets.py:341-407 | The listed keys are exactly the domain of the inventory. |
| `CredentialCascade.NearestWriteWins` | src/otaman_core/_secrets.py:319-470 | A value written into the nearest layer is the one that resolves exactly when it reads back from there, or is a pair of single quotes and a farther layer holds just that. |
| `CredentialCascade.NearestWriteNamed` | src/otaman_core/_secrets.py:341-470 | After such a write, of a key that does not start with `#`, the nearest layer is named for it. |
| `CredentialCascade.WriteLeavesOthers` | src/otaman_core/_secrets.py:319-470 | A write into any layer leaves every other key resolving as before, unless a later line of the written pair is a line of it. |
| `CredentialCascade.WriteHarmless` | src/otaman_core/_secrets.py:319-470 | And that is exactly when it does so in all layers. |
| `Manifests.SortedUnique` | src/otaman_core/changelog_manifest.py:108-111 | The order by repository, file name and hash is total, so a sorted list is determined by its elements. |
| `Manifests.BuildCanonical` | src/otaman_core/changelog_manifest.py:108-111 | Two built manifests are equal exactly when they hold the same fragments equally often. |
| `Manifests.BuildTwice` | src/otaman_core/changelog_manifest.py:108-111 | Building again changes nothing. |
| `Manifests.ToDict` | src/otaman_core/changelog_manifest.py:114-125 | The grouping loop over the stably sorted fragments. |
| `Manifests.FromDict` | src/otaman_core/changelog_manifest.py:128-146 | The tolerant reader: missing blocks, entries that are no mappings, missing keys and blank names. |
| `Manifests.ParseMeans` | src/otaman_core/changelog_manifest.py:128-146 | For every record: exactly the fragments are read that some entry of a group gives, by a name that is not blank and the hash under its key, else the older key, else none. |
| `Manifests.RecordParse` | src/otaman_core/changelog_manifest.py:108-146 | For every manifest, recording and reading back is building from its stripped fragments, blank names left out. |
| `Manifests.RoundTrip` | src/otaman_core/changelog_manifest.py:108-146 | That equals building from the fragments themselves exactly when every name is non-empty and names and hashes have no white space around them. |
| `Manifests.RecordTidy` | src/otaman_core/changelog_manifest.py:114-125 | A record lists each repository once, repositories and file names ascending. |
| `Manifests.SortStable` | src/otaman_core/changelog_manifest.py:114-125 | Fragments of one name are recorded in the order the manifest holds them. |
| `Manifests.ConsumedIndex` | src/otaman_core/changelog_manifest.py:149-154 | The union of the keys of all manifests. |
| `Manifests.ConsumedMeans` | src/otaman_core/changelog_manifest.py:149-167 | A fragment is consumed exactly when an equal one is in an earlier manifest. |
| `Manifests.ConsumedKept` | src/otaman_core/changelog_manifest.py:108-167 | The index built from re-read records is the index of the manifests. |
| `BusStem.SlugFixed` | src/otaman_core/bus_stem.py:43-53 | The texts that are their own slug are exactly the hyphen-trimmed words of lower-case letters and digits, singly joined, that fit the limit; under a negative limit only the empty one. |
| `BusStem.SlugLetters` | src/otaman_core/bus_stem.py:43-53 | Without a limit a slug holds every letter and digit of the lower-cased text, in order. |
| `BusStem.SlugFallback` | src/otaman_core/bus_stem.py:43-53 | The fallback stands in exactly for a text without a letter or digit. |
| `BusStem.SlugLimited` | src/otaman_core/bus_stem.py:43-53 | Under a limit the slug is so much of the front of the whole slug, less a hyphen at the cut; a negative limit takes characters off the end. |
| `BusStem.SlugifyIdempotent` | src/otaman_core/bus_stem.py:43-53 | A slug has that shape and fits unless the fallback stands in; slugging twice is slugging once exactly when the fallback was not used or slugging leaves the fallback alone or empties it, and under a negative limit exactly when the fallback was used and is emptied. |
| `BusStem.FallbackCut` | src/otaman_core/bus_stem.py:43-53 | With the default fallback and a limit of two, slugging twice differs from slugging once. |
| `BusStem.SlugOfStripped` | src/otaman_core/bus_stem.py:43-53 | White space around a text does not reach its slug. |
| `BusStem.SplitRecipient` | src/otaman_core/bus_stem.py:97-115 | The loop over the set of known names, in any order, ends with the longest known name that is the tail or stands before a hyphen in it. |
| `BusStem.BestIsLongest` | src/otaman_core/bus_stem.py:97-115 | There is only one such name, so the order of the set does not matter. |
| `BusStem.ParsesStemsOnly` | src/otaman_core/bus_stem.py:36-136 | Exactly the names that lead with a time token and a hyphen parse, and the token is read whole. |
| `BusStem.StampMeans` | src/otaman_core/bus_stem.py:30-36 | A time stamp is eight digits, a `T` and six digits. |
| `BusStem.StemRoundTrip` | src/otaman_core/bus_stem.py:56-136 | All four parts of a built file name come back exactly when the stamp has 15 characters, the sender has no `-to-` in it and does not end in `-to`, neither segment holds a slash, the recipient is known and no longer known name claims the tail, and the slug is non-empty and does not begin with a hyphen. |
| `BusStem.SlugQualifies` | src/otaman_core/bus_stem.py:43-53 | A slug of a text with something in it meets the last condition. |
| `BusUris.ParseStr` | src/otaman_core/bus/uri.py:36-107 | The canonical form of any valid endpoint parses back to it, exactly when its agent does not end in the line feed the segment pattern lets through. |
| `BusUris.LineFeedLost` | src/otaman_core/bus/uri.py:36-107 | In that case parsing loses just the line feed. |
| `BusUris.AddressMeans` | src/otaman_core/bus/uri.py:76-107 | For every text: it names an endpoint exactly when, stripped, it is the full, the shorthand or the bare form of it in the local context, and its segments are valid; it is refused as empty exactly when blank. |
| `BusUris.SegmentMeans` | src/otaman_core/bus/uri.py:36-73 | A segment is a letter and one to 63 letters, digits or hyphens, with one line feed behind at most. |
| `BusUris.FormsAgree` | src/otaman_core/bus/uri.py:76-112 | The bare, shorthand and full form of an endpoint name the same endpoint. |
| `BusUris.CanonicalStable` | src/otaman_core/bus/uri.py:76-112 | A canonical form is its own canonical form, wherever it is read, exactly when its agent does not end in a line feed. |
| `BusUris.LockKeyMeans` | src/otaman_core/acting_lock.py:71-87 | For every text: it has a lock key exactly when it begins with the scheme and, stripped, is the full form of a valid endpoint, whose three segments the key joins. |
| `BusUris.LockKeyUnique` | src/otaman_core/acting_lock.py:71-87 | An endpoint none of whose segments has a double hyphen before a letter shares its lock key with no other valid endpoint, whatever that one looks like. |
| `BusUris.LockKeyShared` | src/otaman_core/acting_lock.py:71-87 | A valid endpoint shares its lock key with a different valid one exactly when the key can be cut at two other separators into three segments that pass the pattern. |
| `BusUris.LockKeyCollides` | src/otaman_core/acting_lock.py:71-87 | Two different valid endpoints whose resolved addresses have one lock key: a part between double hyphens can go with either neighbour. |
| `BusUris.CollidingPair` | src/otaman_core/acting_lock.py:71-87 | Such as `aa--bb/cc/dd` and `aa/bb--cc/dd`. |
| `BusUris.LockKeySafe` | src/otaman_core/acting_lock.py:71-87 | For resolved addresses that `lock_key` accepts, one of them without a double hyphen before a letter inside a segment, the keys are equal exactly when both name one endpoint. |
| `Knowledge.Store.WriteEntry` | src/otaman_core/knowledge.py:309-319 | The file at the entry's stem is replaced; no other file changes. |
| `Knowledge.Store.AmendEntry` | src/otaman_core/knowledge.py:341-357 | The correction is written with its edge, or nothing happens when there is nothing to amend. |
| `Knowledge.Store.MarkAccessed` | src/otaman_core/knowledge.py:376-385 | The entry is rewritten with the new access date, or nothing happens. |
| `Knowledge.Store.MoveToState` | src/otaman_core/knowledge.py:388-401 | The entry is rewritten in a known state, or nothing happens. |
| `Knowledge.VerbMeans` | src/otaman_core/knowledge.py:341-401 | A verb is carried out exactly when the entry it names is there and the state it asks for is one of the three; it says which of the two failed, and then nothing changes. |
| `Knowledge.StemMeans` | src/otaman_core/knowledge.py:129-136 | A stem is the date, a hyphen and the slug of the title, or `item` for a title without a letter or digit. |
| `Knowledge.FiledStem` | src/otaman_core/knowledge.py:129-136 | A written entry reads back under its own stem exactly when its date has no white space around it. |
| `Knowledge.FiledFixed` | src/otaman_core/knowledge.py:129-307 | A written entry reads back in all its fields exactly when none has white space around it and the state is not empty. |
| `Knowledge.AmendSound` | src/otaman_core/knowledge.py:341-357 | An amend keeps a store sound (files named by their stems, edges resolving, chains finite) exactly when that holds and the correction's stem is not on the chain it is put in front of; edges resolve in any case. |
| `Knowledge.FreshOffChain` | src/otaman_core/knowledge.py:341-357 | A fresh stem is on no chain. |
| `Knowledge.AmendKeepsSuperseded` | src/otaman_core/knowledge.py:341-357 | The superseded entry stays as it was written exactly when the correction is not stored in its place; every other entry always does. |
| `Knowledge.AmendSameName` | src/otaman_core/knowledge.py:341-357 | The failing input: in a store of one entry, a correction with the same date and title takes its place and points at itself. |
| `Knowledge.AccessChanges` | src/otaman_core/knowledge.py:376-385 | Marking an access changes that one field of that one entry. |
| `Knowledge.StateChanges` | src/otaman_core/knowledge.py:388-401 | Moving the state changes that one field of that one entry. |
| `Knowledge.RunSound` | src/otaman_core/knowledge.py:341-401 | Over any run of amends, accesses and state moves the store is sound throughout exactly when every amend names a fit correction at its time. |
| `Knowledge.ScanFindsEdges` | src/otaman_core/knowledge.py:360-362 | The scan over the listed entries finds exactly the reverse edges of the directory. |
| `Knowledge.FlagMeans` | src/otaman_core/knowledge.py:360-367 | An entry is flagged amended exactly when that scan finds something. |
| `Knowledge.AmendAddsEdge` | src/otaman_core/knowledge.py:341-362 | A fresh correction adds one reverse edge, to the entry it amends, and removes none. |
| `SpecLifecycle.MergeRefusesDisagreement` | src/otaman_core/spec_lifecycle.py:438-506 | For a delta-bearing non-research change the merge gate refuses in every mode exactly when having an approval and having reached spec-approved differ. |
| `SpecLifecycle.MergeCleanMeans` | src/otaman_core/spec_lifecycle.py:421-506 | It passes un-waived exactly when the field honored for the phase is there (and the other is not), and the outcome link when it is asked for. |
| `GateVerdicts.DispatchVerdict` | src/otaman_core/spec_lifecycle.py:509-593 | On the fields of the change: dispatch is clean exactly for research and from spec-approved on; anything else is refused in block mode and waived, never clean, in the others; the same through the file. |
| `GateVerdicts.MergeVerdict` | src/otaman_core/spec_lifecycle.py:421-506 | On the fields: exactly when merge is clean, allowed and waived, in every mode, and which violations it names. |
| `GateVerdicts.ArchiveVerdict` | src/otaman_core/spec_lifecycle.py:596-612 | The same for archive. |
| `SpecLifecycle.ApprovalOpensGates` | src/otaman_core/spec_lifecycle.py:401-612 | Past spec-approved an approval is exactly what opens merge, dispatch and archive un-waived in every mode. |
| `SpecLifecycle.UnreadableNeverDispatched` | src/otaman_core/spec_lifecycle.py:564-593 | The dispatch gate on a file refuses in every mode exactly when the file is there and does not parse. |
| `SpecLifecycle.StageMonotone` | src/otaman_core/spec_lifecycle.py:650-844 | Ratification, validated spec-approval and decided auto-archive never lower the stage. |
| `SpecLifecycle.OnlyWriterEnters` | src/otaman_core/spec_lifecycle.py:650-844 | Of these only the validated writer takes a change from below spec-approved to it, exactly from `authored` with an approver and outside research. |
| `SpecLifecycle.RunAttested` | src/otaman_core/spec_lifecycle.py:195-844 | Over any run, raw stage writes included, every state past spec-approved carries an approval exactly when no raw write put an unapproved change there. |
| `SpecLifecycle.RunGatesOpen` | src/otaman_core/spec_lifecycle.py:401-844 | Such a run passes merge (outcome link off), dispatch and archive un-waived from spec-approved on in every mode, and what it auto-archives has an approval, with or without a delta. |
| `GateVerdicts.AutoArchiveMeans` | src/otaman_core/spec_lifecycle.py:776-844 | A change auto-archives exactly when it is verified, asks for automatic delivery or leaves it to a policy that does, and is research, delta-free or approved; only its stage and its archiver change. |
| `SpecLifecycle.RatifyBlocksMerge` | src/otaman_core/spec_lifecycle.py:438-681 | Ratifying a change below spec-approved makes the merge gate refuse it in every mode, until the stage reaches spec-approved. |
| `GateVerdicts.StageOrder` | src/otaman_core/spec_lifecycle.py:33-66 | A stage counts for its place in the table of nine, anything else for none, and the raw writer takes just those. |
| `GateVerdicts.SpecApprovalMeans` | src/otaman_core/spec_lifecycle.py:716-768 | What stands against minting spec-approved, and every field that minting writes. |
| `GateVerdicts.RatificationShows` | src/otaman_core/spec_lifecycle.py:525-681 | A ratification is minted for any identity and reason that are not blank; the change is then at least approved, and below spec-approved its dispatch is refused as ratified only. |
| `GateVerdicts.RatifierRecovered` | src/otaman_core/spec_lifecycle.py:509-681 | A refused dispatch of a ratified change names the ratifier; without the field of that name, from the approval marker, exactly when the name holds no spaced dash. |
| `GatesConfig.ParseVerificationGates` | src/otaman_core/verification_gates.py:181-285 | A configuration is accepted exactly when it is absent, or has the right shape and every hook is complete; it is then read as it stands. |
| `GatesConfig.ParseHook` | src/otaman_core/verification_gates.py:218-248 | A hook is accepted exactly when its keys, policies, overrides and target role are well formed, and is read as written. |
| `GatesReading.HookMeans` | src/otaman_core/verification_gates.py:218-248 | For every value with distinct keys and every hook policy: the hook is accepted and read as that policy exactly when its items say just that, key by key, by the names of the policies. |
| `GatesReading.ConfigMeans` | src/otaman_core/verification_gates.py:181-285 | For every value and every configuration: the file is read as that configuration exactly when its items say just that; a configuration is complete exactly when each hook pairs role-based, declares a target role that is not blank, and the roles table is not empty. |
| `VerificationGates.RunPolicy` | src/otaman_core/verification_gates.py:288-336 | The critics a policy names, first occurrences in order, and the inputs it lacked. |
| `VerificationGates.SelectCritics` | src/otaman_core/verification_gates.py:339-410 | Every field of the result: the final policy, critics, fallback and override flags, dropped agents, proposer flag and missing inputs; an unknown hook is refused. |
| `VerificationGates.HoldersMeans` | src/otaman_core/verification_gates.py:105-111 | An agent holds a value exactly when a row of the table for that agent lists it. |
| `VerificationGates.SelectionMeans` | src/otaman_core/verification_gates.py:288-410 | On the tables and the context themselves: which policy is final, and exactly who is a critic and who is dropped. |
| `VerificationGates.SelectionOrder` | src/otaman_core/verification_gates.py:288-410 | Critics and dropped agents stand in the order in which the final policy first names them. |
| `VerificationGates.DedupMembers` | src/otaman_core/verification_gates.py:331-336 | De-duplication keeps the same agents, each once. |
| `VerificationGates.ProposerExcluded` | src/otaman_core/verification_gates.py:368-374 | Whatever the configuration, no critic is the proposer. |
| `VerificationGates.ClearanceGate` | src/otaman_core/verification_gates.py:390-396 | Under a sensitivity class critics are exactly those of the selection whom a row of the clearance table gives the class, dropped exactly the others, and together they are the selection. |
| `VerificationGates.AlwaysEvaluated` | src/otaman_core/verification_gates.py:249-410 | In a complete configuration no input is ever missing for the final policy, in any context. |
| `VerificationGates.RoleBasedNames` | src/otaman_core/verification_gates.py:317-330 | In a complete configuration role-based names somebody exactly when a row of the role table gives the role to an agent other than the proposer. |
| `VerificationGates.SomebodyChosen` | src/otaman_core/verification_gates.py:339-410 | Then the selection is not empty whenever such an agent exists, unless an override took role-based out of the pairing; without a class neither are the critics. |
| `VerificationGates.SelfOwnedChange` | src/otaman_core/verification_gates.py:249-285 | A single-repository change by its own owner gets a critic exactly when the configuration gives the role to somebody else. |
| `JwksCache.OIDCValidator.GetJwks` | src/otaman_core/auth_oidc.py:194-215 | The cached set is returned while fresh; otherwise one fetch, which replaces cache and stamp when served and falls back on the cache when not. |
| `JwksCache.OIDCValidator.KeyForKid` | src/otaman_core/auth_oidc.py:217-237 | Answer, fetches made and new cache of a lookup with one forced refresh on a miss. |
| `JwksCache.FindKeyMeans` | src/otaman_core/auth_oidc.py:221-225 | A key is found exactly when one of that `kid` is in the set. |
| `JwksCache.LookupFetches` | src/otaman_core/auth_oidc.py:194-237 | At most two fetches per lookup; the first exactly when nothing is cached or it is as old as the time to live, and none exactly when a younger set has the key. |
| `JwksCache.RotationFound` | src/otaman_core/auth_oidc.py:217-237 | A key in the set the fetcher serves during the call is found; after a miss the served refresh decides. |
| `JwksCache.CacheIsLastServed` | src/otaman_core/auth_oidc.py:194-237 | After any sequence of lookups the cache is the last set served, stamped with the clock of that fetch, and empty when none was. |
| `JwksCache.ErrorMeansNeverServed` | src/otaman_core/auth_oidc.py:194-237 | A lookup ends in the provider error exactly when no fetch was ever served, its own included. |
| `Filings.MergeNewest` | src/otaman_core/task_complete.py:113-124 | The claim for the task becomes the join of old and new; no other claim changes. |
| `Filings.JoinIsLub` | src/otaman_core/task_complete.py:113-124 | That join is the least upper bound of absent, undated, dated by age. |
| `Filings.FiledCompleteByChange` | src/otaman_core/task_complete.py:127-164 | One pass over the messages gives a bucket for each change with a task-complete and the newest claim for every task. |
| `Filings.FilingsMean` | src/otaman_core/task_complete.py:127-164 | Message by message: a change has a bucket exactly when a task-complete names it, and a task is filed exactly when a line of one does, at the time of the newest dated one. |
| `Filings.ScanOrderIrrelevant` | src/otaman_core/task_complete.py:127-164 | The result does not depend on the order of the scan, nor on a message being read twice. |
| `Filings.CompleteMeans` | src/otaman_core/task_complete.py:247-277 | A task is complete exactly when its own claim, or else an honored blanket one, stands against its last un-tick; an undated claim loses to any. |
| `Filings.CutMeans` | src/otaman_core/release_gate.py:94-114 | Eligible exactly when the gate passed and every task has a filing of its own that stands; outstanding lists exactly the others; the counts add up. |
| `Filings.AllNeverMatters` | src/otaman_core/release_gate.py:94-114 | Blanket filings never change any verdict, exactly because no task id is the sentinel. |
| `Filings.FilingKeepsEligible` | src/otaman_core/task_complete.py:113-164 | One more message on the bus never makes an eligible change ineligible. |

## Left out

- Characters outside ASCII: white space, case and line breaks are those of ASCII, except that the em dash of the tombstone trailer is modelled.
- YAML, JSON and hashing: stores are maps, line lists or loaded values. In particular the knowledge store takes a written entry to read back with its fields stripped; a field value that ends in three hyphens would close the frontmatter early, which the model does not capture.
- Record aliasing in the register: `transitions` lists and records shared between Python objects are values here. In particular a caller who passes a record's own log list as the field `transitions` passes its value before the append, where Python passes the list that the append then reaches.
- The lock descriptor inherited by a forked child, deletion of the runtime directory, and the preempt marker's content.
- The field scan of a blocked entry continues at the line feed that ends a value, which is where the expression of the source resumes.
- Section guidance wording: the section table is a parameter; `TableInUse` gives the keys and headings in use with any guidance.
- Message wording of errors, violations and notices.
- The order in which an unacceptable gate configuration reports its first incomplete hook.
- Credential sources other than dotenv files, the discovery of layer paths, file modes and atomic replacement.
- `_parse_completed_spec` and `task_id_of`: a filing's ids are an input of the fold, as are the parsed times; comparing times with and without a zone is not modelled.
- `last_untick_at`: the git history is an input.
- HTTP fetching, token signatures and claims; a fetch that fails other than with the provider error.
- Parsing of the platform file, `validate_owner_paths`, and the lookups by working directory.
- `stale_reason`, `completeness`, `declared_evidence_level` and the evidence-level argument of validation: single tests over what is proved here.
- Policy composition, security-gate layers, bus dispatch and fan-out, review policies and delivery envelopes: single folds that would add easy members.
- FilingKeepsEligible: un-ticks are taken not to change between the two scans.
- ReasonRecorded: sufficient only; some blocks that speak of something cleared give the reason back all the same.
- ClearingByRef: for texts of any kind the condition on heading lines is sufficient only; ClearingRendered has the exact condition for rendered files.
- TombstoneAllFrame: its condition looks at the text of every turn; HeadingsClear and ClearingExact replace it by conditions on the text before the call.
- ClearingExact: takes the targets in file order, as `find_by_ref` returns them; HeadingsClear has no such restriction.
- HeadingsClear: sufficient only, as is its corollary ClearingByHeading; a heading line may be repeated where the rest of the block differs.
- GlobRefinement: whole segments are a sufficient condition; some patterns with a double star inside a segment are read by segments all the same.
