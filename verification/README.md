# Verified model of the node's state machinery and its reference tooling

The repository ports a Java blockchain node to Rust and qualifies the port against the original. This project models
the parts in which that work rests on an algorithm rather than on input and output, and proves what they promise:

- **Comparator and normaliser** (`tools/reference-runner/runner.py`): JSON limits, the stack-driven tree difference,
  JSON Pointers (RFC 6901, sections 3 and 4), the in-place masking pass, the validator of its records, and the report
  built from all of them. Modules `Json`, `Text`, `Limits`, `Pointer`, `Differences`, `Normalize`, `Validation`,
  `Compare`, and the laws `LimitLaws`, `PointerLaws`, `DifferenceLaws`, `RowLaws`, `RunLaws`.
- **Protocol Buffers wire format** (`tools/protocol/c001_gate.py`, `tools/api/c022_gate.py`): two independent decoders
  and the canonical descriptor. Modules `Wire`, `WireLaws`, `Descriptor`.
- **Lifecycle schedule** (`tools/qualification/c030_gate.py`) for every hash. Modules `Schedule`, `ScheduleLaws`.
- **Java comment lexer, test discovery, ledger merge** (`tools/reference-runner/generate-ledgers.py`). Modules `Lexer`,
  `LexerLaws`, `Ledger`.
- **Encodings and arithmetic**: Base58, SM2, state roots, tree digests, the energy plan. Modules `Base58`, `Sm2`,
  `Framing`, `EnergyPlan`.
- **Graph closure and evidence binding** (`tools/qualification`). Modules `Descendants`, `Evidence`.
- **The Rust node's revoking state, block graph and fork switch** (`rust-tron/crates/tron-state`,
  `rust-tron/crates/tron-execution`): the overlay stack of sessions as a state machine, the walk to the fork of two
  branches, the switch between them with its restoration paths, and the acceptance of blocks that drives it. Modules
  `Sessions`, `SessionLaws`, `SessionRuns`, `SessionManager`, `Khaos`, `ForkSwitch`, `Executions`, `Canon`,
  `Retention`, `Forks`, `Chains`.

`Sorting` holds a stable sort and its laws, `Outcomes` the option and result types. Code that updates fields is a
class (`Normalize.Document`, `SessionManager.Manager`, `Forks.ForkManager`, `Chains.ChainManager`); loops are methods
proved against a recursive meaning; the laws are lemmas about that meaning, stated without it where they say what it
comes to.

Hashes are parameters (a content digest, a phase ranking) and regular expressions and glob patterns are arbitrary
predicates, so every result holds for whatever those compute.

## Where the code and its promises part

Each of these is stated with its exact condition and an input on which it shows.

- A successful normalisation need not satisfy the validator: a rule may mask the very class it is checked against. It
  does satisfy it exactly under `Validation.RecordsWillHold` (`WriterMeetsValidator`). The rule of
  `ClassMaskingIsRefused` is hypothetical: the shipped policy masks inside logs and events only, and such rules meet the
  conditions of the theorems (`ShippedRulesApply`).
- The second wire decoder accepts truncated fields and over-long varints; it yields what the first one does exactly on
  input in which every field stays within bounds (`Wire.DecodersAgree`, `LooseDecoderTakesTruncatedField`).
- `session.rs` documents that active layers stay invisible to the head. A session committed above one that is still
  open does show there and vanishes again when the lower one is revoked (`SessionLaws.CommittedChildShowsAndVanishes`).
  Exactly when a revocation, a commit or a merge leaves the head alone is `RevokingIsInvisible`, `CommittingIsInvisible`
  and `MergingIsInvisible`.
- Rewinding a checkpoint takes back the block it belongs to if and only if the block's session was the top layer when
  it was committed (`SessionLaws.RewindUndoesCommitIff`, `RewindTakesTheChild`).
- The SM2 oracle omits the retries of clause 6.1 of GB/T 32918.2. The checks of clause 7.1 accept its signatures
  exactly when no retry was due (`Sm2.StandardAcceptsIff`, `RetriesAreSkipped`).
- A manager enabled for one session is disabled again when the runs of sessions come to rest, unless its layer was only
  closed and then destroyed (`SessionRuns.DisabledAgain`, `DestroyLeavesEnabled`).
- The energy plan sets zero energy against a fee limit strictly between minus the price and zero, unless funds and
  frozen energy fall below zero (`EnergyPlan.PlanIsGreatest`, `NegativeLimitPlansZero`), and its funds are the spendable
  balance exactly while the difference fits a long (`ReckonedIsSpendableIff`, `WrappedFunds`).
- Removing a branch that has nothing in common with the canonical one leaves the graph's head on the canonical tip, if
  and only if the tip is retained (`Chains.ChainManager.Accept`); making room for a block may have cost it its place
  (`Retention.TipMayGo`). What is removed is the branch's own ancestry if and only if no link on the way is dead
  (`Canon.RemovedAreAncestorsIff`, `ReturnedParentOpensTheWay`).

The exclusion windows of the schedule, 120 seconds at starts 90 seconds apart, are disjoint if and only if no phase
holds two actions (`ScheduleLaws.ExclusionsDisjointIff`). The specification provides for overlapping windows; whether
they can be avoided at all depends on the counts alone (`DisjointForSomeHashIff`), and with its 28 actions in 24
phases they cannot (`FrozenScheduleOverlaps`).

## Model

| member | source | states |
|---|---|---|
| Limits.EnforceLimits | tools/reference-runner/runner.py:74-92 | the explicit-stack pass accepts if and only if depth, node count and the UTF-8 size of every string and key are within bounds, and names a bound that is really broken |
| LimitLaws.WithinLimitsMeans | tools/reference-runner/runner.py:74-92 | a document is accepted exactly when no place in it is 64 steps down, it has at most 20000 places, and no string or key at any of them takes more than 262144 bytes |
| Pointer.PointerGet | tools/reference-runner/runner.py:251-256 | the loop over unescaped tokens finds what walking the pointer means, including negative and signed list indices and missing children |
| Pointer.PointerGetFindsLeaf | tools/reference-runner/runner.py:279-288 | every listed leaf pointer resolves to its own value, whatever `~` and `/` its keys contain |
| Pointer.LeafPointersDistinct | tools/reference-runner/runner.py:279-288 | no two leaves of a document share a pointer |
| Pointer.PointerSetChangesOneLeaf | tools/reference-runner/runner.py:259-267 | storing a scalar at a leaf pointer changes that entry of the leaf list and no other, in place and order |
| Pointer.LeavesOfMask | tools/reference-runner/runner.py:291-307 | masking by pointer keeps every leaf pointer and replaces exactly the chosen values |
| Pointer.StoreIsRewriting | tools/reference-runner/runner.py:259-267 | one more store into a partly masked document is masking one more leaf |
| Pointer.MaskTwice | tools/reference-runner/runner.py:291-307 | two maskings in a row are one, the later rule winning |
| Text.UnescapeEscape | tools/reference-runner/runner.py:251-288 | the two-step token unescaping undoes the two-step escaping for every key |
| PointerLaws.PartsOfJoined | tools/reference-runner/runner.py:251-254 | a pointer made of parts has exactly those parts |
| PointerLaws.ListIndex | tools/reference-runner/runner.py:251-256 | in a list a part that `int()` reads selects from the front, a negative one from the back, and nothing outside; white space, sign and underscores as Python takes them |
| PointerLaws.StoredIsFound | tools/reference-runner/runner.py:259-267 | what was stored at a pointer is found there |
| PointerLaws.StoreFailsIff | tools/reference-runner/runner.py:259-267 | storing fails if and only if there are no parts, the container they lead to is missing, or that is a list or leaf without such a child |
| PointerLaws.StoreElsewhere | tools/reference-runner/runner.py:259-267 | a pointer that branches off finds what it found before |
| Differences.Differences | tools/reference-runner/runner.py:398-429 | the worklist returns the recursive difference in its order, and fails exactly when the stack peak or the row count passes its limit |
| Differences.CompareOne | tools/reference-runner/runner.py:404-428 | one turn emits the rows of this pair and pushes its common children |
| DifferenceLaws.MergedAscending | tools/reference-runner/runner.py:408-428 | the children of a pair are visited in strictly ascending order, each once |
| DifferenceLaws.MergedElements | tools/reference-runner/runner.py:408-428 | they are the children of either side, none missing |
| DifferenceLaws.NoDifferenceMeansEqual | tools/reference-runner/runner.py:398-429 | no row if and only if both values are structurally equal with types told apart |
| DifferenceLaws.RowsLocateDifferences | tools/reference-runner/runner.py:398-429 | every row's pointer leads to the two values it shows, which do differ there |
| RowLaws.RowPaths | tools/reference-runner/runner.py:398-429 | one row for every place at which the documents part and no other, with the place's pointer and both values, in a fixed order: absent children backwards, then common ones forwards |
| RowLaws.RowPointersDistinct | tools/reference-runner/runner.py:398-429 | no two rows share a pointer |
| RowLaws.EveryDifferenceHasRow | tools/reference-runner/runner.py:398-429 | wherever a leaf pointer resolves on one side only, or to unequal values, a row lies at or above it |
| DifferenceLaws.PeakBelowNodes | tools/reference-runner/runner.py:398-403 | the stack never holds more pairs than either document has nodes |
| Normalize.Document.PointerSet | tools/reference-runner/runner.py:259-267 | the loop down to the last container, the write there and the way back up leave what storing at the pointer means, or fail and leave the document alone |
| Normalize.Document.ApplyRequested | tools/reference-runner/runner.py:291-307 | the loop over requested rules has the sequential meaning, including the state it leaves when it refuses |
| Normalize.Document.ApplySnapshot | tools/reference-runner/runner.py:297-306 | the loop over the snapshot of leaves, each store seeing the document the previous one left |
| Normalize.OnePassIsOneMasking | tools/reference-runner/runner.py:297-306 | one pass, which edits and logs while it iterates, succeeds if and only if every allowed leaf meets the constraint, and then is a single masking plus its records in order |
| Normalize.RefusalNamesFirst | tools/reference-runner/runner.py:297-301 | a pass that meets a leaf against its constraint stops there and names it, the allowed leaves before it masked and recorded |
| RunLaws.RunSucceedsIff | tools/reference-runner/runner.py:291-307 | a run succeeds if and only if each rule is known, allows the class as the rules before it leave it, and allows no leaf of the original document whose value, as those rules leave it, breaks its constraint |
| RunLaws.RunIsRefusedFor | tools/reference-runner/runner.py:291-307 | otherwise it is refused for the first rule that cannot run, with that reason |
| Validation.FinalLeafValue | tools/reference-runner/runner.py:291-307 | after all rules every leaf still has its pointer and holds the replacement of the last rule that allows it, or its old value |
| Validation.CombinedIsLast | tools/reference-runner/runner.py:291-307 | where rules overlap the last requested one decides |
| Validation.AcceptedRecords | tools/reference-runner/runner.py:312-326 | of all records, whoever made them, exactly those are accepted whose five fields are the ones the pass would have written for a masking the policy permits there, in a result of an allowed class that holds the replacement |
| Validation.VerdictTellsWhy | tools/reference-runner/runner.py:312-326 | a record of a masking is refused for the first condition it breaks: class, pointer, value, then the result |
| Validation.AcceptedIsMeasured | tools/reference-runner/runner.py:270-276 | what an accepted record masks is a port, a process identifier or a non-empty log text, under the rule of that name |
| Validation.WriterMeetsValidator | tools/reference-runner/runner.py:291-326 | every record the applier wrote is accepted against the final result if and only if each rule's class and replacement survive to the end |
| Validation.EntryAtEnd | tools/reference-runner/runner.py:291-307 | under any rules, an entry of the log ends up masked by exactly the rules that ran after it was written |
| Validation.RecordAtEnd | tools/reference-runner/runner.py:291-326 | under any rules, a record that later ones did not touch is accepted if and only if its class and replacement survive to the end |
| Validation.DisjointRulesHold | tools/reference-runner/runner.py:291-326 | rules that never meet and leave the class alone always satisfy the validator |
| Validation.ClassMaskingIsRefused | tools/reference-runner/runner.py:291-326 | a concrete run that succeeds and whose record the validator refuses, under a rule that masks the class |
| Validation.ShippedRulesApply | docs/oracles/normalization-policy-v1.json:7-11 | rules allowed inside logs and events only reach neither the log of maskings nor the class |
| Compare.CheckSide | tools/reference-runner/runner.py:434-449 | schema errors, invariant violations and record verdicts of one side, in report order, stopping at the mismatch limit |
| Compare.OnlyTheseAreIgnored | tools/reference-runner/runner.py:450-453 | every field is compared with its value as it is, but for runner, normalizations and diagnostics, and of the identity all but implementation and toolchain; an identity that is no object raises |
| Compare.ReportSays | tools/reference-runner/runner.py:432-457 | a report holds the schema errors and refused records of either result and every difference of their compared parts, and nothing else |
| Compare.RecordReportIs | tools/reference-runner/runner.py:445-447 | refused records are reported once each, with their verdict, in the order of the log |
| Compare.KindNamesField | tools/reference-runner/runner.py:383-396 | a difference is of the kind of the field it lies in, however deep |
| Compare.OtherKinds | tools/reference-runner/runner.py:383-396 | the same for exit code, status and identity, and output for what begins otherwise |
| Compare.Compare | tools/reference-runner/runner.py:432-457 | the report is both sides' findings followed by the differences; within the input limits the queue limit cannot fire |
| Compare.MatchMeansEqual | tools/reference-runner/runner.py:432-457 | an empty report if and only if both sides are blameless and equal apart from the fields the comparison drops |
| Compare.MaskedEqualMeansAgree | tools/reference-runner/runner.py:291-307 | masked documents are equal if and only if the originals agree at every place no rule touches |
| Compare.AgreementByLeaves | tools/reference-runner/runner.py:398-429 | agreement outside the masked places is same shape plus agreement of the untouched leaves |
| Compare.MaskingHidesExactlyAllowedLeaves | tools/reference-runner/runner.py:291-307 | after successful normalisation no difference remains if and only if the originals had the same shape and agreed at every leaf no requested rule may touch |
| Compare.NormalizedResultsMatch | tools/reference-runner/runner.py:432-457 | the whole pipeline: two normalised results match if and only if the records hold and the untouched leaves agree |
| Wire.WriteVarint | tools/protocol/c001_gate.py:216-222 | the loop writes the base-128 form of the number |
| Wire.ParseVarint | tools/protocol/c001_gate.py:245-251 | the shifting loop reads the recursive meaning, failing at the end of data or after seventy bits |
| Wire.VarintRoundTrip | tools/protocol/c001_gate.py:216-251 | a written number is read back with exactly its bytes consumed if and only if it is below 2^70, anywhere in a byte string |
| Wire.ReadIsCanonicalWhen | tools/protocol/c001_gate.py:245-251 | the bytes read are the ones the writer produces if and only if they do not end in a zero group |
| Wire.ReadBounded | tools/protocol/c001_gate.py:245-251 | what is read is below 2^70 and the position advances within the data |
| WireLaws.VarintIsBase128 | tools/protocol/c001_gate.py:216-222 | the groups of seven bits, low ones first, sum up to the number; all bytes but the last have the high bit set and the last is not needlessly zero |
| WireLaws.ReadMeans | tools/protocol/c001_gate.py:245-251 | reading yields a number if and only if one varint of at most ten bytes lies there and its groups sum up to it |
| WireLaws.FieldsRead | tools/protocol/c001_gate.py:225-242 | any fields of the four wire types written one behind the other are read back as they were, behind any prefix |
| WireLaws.FieldsRefused | tools/protocol/c001_gate.py:225-242 | groups, unknown wire types and payloads that run past the end are refused; a fixed payload at the end is taken as it is |
| Wire.Fields | tools/protocol/c001_gate.py:225-242 | the field loop yields the recursive field list or the first error |
| Wire.ParseLooseVarint | tools/api/c022_gate.py:26-32 | the second varint loop, bounded by the byte string only |
| Wire.LooseFields | tools/api/c022_gate.py:33-43 | the second field loop and its meaning |
| Wire.DecodersAgree | tools/api/c022_gate.py:26-43 | the first decoder accepts if and only if the second does and every field is in bounds, and then the field lists are identical |
| Wire.LooseDecoderTakesTruncatedField | tools/api/c022_gate.py:33-43 | two bytes one decoder refuses and the other reads as an empty field |
| Descriptor.FieldValues | tools/protocol/c001_gate.py:258-259 | the values of any field number, of one wire type or of all, in order, or the decoding error |
| Descriptor.BlobsAreValues | tools/protocol/c001_gate.py:321 | for field 1 of wire type 2 these are the file blobs |
| Descriptor.ValuesInOrder | tools/protocol/c001_gate.py:258-259 | the value of every field asked for stands behind those of the fields before it, and there are no others |
| Descriptor.NameIsFirstField | tools/protocol/c001_gate.py:322 | the name of a file is the payload of its first length-delimited field 1; it has none if and only if it does not parse or has no such field |
| Descriptor.FramedName | tools/protocol/c001_gate.py:322 | a file that begins with its framed name has that name |
| Descriptor.NormalizedDescriptor | tools/protocol/c001_gate.py:316-323 | parse, sort by name, frame again; an unnamed file is an error |
| Descriptor.EncodeDecodes | tools/protocol/c001_gate.py:216-251 | framed blobs decode to themselves behind any prefix |
| Descriptor.CanonicalKeepsFiles | tools/protocol/c001_gate.py:316-323 | the canonical form re-parses to a name-sorted permutation of the input's files, equal names in their old order |
| Descriptor.CanonicalInNameOrder | tools/protocol/c001_gate.py:322 | its files stand in the order of their names: the first byte in which two names differ decides, and a prefix comes first |
| Descriptor.CanonicalIsFixed | tools/protocol/c001_gate.py:316-323 | canonicalising twice changes nothing |
| Descriptor.CanonicalForgetsOrder | tools/protocol/c001_gate.py:316-323 | inputs with the same files under distinct names have the same canonical form |
| Schedule.LifecycleSchedule | tools/qualification/c030_gate.py:38-74 | the nested loops over runs, actions and phases produce the specified matrices and rows |
| Schedule.AssignRun | tools/qualification/c030_gate.py:46-55 | the per-phase lists hold each chosen action with its occurrence number, in action order |
| Schedule.ChosenPhases | tools/qualification/c030_gate.py:48-54 | an action gets as many phases as its count, at most all of them, distinct and ascending, for every hash |
| ScheduleLaws.ChosenAreBest | tools/qualification/c030_gate.py:48-54 | a phase that was not chosen does not outrank one that was, by the digest of that very run, action and phase, and by the earlier phase on equal digests |
| ScheduleLaws.RowsTakeTheBest | tools/qualification/c030_gate.py:48-54 | every row of the schedule lies in a phase that no phase without such a row in its run outranks |
| ScheduleLaws.ActionsOfRun | tools/qualification/c030_gate.py:38-74 | in each run an action appears its count of times, in distinct ascending phases, occurrences numbered from zero |
| ScheduleLaws.MatrixEntry | tools/qualification/c030_gate.py:56-58 | the matrix is zero or one, one exactly where the phase was chosen |
| ScheduleLaws.ColumnSums | tools/qualification/c030_gate.py:56-58 | its columns sum to the counts |
| ScheduleLaws.ActionTotals | tools/qualification/c030_gate.py:182-183 | over all runs an action appears runs times its count |
| ScheduleLaws.ForksOfRun | tools/qualification/c030_gate.py:68 | one fork activation per run when there is a reorg at all |
| ScheduleLaws.ForkTotals | tools/qualification/c030_gate.py:184 | as many activations as runs |
| ScheduleLaws.RowsOfSchedule | tools/qualification/c030_gate.py:182-183 | the number of rows is runs times the sum of the counts, each at most the phase count, for every hash |
| ScheduleLaws.ExclusionTotal | tools/qualification/c030_gate.py:185 | the exclusion windows of all rows add up to 120 seconds a row, a total the contract fixes |
| ScheduleLaws.RowTimes | tools/qualification/c030_gate.py:59-72 | a row starts sixty seconds into its phase, counted over all runs, and ninety later for each row already in the phase; acts for sixty, excludes for 120, in action order |
| ScheduleLaws.ScheduleSeparated | tools/qualification/c030_gate.py:59-72 | when slots fit a phase, all rows of all runs are in time order with the given gap |
| ScheduleLaws.ActionWindowsDisjoint | tools/qualification/c030_gate.py:59-72 | starts strictly increase and action windows never overlap |
| ScheduleLaws.ExclusionsDisjointIff | tools/qualification/c030_gate.py:59-72 | exclusion windows are disjoint if and only if no phase holds two actions |
| ScheduleLaws.DemandForcesOverlap | tools/qualification/c030_gate.py:38-74 | when the rows of a run outnumber its phases, windows overlap for every hash |
| ScheduleLaws.DisjointForSomeHashIff | tools/qualification/c030_gate.py:38-74 | some hash keeps all windows apart if and only if they do not |
| ScheduleLaws.FrozenScheduleOverlaps | docs/oracles/c030-qualification-spec.v1.json:1413-1439 | the specified contract overlaps for every hash, and its windows add up to the expected 6720 seconds |
| Lexer.Uncommented | tools/reference-runner/generate-ledgers.py:210-241 | the index loop over a line computes the character automaton from the carried state |
| Lexer.BlockEndsAtClose | tools/reference-runner/generate-ledgers.py:216-221 | jumping to the next closing mark is what the automaton does character by character |
| Lexer.LinesAreFile | tools/reference-runner/generate-ledgers.py:210-241 | line by line with carried state equals one automaton over the whole file, quotes and line comments ending at a newline |
| LexerLaws.PlainIsKept | tools/reference-runner/generate-ledgers.py:210-241 | code without quotes and slashes is kept |
| LexerLaws.LiteralIsKept | tools/reference-runner/generate-ledgers.py:222-230 | a literal is kept as it stands, comment marks and escaped quotes in it included, and ends at its closing quote |
| LexerLaws.LineCommentIsDropped | tools/reference-runner/generate-ledgers.py:231-232 | from two slashes on nothing is code |
| LexerLaws.BlockCommentIsDropped | tools/reference-runner/generate-ledgers.py:216-235 | a block comment is dropped with its marks, or stays open without a close |
| Lexer.DiscoveredTestMethods | tools/reference-runner/generate-ledgers.py:244-266 | the scanning loop with pending annotations has the sequential meaning |
| Lexer.ScanOne | tools/reference-runner/generate-ledgers.py:248-265 | one line of the scan |
| LexerLaws.ReportedIff | tools/reference-runner/generate-ledgers.py:244-266 | a method is reported at a line if and only if that line, outside comments, declares one behind a test annotation, with all annotations since the last statement or reported method, or is a test by its name |
| LexerLaws.ReportedInOrder | tools/reference-runner/generate-ledgers.py:244-266 | methods are reported line by line, never two at one line |
| Lexer.InsertedCommentsDoNotMatter | tools/reference-runner/generate-ledgers.py:244-266 | lines that lex to blank code and restore the comment state, inserted anywhere, leave the methods and their annotations as they were, line numbers shifted |
| Ledger.RowsById | tools/reference-runner/generate-ledgers.py:400-412 | an index exactly when all identifiers are present and distinct; a missing one is reported before repeated ones |
| Ledger.AssignReviewed | tools/reference-runner/generate-ledgers.py:436-441 | the assignment loop overlays every non-structural reviewed key and nothing else |
| Ledger.PreserveReviewed | tools/reference-runner/generate-ledgers.py:415-442 | succeeds if and only if the ledgers and their duplicate-free identifier sets agree, and returns the merge; which error otherwise |
| Ledger.MergeKeeps | tools/reference-runner/generate-ledgers.py:434-438 | generated row order, identifiers and structural keys stay, every other reviewed key is taken over |
| Ledger.MergeKeepsFields | tools/reference-runner/generate-ledgers.py:439-441 | of the document's own fields the structural ones stay generated, every other reviewed one is taken over, and nothing else appears |
| Ledger.MergeIsFixedPoint | tools/reference-runner/generate-ledgers.py:415-442 | the merged ledger used as the reviewed one merges to itself |
| Ledger.ReviewedOrderIsForgotten | tools/reference-runner/generate-ledgers.py:422-438 | the order of reviewed rows is immaterial |
| Base58.EncodeBase58 | tools/crypto/C004Oracle.java:78 | the division loop, the padding and the reversal build the encoding |
| Base58.EncodingShape | tools/crypto/C004Oracle.java:78 | as many leading ones as leading zero bytes, then the base-58 digits of the big-endian value |
| Base58.RoundTrip | tools/crypto/C004Oracle.java:78 | an independent decoder recovers every byte string |
| Base58.Injective | tools/crypto/C004Oracle.java:78 | different byte strings have different encodings |
| Sm2.SignatureRecoversNonce | tools/crypto/C004Oracle.java:72 | two s plus r is the nonce modulo n, so the verifier's point is the signer's |
| Sm2.SignedVerifies | tools/crypto/C004Oracle.java:72-73 | over every cyclic group of odd order with the generator as public key, every signature made is accepted |
| Sm2.VerifiedIsSigned | tools/crypto/C004Oracle.java:72-73 | a pair in range is accepted if and only if signing with two s plus r makes it |
| Sm2.RetriesAreSkipped | tools/crypto/C004Oracle.java:72-73 | on every curve and for every nonce there are three hashes, one for each omitted retry, that the oracle signs and accepts and the standard refuses |
| Sm2.StandardAcceptsIff | tools/crypto/C004Oracle.java:72-73 | the standard's verifier accepts it if and only if r is not zero, r is not k and r plus k is not n |
| Framing.Field | tools/consensus/C017Oracle.java:42 | four big-endian length bytes, then the value |
| Framing.CompareKeys | tools/consensus/C017Oracle.java:39 | the sign of the loop's result is unsigned lexicographic order |
| Framing.CompareRows | tools/consensus/C017Oracle.java:37 | stores are compared first and keys only within one store |
| Text.Utf16CharValue | tools/consensus/C017Oracle.java:37 | the units stores are compared by: a code point itself, or the surrogate pair that stands for it |
| Framing.RootBytes | tools/consensus/C017Oracle.java:43 | the bytes hashed are the serialisation of a sorted copy |
| Framing.RootRowsInOrder | tools/consensus/C017Oracle.java:37-43 | they are the rows given, stores ascending by UTF-16 units and the keys of one store as unsigned bytes |
| Framing.RowReads | tools/consensus/C017Oracle.java:42-43 | a row is read back as store, key and value, each behind its big-endian length |
| Framing.SerializeInjective | tools/consensus/C017Oracle.java:42-43 | equal bytes come from equal row lists |
| Framing.RootIdentifiesRows | tools/consensus/C017Oracle.java:37-43 | with unique store and key pairs the bytes are equal if and only if the rows are, in whatever order |
| Framing.TreeDigestInput | tools/reference-runner/java_reference_guard.py:42-64 | the bytes fed to the digest are the tagged framing of the sorted tree; lengths that do not fit are refused |
| Framing.TreeNodesInOrder | tools/reference-runner/java_reference_guard.py:49 | the nodes are those given, ascending by the code points of their paths |
| Framing.NodeReads | tools/reference-runner/java_reference_guard.py:51-63 | a node is read back as its path, the letter of its kind, and its target or content behind the length |
| Framing.TreeBytesInjective | tools/reference-runner/java_reference_guard.py:49-63 | equal bytes come from equal lists of nodes |
| Framing.DigestInputIdentifiesTree | tools/reference-runner/java_reference_guard.py:42-64 | with one node a path, equal bytes if and only if equal trees |
| EnergyPlan.PlanIsGreatest | tools/execution/C016Oracle.java:125-132 | the affordable amounts are exactly those up to the planned total, if and only if the fee limit is not strictly between minus the price and zero, or funds and frozen energy together fall below zero; what is paid is what frozen energy leaves |
| EnergyPlan.NegativeLimitPlansZero | tools/execution/C016Oracle.java:129 | a fee limit of minus one plans zero energy, which it does not afford |
| EnergyPlan.PlanIsMonotone | tools/execution/C016Oracle.java:125-132 | more funds, frozen energy or fee limit never buys less, whatever the signs |
| EnergyPlan.ReckonedIsSpendableIff | tools/execution/C016Oracle.java:128 | the funds reckoned with are the spendable balance if and only if the difference fits a long |
| EnergyPlan.ReckonedIsMonotoneIff | tools/execution/C016Oracle.java:128 | a larger balance reckons as more funds exactly until the difference passes the range of a long |
| EnergyPlan.PlanFailsIff | tools/execution/C016Oracle.java:129 | the checked addition throws if and only if the funds buy the rest of the 64-bit range |
| Descendants.ProcessDescendants | tools/qualification/c030_harness.py:310-319 | terminates on every finite child relation, cyclic ones included, with exactly the nodes reachable by one or more edges, strictly ascending |
| Descendants.Visit | tools/qualification/c030_harness.py:314-318 | one pop adds the unknown children to both the set and the stack |
| Evidence.IndexObservations | tools/qualification/c030_result.py:219-224 | an index exactly when every observation has a string identifier of its own |
| Evidence.CheckScenario | tools/qualification/c030_result.py:228-246 | the checks of one scenario hold if and only if each named observation exists, has the expected subject and is sound |
| Evidence.ValidateEvidence | tools/qualification/c030_result.py:207-249 | the loops accept exactly what the declarative conditions accept |
| Evidence.AcceptedIff | tools/qualification/c030_result.py:207-249 | the lookups by identifier succeed if and only if the observation list is the scenarios' observations in order, cut into consecutive pieces with the expected subjects and evidence in both lists |
| Evidence.AcceptedMeasures | tools/qualification/c030_result.py:224-249 | acceptance observation by observation: each has the expected subject, passed, holds measured values on both sides, and rests on evidence of its own scenario, all of which is in the inventory |
| Evidence.ItemInManifestOrder | tools/qualification/c030_result.py:209 | the scenarios of an item are those of the manifest that name it, each once and in manifest order |
| Evidence.ObservationsServeOnce | tools/qualification/c030_result.py:247-249 | no observation serves two scenarios or one twice |
| Sessions.StepKeepsInv | rust-tron/crates/tron-state/src/session.rs:187-318 | every operation on the stack, the pending outer session and recorded checkpoints included, keeps the count of open sessions exact and identifiers ascending, so no checked decrement can fail and the saturating one never clips |
| Sessions.RunKeepsInv | rust-tron/crates/tron-state/src/session.rs:877-933 | the same over every run of operations |
| SessionRuns.DoneIffPossible | rust-tron/crates/tron-state/src/session.rs:187-318 | each operation takes place if and only if the layers, checkpoints and reservation allow it, as stated layer by layer, and otherwise changes nothing |
| SessionRuns.EnabledAfterEnd | rust-tron/crates/tron-state/src/session.rs:899-932 | after a commit, merge or revoke the manager is enabled if and only if it was and neither the session nor a layer that goes with it was to disable it |
| SessionRuns.DisabledAgain | rust-tron/crates/tron-state/src/session.rs:187-318 | from a disabled state at rest, a run that comes to rest is disabled again, unless it enabled the manager for good or destroyed layers that were only closed |
| SessionRuns.DestroyLeavesEnabled | rust-tron/crates/tron-state/src/session.rs:401-406 | a run in which destroying a closed layer leaves the manager enabled |
| SessionRuns.RunKeepsChain | rust-tron/crates/tron-state/src/session.rs:279-318 | over every run checkpoints ascend in height, have identities of their own, and each names the one before it |
| SessionRuns.RecordedIsHead | rust-tron/crates/tron-state/src/session.rs:279-294 | a checkpoint recorded at rest has captured the head |
| SessionRuns.CheckpointedIsHead | rust-tron/crates/tron-state/src/session.rs:806-828 | so has one committed with the only open session |
| SessionRuns.WriteIsRead | rust-tron/crates/tron-state/src/session.rs:695-706 | a write is what its session reads next, and no other key reads differently |
| SessionRuns.BuiltIsEmpty | rust-tron/crates/tron-state/src/session.rs:205-213 | a new session reads what was read before |
| SessionRuns.ClosingIsInvisible | rust-tron/crates/tron-state/src/session.rs:856-875 | closing a session under an open one changes neither the head nor a read |
| SessionRuns.EndLeavesNothingClosed | rust-tron/crates/tron-state/src/session.rs:924-929 | what was closed goes with the next session that ends |
| SessionRuns.ResetIsUndone | rust-tron/crates/tron-state/src/session.rs:224-246 | renewing the pending outer session undoes what it and everything above it wrote |
| SessionRuns.ForcedIsUndone | rust-tron/crates/tron-state/src/session.rs:266-274 | so does discarding it, and nothing is reserved any more |
| SessionLaws.RevokeRestores | rust-tron/crates/tron-state/src/session.rs:914-932 | whatever ran between building a session and revoking it, the revocation restores the layers and the root below, up to the first layer closed meanwhile |
| SessionLaws.MergeKeepsReads | rust-tron/crates/tron-state/src/session.rs:900-913 | merging a session down changes no read |
| SessionLaws.GetIsFlat | rust-tron/crates/tron-state/src/session.rs:663-672 | reading from the top layer down is looking up the flattened stack |
| SessionLaws.FlushKeepsHead | rust-tron/crates/tron-state/src/session.rs:438-461 | flushing committed layers into the root leaves the logical head as it was |
| SessionLaws.WritingIsInvisible | rust-tron/crates/tron-state/src/session.rs:158-165 | building sessions and writing in them never shows in the head |
| SessionLaws.RevokingIsInvisible | rust-tron/crates/tron-state/src/session.rs:914-932 | revoking leaves the head alone if and only if every settled write it discards was redundant |
| SessionLaws.CommittingIsInvisible | rust-tron/crates/tron-state/src/session.rs:899-932 | committing does if and only if what the session wrote and nothing committed above covers was there already |
| SessionLaws.MergingIsInvisible | rust-tron/crates/tron-state/src/session.rs:900-932 | merging into a settled layer is a commit, merging into an open one hides what was settled from it up |
| SessionLaws.CommittedChildShowsAndVanishes | rust-tron/crates/tron-state/src/session.rs:158-165 | a run in which speculative writes do show in the head and vanish |
| SessionLaws.RewindUndoesCommitIff | rust-tron/crates/tron-state/src/session.rs:303-318 | rewinding removes the checkpoint, and the block's own layer if and only if it was the top one |
| SessionLaws.RewindTakesTheChild | rust-tron/crates/tron-state/src/session.rs:303-318 | a run in which rewinding a block takes its child's layer instead of its own |
| SessionManager.Manager.BuildSession | rust-tron/crates/tron-state/src/session.rs:187-194 | takes the build step; an error exactly while sessions are open |
| SessionManager.Manager.BuildChildSession | rust-tron/crates/tron-state/src/session.rs:196-203 | takes the child step, only on the open top layer |
| SessionManager.Manager.Mutate | rust-tron/crates/tron-state/src/session.rs:695-710 | only the open top session writes, and the result says whether it did |
| SessionManager.Manager.EndWith | rust-tron/crates/tron-state/src/session.rs:877-933 | commit, merge and revoke with the clean-up of abandoned layers; success exactly when the step is allowed |
| SessionManager.Manager.MergeDown | rust-tron/crates/tron-state/src/session.rs:900-913 | the loop gives the layer below all writes above it, later ones winning |
| SessionManager.Manager.CloseSession | rust-tron/crates/tron-state/src/session.rs:856-875 | under an open session only marks and reports an error, otherwise revokes |
| SessionManager.Manager.CommitWithCheckpointAt | rust-tron/crates/tron-state/src/session.rs:806-828 | layer and checkpoint change together or not at all |
| SessionManager.Manager.Rewind | rust-tron/crates/tron-state/src/session.rs:303-318 | pops the top layer and its checkpoint together, only for the expected identity |
| SessionManager.Manager.Flush | rust-tron/crates/tron-state/src/session.rs:438-461 | the merged writes of all layers reach the root, which is the step's new root |
| SessionManager.Manager.PopLayer | rust-tron/crates/tron-state/src/session.rs:385-393 | drops the committed top layer when nothing is open |
| SessionManager.Manager.SetEnabledTo | rust-tron/crates/tron-state/src/session.rs:120-127 | refuses to disable while sessions are open |
| SessionManager.Manager.DestroyLayers | rust-tron/crates/tron-state/src/session.rs:401-406 | drops all layers when nothing is open |
| SessionManager.Manager.RecordCheckpointAt | rust-tron/crates/tron-state/src/session.rs:279-294 | records the settled state under a new identity above the last block |
| SessionManager.Manager.BuildPendingOuter | rust-tron/crates/tron-state/src/session.rs:215-222 | reserves one outer session for pending work, only when nothing is open |
| SessionManager.Manager.ResetPendingOuter | rust-tron/crates/tron-state/src/session.rs:224-246 | replaces it and everything above by an empty one, only when nothing above is open |
| SessionManager.Manager.ReleasePendingOuter | rust-tron/crates/tron-state/src/session.rs:248-251 | gives up the reservation of this session and no other |
| SessionManager.Manager.ForceResetPendingOuter | rust-tron/crates/tron-state/src/session.rs:266-274 | discards it in whatever state it is |
| Khaos.PushKeepsLinked | rust-tron/crates/tron-state/src/khaos.rs:453-484 | accepted blocks keep heights consecutive along every link |
| Khaos.DropKeepsLinked | rust-tron/crates/tron-state/src/khaos.rs:251-308 | so does removing or evicting any blocks |
| Khaos.CheckedParent | rust-tron/crates/tron-state/src/khaos.rs:619-638 | a step goes to the retained lower parent or reports why not; in a linked graph only a missing parent or the limit can stop it |
| Khaos.GetBranch | rust-tron/crates/tron-state/src/khaos.rs:545-569 | in any graph two returned branches meet at one block; in a linked one they are the shortest, an error means there is no common ancestor, and cycle, malformed-chain and limit errors cannot occur |
| Khaos.BranchesDisjoint | rust-tron/crates/tron-state/src/khaos.rs:545-569 | above the fork the branches share no block |
| ForkSwitch.ApplyInSession | rust-tron/crates/tron-execution/src/block_manager.rs:243-265 | an admitted block applies exactly when its execution succeeds and its checkpoint fits; otherwise a settled state is as before |
| ForkSwitch.ApplyCongruent | rust-tron/crates/tron-execution/src/block_manager.rs:243-265 | applying depends on nothing but the chain, not on how sessions are numbered |
| ForkSwitch.RewindTakesBack | rust-tron/crates/tron-state/src/session.rs:303-318 | rewinding is the inverse of applying |
| Executions.AppliedShows | rust-tron/crates/tron-execution/src/block_manager.rs:243-265 | one more block makes the head what its writes, in order, make of the head before, and its checkpoint has captured that under its height, identity and parent |
| Executions.ChainIsExecuted | rust-tron/crates/tron-execution/src/block_manager.rs:243-265 | the head after a branch is the image that executing its blocks one after the other makes of the base, and every checkpoint holds the image after its block |
| Executions.ChainExistsIff | rust-tron/crates/tron-execution/src/block_manager.rs:215-267 | a branch applies if and only if every block of it passes the checks, executes on what those below it make, and has a new and higher checkpoint |
| Executions.AppliedWereAdmitted | rust-tron/crates/tron-execution/src/block_manager.rs:224-239 | in an applied branch every block is within the limits, exact, signed, scheduled, and later than its parent but not too far ahead |
| Executions.TimesRise | rust-tron/crates/tron-execution/src/block_manager.rs:234 | along it times and heights rise strictly |
| ForkSwitch.BranchDescends | rust-tron/crates/tron-execution/src/fork_manager.rs:52-56 | the reversed branch is a chain of retained blocks from the ancestor up to its head |
| ForkSwitch.PushKeepsGraph | rust-tron/crates/tron-state/src/khaos.rs:453-484 | pushing any block keeps links and heights those the headers state |
| ForkSwitch.DropKeepsGraph | rust-tron/crates/tron-state/src/khaos.rs:251-308 | so does removing any blocks, the links to them being dead |
| Canon.BranchIsCanon | rust-tron/crates/tron-execution/src/fork_manager.rs:44-56 | the walk back from the canonical tip meets the canonical blocks as far as they are known |
| Canon.RemovedIsLineage | rust-tron/crates/tron-execution/src/fork_manager.rs:235-242 | the linked blocks that removing by parent hash takes are exactly those of the new head's lineage, through whichever store it leads and however the hashes run |
| Canon.RemovedAreAncestorsIff | rust-tron/crates/tron-execution/src/fork_manager.rs:235-242 | they are its ancestors in the graph if and only if the block at which the links end has no retained parent |
| Canon.ReturnedParentOpensTheWay | rust-tron/crates/tron-state/src/khaos.rs:453-484 | a block that was evicted and came back has no link from its child; of such a child removing takes a canonical block |
| Canon.NothingCanonicalRemoved | rust-tron/crates/tron-execution/src/fork_manager.rs:46-51 | without a common ancestor and such a dead link no ancestor of the old head is among them |
| Canon.ForgottenHeadProtectsNothing | rust-tron/crates/tron-execution/src/fork_manager.rs:46-51 | an old head that is no longer retained counts as having nothing in common, and all of the lineage goes |
| Retention.HighestFirst | rust-tron/crates/tron-state/src/khaos.rs:382-385 | the two searches find the first of the highest blocks |
| Retention.LeaderStays | rust-tron/crates/tron-state/src/khaos.rs:382-385 | it stays that while it is retained, whatever else is removed or evicted |
| Retention.CheckRoom | rust-tron/crates/tron-state/src/khaos.rs:337-351 | the loop foresees exactly whether room can be made |
| Retention.MakeRoom | rust-tron/crates/tron-state/src/khaos.rs:353-375 | the loop gives up what the recursive meaning does |
| Retention.FewestOldestGo | rust-tron/crates/tron-state/src/khaos.rs:353-375 | the oldest blocks go, never the parent, and no more of them than make room; if all are too few the new one is refused |
| Retention.RefusedIff | rust-tron/crates/tron-state/src/khaos.rs:337-351 | a block is refused if and only if it does not fit beside its parent alone |
| Retention.NewBlockIsKept | rust-tron/crates/tron-state/src/khaos.rs:216-249 | a new block above the head is not what goes |
| Retention.PushKeepsTheYoung | rust-tron/crates/tron-state/src/khaos.rs:216-249 | after a push every older block that was not given up for room and is no deeper than the capacity is there with its link to a remaining parent, deeper ones are gone, nothing else came, and the new block is linked to its parent |
| Retention.WaitingKeepsTheYoung | rust-tron/crates/tron-state/src/khaos.rs:216-249 | the same for the blocks that wait for their parents |
| Retention.PushFits | rust-tron/crates/tron-state/src/khaos.rs:216-249 | entries and bytes are then within the bounds |
| Retention.WaitingFits | rust-tron/crates/tron-state/src/khaos.rs:216-249 | and so are those of the waiting blocks |
| Retention.PlacedIff | rust-tron/crates/tron-state/src/khaos.rs:453-484 | a block is taken in if and only if its parent is there, one lower, and it fits beside it |
| Retention.TipMayGo | rust-tron/crates/tron-state/src/khaos.rs:353-375 | the canonical tip may be given up for room, if it came first |
| Forks.ForkManager.ApplyForkBlock | rust-tron/crates/tron-execution/src/block_manager.rs:215-267 | replays a retained block that extends the graph's head and passes the size, version, time, signature and witness checks, moving the head exactly on success |
| Forks.ForkManager.Retract | rust-tron/crates/tron-execution/src/fork_manager.rs:66-87 | takes an applied branch back to its ancestor without a failure, or as far as the checkpoints reach and reports where they ended |
| Forks.ForkManager.Replay | rust-tron/crates/tron-execution/src/fork_manager.rs:90-99 | stops exactly at the first block that does not apply |
| Forks.ForkManager.RestoreBranch | rust-tron/crates/tron-execution/src/fork_manager.rs:143-175 | from any number of applied new blocks, and from where the checkpoints ended, the old branch can be had again and only the pool can make this an error; from a head that could not step down it always is one |
| Forks.ForkManager.RemoveBadBranch | rust-tron/crates/tron-execution/src/fork_manager.rs:235-242 | removes the blocks on the line of parent hashes from the store that has them and makes the first of the highest remaining ones the head |
| Forks.ForkManager.InsertPinning | rust-tron/crates/tron-state/src/khaos.rs:216-249 | makes room without the parent, inserts, and drops what is too deep |
| Forks.ForkManager.InsertOrphan | rust-tron/crates/tron-state/src/khaos.rs:464-469 | the same among the blocks that wait |
| Forks.ForkManager.PushBlock | rust-tron/crates/tron-state/src/khaos.rs:453-484 | a block is placed if and only if its parent is there, one lower, and it fits beside it; which older blocks then stay and go, with entries and bytes within bounds; otherwise it is put among those that wait for a parent, or refused with everything as it was |
| Forks.ForkManager.Switch | rust-tron/crates/tron-execution/src/fork_manager.rs:43-128 | if the new branch can be executed from the fork and the pool follows, the state is what the canonical blocks and it make of the base; otherwise its first failing block or the pool is reported, and also when the checkpoints end above the fork, state and head are what they were; without a common block the state is untouched and the new head's line is removed |
| Chains.NextFits | rust-tron/crates/tron-execution/src/block_manager.rs:264 | the checkpoint of the next block always fits the stack, so a commit is never what fails |
| Chains.ChainManager.constructor | rust-tron/crates/tron-execution/src/block_manager.rs:134-166 | a run may begin with any state that canonical blocks made of a base whose own last block cannot be taken back |
| Chains.ChainManager.ApplyBlock | rust-tron/crates/tron-execution/src/block_manager.rs:215-267 | a new block on top is applied exactly when it is unknown, admitted, linked, has room and executes, and then extends the canonical branch by itself |
| Chains.ChainManager.Accept | rust-tron/crates/tron-execution/src/chain_manager.rs:105-117 | a block becomes canonical exactly when it extends the head and executes, or is higher and its branch executes from a canonical block, and the pool and the checkpoints allow it; the state stays what the canonical branch makes of the base and the branch never gets shorter. While the tip leads the graph and is retained it stays the head, and after a branch without common block was removed if and only if it is retained |
| Chains.ChainManager.SwitchTo | rust-tron/crates/tron-execution/src/chain_manager.rs:155-167 | a higher competing block becomes the tip if and only if its branch forks within the canonical one and can be executed from there, and the pool follows; otherwise the branch stays |
| Chains.ChainManager.Compete | rust-tron/crates/tron-execution/src/chain_manager.rs:113-116 | a competing block is known, refused, kept beside the head or taken over to, each exactly when; and what then leads the graph |
| Chains.ChainManager.ApplyDirect | rust-tron/crates/tron-execution/src/chain_manager.rs:119-143 | with the pool put aside and brought back and the checkpoints written: when the block stays, when it is taken back, and that a pool which cannot be brought back leaves it |
| Chains.ChainManager.Rollback | rust-tron/crates/tron-execution/src/chain_manager.rs:145-153 | taking the newest block back undoes it in state and graph |
| Chains.ChainManager.Forget | rust-tron/crates/tron-state/src/khaos.rs:279-328 | evicting any blocks keeps all of this |

## Left out

- Files, processes, sockets, clocks, the durable batch and its failures, fixed-count drift checks against JSON files.
- Schema and invariant checks: their messages are parameters of `Compare`; the schema files are not part of this
  model.
- `canonical()` and its size limit and refusal of infinities; the content digest is a parameter.
- Python subtrees are values here: two names for one mutable subtree are not represented.
- Non-ASCII digits and white space accepted by Python's `int()` in a list index.
- A JSON null and an absent value print alike in a difference row; the row type keeps that.
- Validation.WriterMeetsValidator: for rules that stay outside the log they append to; `ShippedRulesApply` shows that
  those of the shipped, closed policy do. What becomes of records under any other rules is `EntryAtEnd` and
  `RecordAtEnd`; the verdict on a record that was itself masked depends on what the mask made of it, and is left at
  that.
- Compare.NormalizedResultsMatch: for the same rules.
- RunLaws.RunSucceedsIff: for the same rules.
- RunLaws.RunIsRefusedFor: for the same rules.
- White space outside ASCII, which Python's `strip()` also removes from a line of code.
- Lone surrogates in a string, on which `encode()` raises in the limiter and in the tree digest.
- Negative varints, which make the Python writer raise, and negative schedule counts.
- Sessions: identifier wrap-around at 64 bits, the market-ordered index, writes to durable stores and metadata
  published past the layers, replacing or truncating the stack from persisted checkpoints, shutdown, a hook that
  injects a committed outer session for failure tests, and the per-handle flag that makes a finished handle inert.
- Khaos: the deprecated branch walk, callbacks, blocks without a head to start from. A link is kept as identifier and
  height of the parent object, so a parent object that outlives its eviction is not represented, nor a repeated
  identifier: the callers refuse one. A block takes the same size when room is foreseen as when it is made.
- Fork switch: what the pending pool does in its own sessions, which is reduced to whether it can be put aside,
  rebuilt, discarded and put back; the transaction cache, events and filters; replicas, which have no pool and do not
  switch. Execution is a function of the state below the block and of the block, so consensus, hooks and the
  transaction cache are assumed to answer the same when a block is replayed.
- Forks.ForkManager.Switch: promises its outcome when the graph is one (`ForkSwitch.Graph`, kept by pushing and
  removing) and the state is what known canonical blocks made of a base at rest; when the fork lies below that base,
  only if the base's own last block cannot be taken back. `Chains` shows that runs keep to this.
- Chains.ChainManager.Accept: goes on being covered as long as the graph's head is the canonical tip. What it says of
  the head assumes that no block hashes to zero.
- Evidence: keys that do not hold lists or objects are rejected by type before; values compare as JSON values, so a
  number and a boolean that Python calls equal differ here.
- Elliptic-curve arithmetic: a cyclic group written by exponents; ECDSA signing is not modelled.
- `process_children` reads `/proc`; the child relation is a parameter.
- Config-key heuristics, release assembly, drills and the network oracles: no algorithm to state a law about.
