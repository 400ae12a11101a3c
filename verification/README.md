# Proofs about an offline record verifier

The repository checks sealed records with nothing but the record in hand: that a public-log entry is really in the
log and really belongs to the record, that a policy hash stands for one policy, that a job's records hang together,
that a document reads the same in every reader. Each check is a local computation over bytes, and each is said to
mean something global. This project models the computations and proves the meanings.

## How it is laid out

| file | what it holds |
|---|---|
| Text.dfy | joins, splits, byte order, hex digits, decimal numbers, canonical integers |
| Merkle.dfy | the inclusion proof loop against sections 2.1 and 2.1.1 of RFC 6962 |
| Anchor.dfy, AnchorMeaning.dfy | checkpoints, the whole anchor check, and what acceptance says about the log |
| CanonicalJson.dfy, JsonReader.dfy | the canonical JSON writer, its unique readability, and a reader of JSON that undoes it |
| Policy.dfy, PolicyHash.dfy, PolicyReader.dfy | the policy document, the preimage its hash is taken over, and the policy read back out of it |
| Decide.dfy, DecideMeaning.dfy | the decision engine, and a typed meaning of rules it is proved to agree with |
| Job.dfy, JobMap.dfy, JobVerdict.dfy, JobGraph.dfy, JobOrder.dfy | job blocks, the job map check, what each verdict says of the records, reachability in their graph, and what renaming files changes |
| StringScan.dfy, StrictJson.dfy, StrictMeaning.dfy | the byte scanner over string escapes, the token walk, and what holds at every place of an accepted document |
| PolicyHistory.dfy, HistoryReader.dfy | length-prefixed activation hashes, the chain of policy changes, and what acceptance says of each change |
| Preimages.dfy, PreimageReader.dfy | NUL-joined preimages, and the contexts and sections read back out of them |
| LeafBinding.dfy, LeafReader.dfy | tables, dot-joined ledger leaves and the sealed requirement, and each read back |
| FlatPreimage.dfy | flat key and value preimages |
| Tamper.dfy, TamperEdit.dfy, TamperApply.dfy | the list of tamper edits, what an edit means, and the edit in place |

## Conventions

- SHA-256 is a function parameter. A theorem that needs it to be injective asks for that on the finite set of strings
  hashed in its own hypotheses, never on all strings, and for 32 bytes (or 64 lowercase hex characters) of output.
- A Go string is a `string` whose `char` stands for one byte. In CanonicalJson, Policy, PolicyHash, Decide, Tamper and
  FlatPreimage a `char` is a Unicode scalar value instead: those texts are valid UTF-8, whose byte order is scalar order.
- Integers that Go keeps in 64 bits are ranged or wrapped where it shows: `ParseInt64`, `ParseUint64`, `Altered`.
- Code that loops or updates fields is a method proved against a function or predicate of its inputs; the theorems are
  lemmas about those functions.
- A text that is hashed or signed has a reader of its own beside the lemma that it is unique: the reader names every
  member, tag and place itself, so a value under another's name or in another's place would not come back.
- Where a comment in the source and its code differ, the code is followed. The comment above the proof loop
  (internal/rekorverify/verify.go:413-429) says the log hands over the prefixed leaf hash; the caller computes it from
  the entry body under a 0x00 prefix (lines 221-225), and so does the model.

## Findings

- The inclusion loop agrees with the recursive definitions for every tree size, and accepts a path length exactly when
  it is the audit path's.
- "COMPLETE means the final step leads to every record" is false without acyclicity: `CycleNotReached` gives the map,
  `CompleteReachesIff` the exact condition (the records the final step does not reach can be ranked). Hashing supplies
  that rank only where a record's hash covers its job block. A receipt's hash does not: it covers the receipt's fixed
  fields (internal/artifacts/deny_receipt.go:74-104), and the job block stands beside it in `receipt_context`
  (jobmap.go:92-97). `CycleNotReached` holds for whatever three hashes such records have.
- Adding an unknown key makes a different record except when the object already has that key with that value
  (`EditAlters` says exactly so, `AddedTwice` gives the record).
- The actor section's signature block carries no tag, so a section with a job alone and one with a version 1 signature
  and an account have the same number of parts. They still differ, because a list of hashes is never the word
  "account" (`JobIsNotSignatureAndAccount`). So `SectionHashUnique` holds for signatures of any version and keys of any
  length.
- A history "under one API key" (internal/artifacts/policy_activation.go:39) is not checked to be one: neighbours' chain
  ids are never compared (policyhistory.go:83-107). `ChainsCanMix` gives the accepted history of two changes in two
  chains, `OneChainIff` the comparison that would settle it. The ids of all earlier changes are still fixed by any later
  activation hash (`HistoryFixedByTip`).
- The leaf check reads identity fields without asking whether they hold dots. That is harmless for a copy: every form
  has its own number of fields, so `LeafTextUnique` needs dot-free fields of the logged record only. NUL is different:
  `NulHidesRequirement` shows that the digest alone would not tell two rows from one, so strict reading must refuse it.
- A flat preimage is JSON only while no value holds a control character, since only the quote and the backslash are
  escaped (internal/artifacts/builder.go:821-838); `FlatIsJson` says exactly so. It is uniquely readable all the same.
- A policy hash fixes the decision for all policies, whether or not `validate` accepts them.

## Model

| member | source | states |
|---|---|---|
| Merkle.RecomputeRoot | internal/rekorverify/verify.go:430-477 | the nested loop over `fn` and `sn` returns what climbing the tree level by level returns, and refuses exactly the indices outside the tree |
| Merkle.SplitPointIsLargestPower | bundleanchor_test.go:207-230 | the split of a tree of n leaves is the largest power of two below n |
| Merkle.InclusionComplete | internal/rekorverify/verify.go:438-476 | for every list and every index, the walk over PATH(i, D) from leaf i reaches MTH(D) |
| Merkle.WalkLength | internal/rekorverify/verify.go:446-474 | a walk ends in a root, too short or too long exactly as the path's length is equal to, below or above that of PATH(i, D), whatever hashes it holds |
| Merkle.InclusionUnique | internal/rekorverify/verify.go:430-486 | for one index, size and root at most one leaf hash and path are accepted |
| Merkle.InclusionSound | internal/rekorverify/verify.go:430-486 | a walk that reaches MTH(D) started at D's own leaf and followed exactly PATH(i, D) |
| Merkle.SmallTrees | internal/rekorverify/verify.go:221-223 | the hashes of one, two and three entries are those RFC 6962 spells out, a 0x00 before an entry and a 0x01 before two hashes |
| Checkpoint.SplitCheckpoint | internal/rekorverify/verify.go:544-579 | the loop splits a note as its format defines: the text through the first blank line's newline, and the signature lines after it, every one with its prefix |
| Checkpoint.NoteRoundTrip | internal/rekorverify/verify.go:544-579 | splitting a note gives back exactly the signed bytes and the signature lines it was made of |
| Checkpoint.NoteReads | internal/rekorverify/verify.go:544-579 | a text made like a note is one exactly when it has lines and every line opens with the em dash and a space |
| Checkpoint.ReturnsIgnored | internal/rekorverify/verify.go:544-579 | a note with Windows line ends reads as the same note |
| Checkpoint.HexDecodesBack | internal/rekorverify/verify.go:227-239 | hex decoding undoes hex encoding on every byte string |
| Anchor.VerifySignedCheckpoint | internal/rekorverify/verify.go:508-539 | accepts exactly when the body states the root and size and the first line with the key's hint carries a signature of that body |
| Anchor.DecodePath | internal/rekorverify/verify.go:232-239 | the siblings are the decoded digests in order, and one bad digest refuses the path |
| Anchor.VerifyInclusion | internal/rekorverify/verify.go:211-249 | passes exactly when the body names the leaf and the path leads to the claimed root; otherwise names the first step that fails |
| Anchor.VerifyAnchorWithKey | internal/rekorverify/verify.go:191-279 | accepts exactly when body, leaf, path, root, checkpoint, log id and timestamp all agree; any other outcome names the first check the input fails |
| AnchorMeaning.BodyReads | internal/rekorverify/verify.go:588-614 | on a checkpoint body written for a size and a root, the body check passes exactly for that size (an int64) and that root in hex of any case |
| AnchorMeaning.StampUnique | internal/rekorverify/verify.go:285-323 | the signed timestamp text fixes entry body, time, log id and global index |
| AnchorMeaning.CheckpointSound | internal/rekorverify/verify.go:251-257 | under a log key that signs only checkpoints of a real log and stamps of recorded entries, an accepted anchor's size and root are those of a prefix of that log |
| AnchorMeaning.EntryIsLogged | internal/rekorverify/verify.go:211-249 | when the claimed root is the log's own, the decoded entry body is the log's entry at the index and the path its audit path |
| AnchorMeaning.StampSound | internal/rekorverify/verify.go:296-323 | an accepted timestamp is one the log recorded, and no checkpoint can stand in for it |
| AnchorMeaning.AnchorSound | internal/rekorverify/verify.go:191-279 | so the log's own entry at the index is exactly the decoded entry body and names the claimed leaf hash, the path is its audit path, and time and global index are as recorded |
| AnchorMeaning.EntryFixesLeaf | internal/rekorverify/verify.go:395-410 | two accepted anchors over one entry are for one leaf hash, so an anchor cannot be moved to another record |
| AnchorMeaning.AcceptedSupplies | internal/rekorverify/verify.go:191-323 | an accepted input has nothing empty, an index inside its tree, a 32-byte root, a global index that is no negative number, and the hex digest of the log's own key as its log id |
| AnchorMeaning.CaseIgnored | internal/rekorverify/verify.go:264-405 | letter case in the leaf hash and the log id does not change acceptance |
| AnchorMeaning.BlanksIgnored | internal/rekorverify/verify.go:588-614 | nor do blanks around the size and the root in a checkpoint's body |
| AnchorMeaning.CheckpointSigned | internal/rekorverify/verify.go:508-660 | an accepted checkpoint has a line of the first four bytes of the key's digest and the key's signature of the body |
| AnchorMeaning.HintOpensLogId | internal/rekorverify/verify.go:652-674 | the key hint is the first four bytes of what the log id is the hex of |
| AnchorMeaning.StampIsJson | internal/rekorverify/verify.go:285-310 | the signed timestamp text reads as a JSON object of body, integratedTime, logID and logIndex, each value under its name |
| AnchorMeaning.StampSigned | internal/rekorverify/verify.go:296-323 | with an accepted timestamp the key signed such an object of this entry, this time, the key's log id in lower case and this index |
| AnchorMeaning.LineReads | internal/rekorverify/verify.go:623-650 | a signature line written for a key hint gives its signature to that hint and to no other |
| AnchorMeaning.LinesRead | internal/rekorverify/verify.go:524-538 | among a note's lines the first with the log's hint is the one read |
| AnchorMeaning.BodyIsPlain | internal/rekorverify/verify.go:544-579 | a checkpoint made of non-empty lines has no blank line in it, so the note ends its body where the log did |
| AnchorMeaning.CheckpointReads | internal/rekorverify/verify.go:508-614 | a checkpoint issued for a tree and cosigned by others is read back with that size, root and signature |
| AnchorMeaning.StampReads | internal/rekorverify/verify.go:296-323 | a timestamp issued over an entry, its time and its printed index verifies |
| AnchorMeaning.AnchorComplete | internal/rekorverify/verify.go:191-279 | every proof a log issues is accepted: entry, root, path and stamp written out in base64, hex and decimal, the checkpoint a note with the log's own line among others |
| CanonicalJson.SortKeys | internal/policyhash/policyhash.go:414-418 | distinct keys come out strictly increasing and are the same keys |
| CanonicalJson.WriteCanonical | internal/policyhash/policyhash.go:381-438 | the writer appends exactly the canonical text of the tree, whatever order the map's keys are met in |
| CanonicalJson.IncreasingUnique | internal/policyhash/policyhash.go:414-418 | a set of keys has one increasing list, so insertion order is forgotten |
| CanonicalJson.QuoteUnique | internal/policyhash/policyhash.go:395-400 | an escaped string at the front of a text is read one way, and so is what follows it |
| CanonicalJson.CanonInjective | internal/policyhash/policyhash.go:381-459 | equal canonical texts come only from equal trees |
| JsonReader.CanonReads | internal/policyhash/policyhash.go:381-459 | a reader written from RFC 8259 makes of every canonical text the tree it was written for |
| PolicyHash.CanonicalPolicyForHash | internal/policyhash/policyhash.go:202-236 | the preimage built step by step is the specified tree, optional parts only when present |
| PolicyHash.RulePreimage | internal/policyhash/policyhash.go:269-288 | a rule's preimage is the specified tree, with conditions and reason only when present |
| PolicyHash.ConditionPreimages | internal/policyhash/policyhash.go:276-345 | the list of condition preimages, in order |
| PolicyHash.SignerPreimages | internal/policyhash/policyhash.go:222-254 | the list of signer preimages, in order |
| PolicyHash.PolicyHashOf | internal/policyhash/policyhash.go:349-374 | the policy hash is the hash of the canonical text of the preimage |
| PolicyHash.ConditionSeen | internal/policyhash/policyhash.go:328-345 | two conditions have one preimage exactly when they agree on the type and the fields that type uses |
| PolicyHash.RuleSeen | internal/policyhash/policyhash.go:269-345 | two rules have one preimage exactly when they agree on everything but name, priority and condition fields of other types |
| PolicyHash.PolicySeen | internal/policyhash/policyhash.go:202-345 | two policies have one preimage exactly when they agree on everything but metadata, tags, signature bytes and times, a signature threshold below one, and what their rules leave out |
| PolicyReader.ConditionReads | internal/policyhash/policyhash.go:328-345 | looked up by name, a condition's members give back its type and that type's fields, each in its place |
| PolicyReader.ConditionKeys | internal/policyhash/policyhash.go:328-345 | a condition carries exactly its type and that type's fields |
| PolicyReader.RuleReads | internal/policyhash/policyhash.go:269-326 | looked up by name, a rule's members give back subject, verb, object, conditions, effect and reason |
| PolicyReader.SignerReads | internal/policyhash/policyhash.go:238-254 | so do a signer's: id, algorithm and fingerprint |
| PolicyReader.SignaturePolicyReads | internal/policyhash/policyhash.go:214-267 | and a signature policy's: type, threshold above zero, required signers |
| PolicyReader.HashedTextReads | internal/policyhash/policyhash.go:202-374 | the text the hash is taken over, read as JSON and by name, gives back everything the hash sees of the policy |
| PolicyReader.PolicyKeys | internal/policyhash/policyhash.go:202-236 | no other member stands in a policy's preimage |
| PolicyHash.RuleUnseen | internal/psleval/decide.go:90-168 | what a rule's preimage leaves out changes neither its readability, nor whether it matches, nor its reason |
| PolicyHash.DecisionUnseen | internal/psleval/decide.go:42-59 | nor the decision |
| PolicyHash.HashDeterminesDecision | internal/policyhash/policyhash.go:202-345 | two policies with one hash give the same decision, readable or not, on every context |
| Decide.Contains | internal/psleval/operators.go:39-52 | the double loop finds a substring exactly when there is one |
| Decide.InSet | internal/psleval/operators.go:54-61 | the loop finds a value exactly when the list holds it |
| Decide.Match | internal/psleval/operators.go:4-23 | a matcher holds of a value as its operator says, and an unknown operator never does |
| Decide.HHMMExact | internal/psleval/decide.go:183-198 | a time of day is read exactly when it is the five-character print of a minute of the day, and then as that minute |
| Decide.MatchSubject | internal/psleval/decide.go:107-115 | type, id, and role when the rule names one |
| Decide.MatchObject | internal/psleval/decide.go:121-139 | type, id and both classification bounds |
| Decide.MatchConditions | internal/psleval/decide.go:142-168 | every condition holds |
| Decide.MatchRule | internal/psleval/decide.go:46-52 | subject, verb, object and conditions all match |
| Decide.RuleIsReadable | internal/psleval/decide.go:61-88 | every operator of the rule is known, every bound comparable and every condition readable |
| Decide.CheckReadable | internal/psleval/decide.go:61-105 | passes exactly when every rule is readable |
| Decide.Decide | internal/psleval/decide.go:42-59 | unreadable rules stop it; otherwise the first matching rule or the default, with its reason |
| DecideMeaning.TestAgrees | internal/psleval/operators.go:4-97 | an operator is known exactly when it names a test, and then the engine's match is that test, stated by concatenation |
| DecideMeaning.LevelAgrees | internal/psleval/operators.go:69-116 | classifications compare exactly when both are levels, and then in the order of the levels |
| DecideMeaning.WindowAgrees | internal/psleval/decide.go:172-180 | a time window holds exactly of the minutes met walking forward from its start to its end, midnight or not |
| DecideMeaning.DemandAgrees | internal/psleval/decide.go:90-168 | a condition is readable exactly when it names a demand the context can answer, and then it holds as that demand does |
| DecideMeaning.ReadableIffUnderstood | internal/psleval/decide.go:61-105 | a rule is readable exactly when every name in it reads and the context supplies what it compares |
| DecideMeaning.MatchesIffHolds | internal/psleval/decide.go:107-180 | on a readable rule the engine agrees with the typed rule, which has no fallback branches |
| DecideMeaning.FailStopFirstMatch | internal/psleval/decide.go:42-180 | a decision is made exactly when every rule is understood, those after the firing one included, and the firing rule is the first that holds |
| DecideMeaning.FirstRuleDecides | internal/psleval/decide.go:46-56 | the first rule that applies gives its effect as the outcome, its name, and its own reason or the word for its effect |
| DecideMeaning.DefaultDecides | internal/psleval/decide.go:58 | when none applies the default effect is the outcome, under the default's name and reason |
| DecideMeaning.RatesOnlyDelay | internal/psleval/decide.go:151-168 | raising rate counts never makes an earlier rule fire and never changes readability |
| Job.ValidateHashList | internal/artifacts/job.go:42-55 | comparing neighbours accepts exactly the bounded, well-formed, strictly sorted lists |
| Job.Validate | internal/artifacts/job.go:59-73 | accepts exactly the job blocks of valid shape |
| JobVerdict.ValidIffShaped | internal/artifacts/job.go:28-73 | valid are the blocks of names and hashes in the patterns' characters and lengths, with at most 64 and 16 links in order |
| Text.LessIff | internal/artifacts/job.go:42-55 | the order of strings is that of a dictionary of bytes |
| JobMap.MainJobID | jobmap.go:135-150 | the job of the first record no other record names as external |
| JobMap.ExternalTargets | jobmap.go:201-209 | every external link of every record, and nothing else |
| JobMap.JobIndex.CheckRecord | jobmap.go:163-180 | a problem is added exactly when the record fails, has no job, has another job without being an external target, or has a job block of bad shape |
| JobMap.JobIndex.IndexJob | jobmap.go:160-193 | the index holds exactly the job's records, and no problem is added exactly when every record is in place and none repeats |
| JobMap.JobIndex.FollowLinks | jobmap.go:211-225 | marks exactly the hashes some indexed record follows, and reports exactly when a link lands nowhere |
| JobMap.JobIndex.FindDropped | jobmap.go:229-235 | reports exactly when some step that is not final is followed by none |
| JobMap.IndexIsJob | jobmap.go:160-193 | with no repeats, checks on the index are checks on the job's records |
| JobMap.CheckJobMap | jobmap.go:196-251 | the verdict is FAILED, COMPLETE or OPEN exactly as the local conditions on the records say |
| JobVerdict.VerdictIff | jobmap.go:160-251 | FAILED exactly when a record fails, lacks a job, is a stranger or is malformed, a record or step is there twice, a link lands nowhere, two steps are final, or a branch was dropped; else COMPLETE or OPEN as a final step is there or not |
| JobVerdict.BadRecordFails | jobmap.go:163-180 | one record that fails, has no job, has a job no external link explains, or has a malformed job block makes the map FAILED |
| JobVerdict.MainJobIs | jobmap.go:135-150 | the job is that of the first record with a job block that no record names as an external link |
| JobOrder.OrderForgotten | jobmap.go:135-251 | in whatever order the records are taken the verdict is the same, and so is the main job when nothing is wrong |
| JobOrder.RenamingChangesNothing | jobmap.go:108-251 | renaming the files of a folder, which also reorders them, changes neither |
| JobGraph.CompleteReachesAll | jobmap.go:196-251 | COMPLETE and a rank that previous-links decrease: the one final step leads back to every record |
| JobGraph.CompleteReachesIff | jobmap.go:196-251 | COMPLETE leads back to every record exactly when what the final step does not reach can be ranked |
| JobGraph.CycleNotReached | jobmap.go:196-251 | for any three hashes there are job blocks that make a COMPLETE map with a cycle the final step does not reach |
| JobGraph.DroppedRecordFails | jobmap.go:160-250 | leaving out a record another kept record follows makes the map FAILED |
| JobGraph.PartWithoutFinal | jobmap.go:226-250 | no part without the final step is COMPLETE |
| JobGraph.ReachedComplete | jobmap.go:196-251 | what the final step of a COMPLETE single job reaches is COMPLETE by itself |
| JobGraph.NothingDroppedIff | jobmap.go:160-250 | in a COMPLETE single job, no proper part is COMPLETE exactly when the final step reaches every record, and exactly then every proper part that keeps the final step is FAILED |
| JobGraph.NothingDropped | jobmap.go:160-251 | a COMPLETE single job whose links decrease a rank has no COMPLETE proper part, and a proper part that keeps the final step is FAILED |
| StringScan.CheckStringText | internal/artifacts/strictjson.go:294-342 | on every text of JSON's grammar the scan accepts exactly when the text is valid UTF-8 and no string decodes to a NUL or an unpaired surrogate |
| StringScan.Hex4Reads | internal/artifacts/strictjson.go:345-354 | four hex digits are read most significant first, in either case |
| StringScan.OneEscape | internal/artifacts/strictjson.go:316-338 | a string of one escape is accepted unless it spells NUL or half a surrogate pair |
| StringScan.TwoEscapes | internal/artifacts/strictjson.go:316-338 | of two, U+D800 to U+DBFF is accepted exactly before U+DC00 to U+DFFF, and the latter exactly after the former |
| StringScan.LeftToDecoder | internal/artifacts/strictjson.go:306-320 | a cut-off or malformed escape is left to the decoder to refuse |
| StringScan.SoundFromLeft | internal/artifacts/strictjson.go:322-338 | pairing surrogates left to right is the same as every surrogate having its partner beside it |
| StringScan.ScanHigh | internal/artifacts/strictjson.go:327-336 | after a high surrogate the scan goes on only past a low one written as an escape, twelve bytes in all |
| StringScan.ScanPieces | internal/artifacts/strictjson.go:294-342 | from any position at which a text of the grammar stands, the scan accepts exactly the sound strings |
| StringScan.SoundIffReadAlike | internal/artifacts/strictjson.go:27-32 | a string is accepted exactly when a reader that replaces unpaired surrogates by U+FFFD and one that keeps them see the same text, and it has no NUL |
| StringScan.AcceptedIffReadAlike | internal/artifacts/strictjson.go:294-342 | a text is accepted exactly when all its strings read alike in both kinds of reader |
| StrictJson.WalkStrict | internal/artifacts/strictjson.go:130-205 | the walk accepts exactly the strict documents and leaves the decoder just past them |
| StrictJson.WalkItems | internal/artifacts/strictjson.go:146-157 | a list passes exactly when every item is strict at the element type |
| StrictJson.FoldsToPrior | internal/artifacts/strictjson.go:179-184 | finds an earlier key that folds to the same text exactly when there is one |
| StrictJson.WalkMembers | internal/artifacts/strictjson.go:158-202 | with the keys seen so far, an object passes exactly when no two keys fold together and each is allowed with a strict value |
| StrictJson.CheckStrict | internal/artifacts/strictjson.go:104-117 | on a text and the document its tokens begin with, accepts exactly when the text's strings all read alike, the document is strict, and nothing follows it |
| StrictMeaning.TextTokens | internal/artifacts/strictjson.go:130-205 | the tokens of a document written in JSON's brackets, commas and colons are the document's tokens, so the walk is over that document |
| StrictJson.EveryMemberIsRead | internal/artifacts/strictjson.go:172-196 | in an accepted struct object every member is the one every reader takes for the field it names |
| StrictJson.KeysDistinctIffReadersAgree | internal/artifacts/strictjson.go:172-196 | readers take the same member for every field exactly when the keys stay apart under folding |
| StrictJson.ReadersAgree | internal/artifacts/strictjson.go:130-205 | folding last-wins, exact first-wins and exact last-wins readers see the same values everywhere in an accepted document |
| StrictJson.TokensUnique | internal/artifacts/strictjson.go:130-205 | tokens are read back into a document in one way, and end where it ends |
| StrictJson.OneTextOneView | internal/artifacts/strictjson.go:14-40 | of one accepted text all readers have one document and see one set of values, whether they replace unpaired surrogates or keep them and whichever member they take for a field |
| StrictMeaning.StrictIffEverywhere | internal/artifacts/strictjson.go:130-205 | a document is accepted exactly when at every place in it integers are spelled as they print and fit 64 bits, keys stay apart, and a struct's keys are its own |
| StrictMeaning.IntegerStrictIff | internal/artifacts/strictjson.go:207-288 | an integer as it prints is accepted exactly from -9223372036854775808 to 18446744073709551615 |
| Decimal.CanonicalIntegerExact | internal/artifacts/strictjson.go:253-288 | an integer literal passes exactly when it is the decimal print of some int64 or uint64 |
| Decimal.CanonicalIntegerRoundTrip | internal/artifacts/strictjson.go:253-288 | parsing an accepted literal and printing it gives the same bytes |
| Activation.ComputeHash | internal/artifacts/policy_activation.go:61-72 | the running digest is the hash of the length-prefixed fields, nine or thirteen |
| Activation.EncodedUnique | internal/artifacts/policy_activation.go:61-72 | a length-prefixed text is read back into its fields in one way, free text included |
| Activation.PreimageUnique | internal/artifacts/policy_activation.go:61-72 | equal hash texts come from records equal in every field but hash and anchor, signature present or absent alike |
| HistoryReader.ActivationReads | internal/artifacts/policy_activation.go:61-72 | the hashed text reads back, length by length and field by place, as the record but for its hash and log entry |
| PolicyHistory.CheckActivationSignature | policyhistory.go:110-125 | passes exactly when there is no signature or it verifies over chain, text and place |
| PolicyHistory.CheckActivationEntry | policyhistory.go:128-165 | passes exactly when the entry binds the record, verifies, and was logged by an accepted signer in time |
| PolicyHistory.CheckActivation | policyhistory.go:83-107 | passes exactly when the record links at its place; otherwise the fault named is one it has |
| PolicyHistory.LeafFixesPlace | internal/artifacts/policy_activation.go:93-97 | valid records with one leaf have the same chain, hash, sequence and predecessor |
| PolicyHistory.SignedTextUnique | internal/artifacts/policy_activation.go:51-56 | two NUL-free signed texts are equal exactly for the same chain, policy text, predecessor, time and nonce |
| HistoryReader.LeafReads | internal/artifacts/policy_activation.go:93-97 | the leaf holds, after its tag, kind, chain, hash, sequence and predecessor in that order |
| HistoryReader.ApprovalGenuine | internal/artifacts/policy_activation.go:51-56 | if a key's owner signed only certain approvals, an accepted change signed by it has the chain, policy text, place, time and nonce of one of them |
| PolicyHistory.PolicyHistoryCheck.CheckPolicyHistory | policyhistory.go:46-80 | accepts exactly the non-empty histories in which every change links, lists every change before the first fault, and names that fault |
| HistoryReader.AcceptedIff | policyhistory.go:46-165 | a history is accepted exactly when it has changes and each has its shape, place, hash and time, its log entry, and its approval if it is signed |
| HistoryReader.ChangeShows | policyhistory.go:66-71 | the report lists a change under its own values |
| PolicyHistory.PolicyHistoryCheck.RecordInChain | policyhistory.go:180-197 | the named change must be in an accepted history |
| PolicyHistory.HistoryFixedByTip | policyhistory.go:46-107 | two accepted histories that share an activation hash have it at the same place and agree on every earlier change but for log entries |
| PolicyHistory.NamedChangeIsOne | policyhistory.go:180-197 | no activation hash stands twice in an accepted history |
| PolicyHistory.TimesInOrder | policyhistory.go:96-102 | activation times never go back, over any pair of changes |
| PolicyHistory.OnlyTheEndCanBeDropped | policyhistory.go:46-107 | of the histories made from some of its changes, exactly its beginnings are accepted |
| PolicyHistory.ChainsCanMix | policyhistory.go:83-107 | a history that moves from any chain id to any other is accepted as soon as the log takes its two records |
| PolicyHistory.OneChainIff | internal/artifacts/policy_activation.go:39 | a history is of one chain exactly when no change names another chain than the one before it |
| Preimages.ContextHash | internal/artifacts/job.go:141-162 | parts grown block by block hash as the specified join |
| Preimages.SectionHash | internal/artifacts/types.go:630-645 | so do the actor section's, the short form included |
| Preimages.SignatureUnique | internal/artifacts/types.go:619-625 | a signature's four fields, or seven when it has a version, are read back in one way: equal lists come from signatures equal in all but what version 1 leaves out |
| Preimages.BlockUnique | internal/artifacts/job.go:144-160 | an optional block is there or not, and where it ends, in one way |
| Preimages.HashListUnique | internal/artifacts/job.go:92-94 | a comma-joined list of valid hashes is read one way, the empty list included |
| Preimages.ContextHashUnique | internal/artifacts/job.go:141-162 | two receipt contexts share a hash exactly when they have the same blocks and fields, but for what a version 1 signature leaves out |
| PreimageReader.ContextReads | internal/artifacts/job.go:141-162 | the hashed text, read by its tags and places, gives back request, signature, job, policies and account |
| Preimages.JobIsNotSignatureAndAccount | internal/artifacts/types.go:630-645 | the one meeting of lengths between sections with and without a signature is no clash |
| Preimages.SectionHashUnique | internal/artifacts/types.go:619-645 | two actor sections share a hash exactly when they have the same blocks and fields, but for what a version 1 signature leaves out |
| PreimageReader.SectionReads | internal/artifacts/types.go:619-645 | so does an actor section's, whose signature no tag opens |
| Sealing.TableDigest | internal/artifacts/sealing.go:117-124 | rows appended one by one hash as the specified join, under each of the three domains |
| Sealing.TableSealsAnchoringWindow | internal/artifacts/sealing.go:247-254 | finds the window row exactly when it is at some position |
| Sealing.TableRequiresCompleteRecordAnchor | internal/artifacts/sealing.go:261-268 | finds the requirement row exactly when it is at some position |
| Sealing.PreAnchorTableForm | internal/artifacts/sealing.go:273-281 | the form follows the rows present |
| Sealing.DigestForTable | internal/artifacts/sealing.go:285-292 | the digest is under the domain of the table's own form |
| Sealing.TableTextUnique | internal/artifacts/sealing.go:117-292 | a table's text fixes its domain and every row |
| LeafReader.TableReads | internal/artifacts/sealing.go:117-124 | a table's text reads back as its domain and its rows, each a name and then a value |
| LeafReader.TableFormIs | internal/artifacts/sealing.go:247-292 | which row selects which version, in the rows' own names |
| LeafBinding.VerifyLeafBinding | leafbinding.go:112-242 | selects the form from the data, and matches exactly when the leaf rebuilt from the record's own contents is the one claimed; missing inputs are named |
| LeafBinding.MissingNames | leafbinding.go:130-142 | names exactly the empty inputs, in order |
| LeafReader.NamesAre | leafbinding.go:130-142 | each name is listed exactly when the input it names is empty |
| LeafReader.MatchIff | leafbinding.go:112-242 | a record matches exactly when it claims a public-log leaf, lacks no input, and the leaf is the hash of its text |
| LeafReader.LeafReads | leafbinding.go:150-235 | after the tag of its version, a leaf holds envelope, AER hash and binding hash, the nonce from version 2 on, and the version's digests |
| LeafBinding.LeafTextUnique | leafbinding.go:106-108 | a dot-joined leaf text fixes its form and fields, although the tag itself has dots; only one of the two records need have dot-free identity fields |
| LeafBinding.LeafFixesRecord | leafbinding.go:112-242 | two records matching one leaf have the same form and identity, and the same table row for row (v5 to v7, tables without NUL) or section and flags (v3, sections without NUL and job blocks of valid shape) |
| LeafBinding.VerifyCompleteRecordRequirement | bundleanchor.go:181-207 | demanded exactly when the row is there, satisfied exactly when an anchor is present, holds and is on the log if the run is |
| LeafReader.RequirementIs | bundleanchor.go:181-207 | the row that demands is complete_record_anchor, and it is met exactly by an anchor that is there, holds, and is logged when the run is |
| LeafBinding.RequirementSurvives | bundleanchor.go:181-207 | of two records matching one leaf, one demands a record anchor exactly when the other does; asked for are dot-free identity fields of the logged record and tables without NUL, and nothing of the actor section or the copy's identity |
| LeafBinding.StrippedCopyFails | bundleanchor.go:181-207 | so a copy whose record anchor is absent, failing or off the log is found demanding and unsatisfied |
| LeafBinding.NulHidesRequirement | internal/artifacts/sealing.go:117-292 | were a NUL let into the copy's table, two rows could be folded into one with the same leaf text and the demand gone |
| FlatPreimage.JsonEscape | internal/artifacts/builder.go:821-838 | the loop, and the early return, escape exactly the quote and the backslash |
| FlatPreimage.CanonicalHashOf | internal/artifacts/builder.go:798-815 | the text built piece by piece is the specified flat text |
| FlatPreimage.ReadEscaped | internal/artifacts/builder.go:821-838 | scanning to the first unescaped quote undoes escaping |
| FlatPreimage.FlatIsJson | internal/artifacts/builder.go:798-838 | the text is a JSON object of its members exactly when no value holds a control character |
| FlatPreimage.FlatTextUnique | internal/artifacts/builder.go:798-838 | for one kind and key list, equal texts come only from equal values |
| FlatPreimage.FlatTextFixesAll | internal/artifacts/builder.go:798-838 | with plain kinds and keys, the text fixes kind, keys and values together |
| Tamper.ValueAt | tamper.go:701-716 | looks a path up step by step as the source does, null where nothing is found, and gives what the path leads to when it leads somewhere |
| Tamper.TamperChanges | tamper.go:89-135 | appends exactly the specified list of edits, keys in byte order |
| Tamper.ListedIff | tamper.go:89-135 | an edit is listed exactly when its path leads to a scalar to change, a key with a value that means something, a list item, a non-empty list or an object |
| TamperEdit.ZeroIff | tamper.go:137-170 | a value means nothing exactly when every scalar inside it is null, false, zero or empty |
| Tamper.ChangesDistinct | tamper.go:89-135 | no edit is listed twice |
| TamperEdit.AlteredDiffers | tamper.go:172-195 | the altered scalar is a scalar and differs, at the end of the int64 range too |
| TamperEdit.AlteredKind | tamper.go:172-195 | the altered scalar keeps its kind: a flag flips, an int64 grows by one, a hash stays a hash, other text grows, null becomes text |
| TamperEdit.AddedKey | tamper.go:229-231 | the key added is tamper_test_unknown_key, with the value "x" |
| TamperEdit.EditEffect | tamper.go:209-257 | the touched entry becomes the altered value, nothing, the added value or a copy of the last item |
| TamperEdit.EditFrame | tamper.go:209-257 | every path neither above nor below the touched entry is left as it was |
| TamperEdit.RemovedFrame | tamper.go:240-242 | removing an item leaves other lists alone and moves later items up one place |
| TamperEdit.EditAlters | tamper.go:209-257 | a listed edit makes a different record, but for adding the unknown key where it already stands with that value |
| TamperEdit.AddedTwice | tamper.go:229-231 | the record and listed edit after which nothing has changed |
| TamperApply.TamperReplace | tamper.go:260-270 | the rebuilt list takes the old one's place in its parent, or becomes the root |
| TamperApply.Decode | tamper.go:197-205 | decoding makes a tree of new maps and slices, none met twice, that reads as the document |
| TamperApply.Encode | tamper.go:255-256 | reading back gives what the references hold now |
| TamperApply.FindTarget | tamper.go:214-228 | the loop reaches the value its path leads to and the parent it stands in |
| TamperApply.EditContent | tamper.go:229-254 | one map entry or list item set or deleted in place |
| TamperApply.RebuildList | tamper.go:232-242 | the longer or shorter list is a new slice |
| TamperApply.Splice | tamper.go:218-241 | editing one map or slice of a decoded tree changes what the whole reads as at that path only |
| TamperApply.EditInPlace | tamper.go:209-257 | the edit through references reads as the specified record |
| TamperApply.TamperApply | tamper.go:209-257 | decoding, editing in place and reading back gives exactly the specified record |

## Left out

- Files, flags, HTTP, printing and exit codes.
- The verdict roll-up in main.go: one conjunction of the checks.
- SHA-256, ECDSA, Ed25519, X.509, PEM, base64, RFC 3339 times, Unicode case folding and white space trimming are function parameters with the few laws `Anchor.Sane` names.
- Fractional numbers, and the entry window arithmetic in `checkActivationEntry`, which is done in floats: whether an entry falls in its window is a parameter.
- Anchor.VerifyAnchorWithKey: error texts are not modelled, only which check failed; a malformed checkpoint or timestamp is not told apart from a failing one, and the entry body is read as JSON by a parameter.
- JobMap.CheckJobMap: does not model the order of problems, the report's external links and the signer columns, which depend on Go's map order or only display.
- StrictJson.WalkStrict: reads tokens of a well-formed document followed by any tokens; the decoder itself refuses malformed text. Types are finite trees given as input in place of reflection, so a type that contains itself is not covered.
- StringScan.CheckStringText: whether the bytes are valid UTF-8 is an argument; on text outside the grammar the method is specified by the scan only.
- StrictJson.CheckStrict: takes the cut of the bytes into strings, marks, words and numbers as an argument, since the decoder makes it; text that cannot be cut so is refused by the decoder and not covered. The characters a string's code units are written with are a parameter.
- Preimages.ContextHash: policy inputs enter as their JSON text; a failure to encode them is not modelled.
- `validate` and the reading of a policy document (internal/policyhash/policyhash.go:67-196): the theorems hold for every policy value.
- CanonicalJson.WriteCanonical: numbers are integers printed in decimal, as every number of a policy preimage is; the float branch of `writeCanonicalNumber` is not modelled.
- Sealing.TableDigest: one method with the domain as argument stands for three functions that differ in it alone.
- TamperEdit.Altered: a number outside int64 is raised through a parameter, since the source goes through a float.
- TamperApply.Decode: maps and slices are nodes whose content is replaced as one value; spare slice capacity, and JSON text itself, are not modelled.
- Recomputing hashes after an edit, spreading copies and grading who would catch an edit (tamper.go:274-1250).
- Receipt and token structs, entry authorship, maturity and provenance: lists of fields with no algorithm.
