# Rovaulta: a verified model

Rovaulta releases a robot build into a site only after a deterministic safety evaluation, an on-chain
clearance and one human signature. This project models the five parts of it that carry algorithms or
state, and proves what they promise.

1. **The safety evaluator** (`Geometry`, `Rules`, `Evaluator`, `Simulation`, `Model`, `ModelAcceptance`, `Xorshift`,
   `Scenarios`, `Commitments`, `CommitmentTexts`, `CommittedEvaluation`). A robot's path is tested against closed rectangles with integer cross products; the test is
   shown to agree with real geometry, and the intermediate values to stay exact in a double. The loop over
   steps and rules is shown to produce the one list a declarative specification allows, and the verdict to be
   CLEAR exactly when no scenario, step and rule is broken. The generator is a 32-bit xorshift written with
   JavaScript's signed shifts, followed by an in-place Fisher-Yates shuffle. The public request holds a digest of
   the confidential envelope; it is shown to fix the verdict.
2. **Canonical JSON, UTF-8, digests and the strict reader** (`Values`, `Canonical`, `Serializer`, `Unicode`,
   `CanonicalShape`, `JsonGrammar`, `JsonReader`, `JsonParser`, `StrictJson`, `Decimal`, `Digests`, `Base32`,
   `StoredText`, `AsciiRecords`, `RecordTexts`). Strings are
   sequences of UTF-16 code units. JSON texts are the printed forms of syntax trees (sections 2 to 7 of
   RFC 8259), so a text is JSON when some tree prints to it; the reader is shown to find that tree and the
   tree to be unique. The hand-written scanner for repeated member names is a second parser, and is
   compared with the same grammar.
3. **The release gate** (`Timestamps`, `Schemas`, `Records`, `Bindings`, `Registry`, `Authorizations`,
   `ReleaseGate`, `ReleaseMachine`, `ReleaseTables`, `ReleaseRuns`, `ReleaseProgress`). `prepare` and `consume` are cut at every
   `await`; a run is any interleaving of the pieces of any number of calls, with arbitrary registry answers
   and nonces. The table of requests stores real canonical text.
4. **The application store** (`BuildRecords`, `Application`, `ApplicationStore`, `ApplicationCodec`, `Lifecycle`,
   `SourceBuilds`, `BuildOrigins`, `Evaluations`, `Outcomes`, `Provenance`, `StoreProgress`, `StoredEvaluations`). One
   function for each transaction, the class that performs it, and every run of them: what each stored row holds,
   which events brought it, and when each transaction goes through. Descriptors and evidence are stored as canonical text and read back by the parsers.
5. **The deployment agent** (`AgentScript`, `DeploymentAgent`, `AgentRelease`, `AgentHistories`). An arbitrary model
   answers; the host owns the script, and the release gate answers the host. In a joint history of both, attempts are
   asked about while calls of the gate go on.

Where a method of the source updates fields, arrays or tables it is a method here, proved equal to a
specification function; the properties are lemmas about those functions and about all runs of them.
`Text`, `Sorting`, `Identifiers` and `Bits` hold shared definitions.

Results where the code does less than its documentation promises:

- A suite generated from a configuration of the legacy dialect is always refused by its own last check
  (`Scenarios.SuiteAcceptedIffCurrent`, with a concrete configuration in `Scenarios.LegacyConfigurationFails`).
- An authorization is read back exactly when the block hash of its second snapshot has the shape of 32 octets.
  That hash is never checked before it is stored, and `ReleaseRuns.BlockHashUnchecked` gives the run in which an
  authorization is handed out and its status is refused ever after. The round trip of
  `ReleaseRuns.AuthorizedForever` carries that condition.
- Pending, completed and rejected evaluations exclude each other exactly under the guard of
  `Outcomes.StepExclusiveExactly`. A synchronous answer that arrives after the callback inserts a second
  evaluation (`Outcomes.LateAnswerCompletesTwice`), every waiting call can be answered that way
  (`Outcomes.WaitingAnsweredTwice`), and a rejected id submitted again becomes pending
  (`Outcomes.ResubmissionRevives`). The server submits each id once, and then every run keeps them apart.

## Model

| member | source | states |
|---|---|---|
| Geometry.SegmentTestExact | packages/simulation-core/src/evaluator.ts:161-233 | For all integer endpoints, a stationary step included, and every rectangle of positive size, the integer test holds iff some real t in [0,1] puts start + t·(end − start) in the closed rectangle |
| Geometry.OrientationNeverRounds | packages/simulation-core/src/model.ts:40 | Within the coordinate bound every difference, both products and the result of `orientation` are at most 8·10^14 in size, so each is an exact double |
| Rules.EvaluateRuleMeaning | packages/simulation-core/src/evaluator.ts:235-327 | A rule reports a violation at a step iff the real-geometry condition of its family is broken there; the violation names that rule, scenario and step, was seen at the start point or on the way from the position before to this one, and its observed value is the trace's own, above the rule's limit |
| Rules.NeverTouchesIsOutsidePolyline | packages/simulation-core/src/evaluator.ts:251-262 | Touching a zone at no step is the same as no real point of the whole polyline lying in it |
| Rules.ViolationOrderIsStrictWeak | packages/simulation-core/src/evaluator.ts:373-380 | The comparator of the final sort (step, family rank, rule id) is a strict weak order |
| Evaluator.EvaluateScenario | packages/simulation-core/src/evaluator.ts:329-382 | Refused iff a position leaves the warehouse; otherwise the loop gives the violation list: strictly ordered, one entry for every violated rule at its earliest violating step, nothing else |
| Evaluator.ViolationListIsUnique | packages/simulation-core/src/evaluator.ts:354-382 | Only one list meets that description, so it fixes the result completely |
| Evaluator.Run.EmptyIffSafe | packages/simulation-core/src/evaluator.ts:354-382 | The list is empty iff no rule is broken at any step |
| Evaluator.Run.MarksAreSorted | packages/simulation-core/src/evaluator.ts:373-380 | Because rules arrive sorted and unique, the list as the loop pushes it is already strictly sorted: the final sort changes nothing |
| CommittedEvaluation.EvaluateSimulation | packages/simulation-core/src/evaluator.ts:392-514 | A report is made iff the input is accepted (spelled out field by field in the next row); it is the specified report under the identity of the request, CLEAR iff all scenarios are safe, and the missing-trace error is never raised |
| CommittedEvaluation.EvaluatedExactly | packages/simulation-core/src/evaluator.ts:400-503 | An input with readable request, build, envelope and time is evaluated iff the request names the evaluator, the envelope by its commitment under a blind of 32 octets and the build by its real digest, the header of the traces names the same build by that digest, the traces cover the scenarios of the current dialect, and the result does not precede the request; every other header digest is refused |
| StoredEvaluations.HandedOutEvaluatedExactly | apps/api/src/application/store.ts:1836-1896 | What a call hands its executor, its request naming its rows (by `StoredEvaluations.RunNamesRows`, always), is evaluated iff the header of the traces names the stored build by the digest of its stored descriptor, the traces cover the scenarios and the times are in order |
| StoredEvaluations.EvaluatedIsStored | apps/api/src/application/store.ts:1888-1957 | Whatever is evaluated for a waiting call, the store takes as its answer: the evaluation it stores is CLEAR iff no rule is broken at any step of any scenario |
| StoredEvaluations.RunNamesRows | apps/api/src/application/store.ts:1836-1867 | In every run the request of each waiting call names the rows of its own site, robot and build, the digest of the stored descriptor, and the site's envelope and commitment |
| CommittedEvaluation.VerdictIsCommitted | packages/simulation-core/src/evaluator.ts:400-446 | The public request commits the verdict: two evaluations of one request on the same traces have the same envelope and the same findings, or their commitments collide |
| Commitments.CommitmentNames | packages/domain/src/digests.ts:100-133 | Equal commitments are of the same envelope and the same blind, or their frames collide |
| CommitmentTexts.CommitmentMembers | packages/domain/src/digests.ts:100-133 | What is committed to: blind in hexadecimal, payload, envelope id, version and site id, under these names and in this order |
| CommitmentTexts.CommitmentHashed | packages/domain/src/digests.ts:100-133 | A commitment is made only under a blind of 32 octets and is the hash of that text in the domain of commitments |
| CommitmentTexts.PayloadMembers | packages/simulation-core/src/model.ts:590-600 | The five members of the confidential payload, each under its name |
| CommitmentTexts.RuleMembers | packages/simulation-core/src/model.ts:358-422 | The four types of rule, each with its own type text and members under their names |
| CommitmentTexts.RectangleMembers | packages/simulation-core/src/model.ts:315-332 | The four bounds of a rectangle, each under its name |
| CommitmentTexts.ZoneMembers | packages/simulation-core/src/model.ts:343-356 | A zone: its bounds and its id |
| CommitmentTexts.TemplateMembers | packages/simulation-core/src/model.ts:424-451 | A template: its id, payload and variation |
| CommitmentTexts.ConfigMembers | packages/simulation-core/src/model.ts:459-502 | A scenario configuration: version, seed and templates |
| Simulation.EvaluateTraces | packages/simulation-core/src/evaluator.ts:447-489 | On parsed inputs, evaluated iff the dialect generates a suite and traces and scenarios cover each other; then the specified report, CLEAR iff safe |
| Simulation.NoScenarioWithoutTrace | packages/simulation-core/src/evaluator.ts:447-474 | Equal counts, unique ids and membership one way give membership the other way (pigeonhole) |
| Simulation.VerdictMeaning | packages/simulation-core/src/evaluator.ts:466-489 | The verdict is CLEAR iff for every scenario, step and rule the declarative condition holds, and each summary says the same of its scenario |
| Simulation.ReportIsUnique | packages/simulation-core/src/evaluator.ts:466-514 | Envelope, traces and suite determine the report |
| CommittedEvaluation.OutcomeIgnoresInputOrder | packages/simulation-core/src/evaluator.ts:392-514 | For any two answers that meet the contract of evaluateSimulation: permuting zones, rules, templates and traces of the input changes neither acceptance nor the report |
| Simulation.StricterStaysHeld | packages/simulation-core/src/evaluator.ts:447-489 | Lowering limits, enlarging zones or adding rules never turns HOLD into CLEAR on the same scenarios and traces |
| Simulation.MatchTraces | packages/simulation-core/src/evaluator.ts:448-465 | The matching loops fail iff counts differ, a trace has no scenario, or a trace leaves the warehouse |
| Simulation.Collect | packages/simulation-core/src/evaluator.ts:466-489 | The loop over scenarios finds a trace for each, and collects the specified lists and summaries |
| Model.ConfigOrderIrrelevant | packages/simulation-core/src/model.ts:459-502 | Any permutation of the templates parses to the same configuration |
| Model.ConfigIdempotent | packages/simulation-core/src/model.ts:459-502 | A parsed configuration is a strictly sorted permutation of its input and parses to itself |
| Model.EnvelopeOrderIrrelevant | packages/simulation-core/src/model.ts:505-600 | Any permutation of zones, rules and templates parses to the same envelope, hence the same commitment payload |
| ModelAcceptance.EnvelopeAcceptedExactly | packages/simulation-core/src/model.ts:343-588 | An envelope is accepted iff, as it stands and before anything is sorted, its rectangles, zones inside the warehouse, rules about listed zones, templates, seed and ids are in order, ids are distinct, and both versions agree |
| Model.EnvelopeIdempotent | packages/simulation-core/src/model.ts:530-588 | A parsed envelope holds strictly sorted permutations of its input and parses to itself |
| Model.TraceOrderIrrelevant | packages/simulation-core/src/model.ts:705-717 | Any permutation of the traces parses to the same list |
| ModelAcceptance.TracesAcceptedExactly | packages/simulation-core/src/model.ts:667-717 | Traces are accepted iff their number, ids, steps, positions and speeds are in order as they stand |
| Model.TracesIdempotent | packages/simulation-core/src/model.ts:705-717 | Parsed traces are a strictly sorted permutation and parse to themselves |
| Xorshift.SignedStepIsWordStep | packages/simulation-core/src/scenarios.ts:34-52 | The step with signed 32-bit operators in the middle equals the step on unsigned words |
| Xorshift.StepIsBijective | packages/simulation-core/src/scenarios.ts:34-52 | The step has a two-sided inverse on 32-bit words |
| Xorshift.NeverZero | packages/simulation-core/src/scenarios.ts:15-52 | From a valid seed no number of steps reaches zero |
| Xorshift.SequenceAgreesWithClosure | packages/simulation-core/src/scenarios.ts:15-52 | Element k of the sequence is the state after k + 1 steps of the closure |
| Xorshift.Sequence | packages/simulation-core/src/scenarios.ts:15-41 | Refused iff seed or count is out of bounds; otherwise the loop gives the outputs of the word recurrence |
| Xorshift.Generator.NextUint32 | packages/simulation-core/src/scenarios.ts:43-52 | One call moves the state by exactly one step and returns it |
| Scenarios.GenerateScenarioSuite | packages/simulation-core/src/scenarios.ts:55-84 | Fails iff the configuration does not parse or the last check refuses the suite drawn from it; otherwise gives that suite |
| Scenarios.Vary1 | packages/simulation-core/src/scenarios.ts:58-65 | The map over templates draws one word each, in order |
| Scenarios.Shuffle | packages/simulation-core/src/scenarios.ts:67-76 | The in-place loop leaves the array as the specified Fisher-Yates shuffle of its old contents |
| Scenarios.GeneratedIsVariedPermutation | packages/simulation-core/src/scenarios.ts:55-84 | Whatever the draws, each template's id occurs once, with the payload at base − variation plus its own draw modulo 2·variation + 1, within 0..1,000,000,000 |
| Scenarios.EveryOrderDrawn | packages/simulation-core/src/scenarios.ts:67-76 | Every order of the scenarios is the outcome of the shuffle for some draws |
| Scenarios.SuiteAcceptedIffCurrent | packages/simulation-core/src/model.ts:615-665 | The last check accepts the generated suite iff the dialect is current |
| Scenarios.LegacyConfigurationFails | packages/simulation-core/src/model.ts:637 | A concrete valid legacy configuration whose suite is refused |
| JsonParser.JsonParseExact | integrations/chainlink-cre/src/protocol.ts:313-322 | `JSON.parse` as modelled returns a tree iff it is a tree of the grammar that prints to the text: sound, complete and unambiguous |
| StrictJson.ParseStrictJson | integrations/chainlink-cre/src/protocol.ts:313-322 | Returns a tree iff the text is valid JSON in which no object at any depth repeats a decoded member name, and then the tree `JSON.parse` gives |
| StrictJson.StrictParse | integrations/chainlink-cre/src/protocol.ts:228-322 | The same equivalence for scanner and parser as functions; and a text is accepted iff it is JSON and none of its trees repeats a name |
| StrictJson.ScannerConsumesValidText | integrations/chainlink-cre/src/protocol.ts:264-322 | On a valid text the scanner either consumes all of it, when names never repeat, or rejects |
| StrictJson.ScanElementPrinted | integrations/chainlink-cre/src/protocol.ts:264-311 | On any value printed inside a larger text the scanner stops exactly at its end iff its names never repeat |
| StrictJson.ScanJsonValue | integrations/chainlink-cre/src/protocol.ts:264-311 | The mutually recursive loops terminate and compute the scanner the grammar lemmas are about |
| StrictJson.ScanJsonMembers | integrations/chainlink-cre/src/protocol.ts:266-282 | The member loop with its growing set of names |
| StrictJson.ScanJsonElements | integrations/chainlink-cre/src/protocol.ts:283-293 | The element loop |
| StrictJson.ScanJsonString | integrations/chainlink-cre/src/protocol.ts:241-262 | The search for the closing quote, two units at a time over escapes |
| StrictJson.SkipJsonWhitespace | integrations/chainlink-cre/src/protocol.ts:228-239 | The first position that is not JSON white space |
| Canonical.CanonicalReadBack | packages/domain/src/canonical.ts:135-177 | Parsing the canonical text of any accepted value gives the value back, its members sorted, and no repeated name |
| CanonicalShape.WrittenUnitByUnit | packages/domain/src/canonical.ts:122-150 | A string is written unit by unit between quotation marks: plain units as themselves, quotation mark and backslash after a backslash, controls as \b \t \n \f \r where there is such an escape and otherwise as \u00 and two lower-case digits |
| CanonicalShape.PlainAsItIs | packages/domain/src/canonical.ts:122-150 | A string without quotation mark, backslash or control is written as it is, between quotation marks |
| CanonicalShape.CanonicalIsShortest | packages/domain/src/canonical.ts:135-177 | No valid JSON text that reads to the same sorted data is shorter than the canonical text |
| Canonical.CanonicalTextDecides | packages/domain/src/canonical.ts:53-177 | Two accepted values have equal texts iff they are the same data, insertion order of members apart |
| Canonical.CanonicalTextWellFormed | packages/domain/src/canonical.ts:29-45 | The text has no unpaired surrogate |
| Canonical.CanonicalBytesDecide | packages/domain/src/canonical.ts:180-213 | The bytes decode to the same code units, so equal bytes mean equal values |
| Values.NormalFormDecides | packages/domain/src/canonical.ts:89-133 | Sorting members at every depth gives equal results iff the values have the same members at every depth |
| Serializer.CanonicalSerialize | packages/domain/src/canonical.ts:165-177 | Succeeds iff the value is a tree of well-formed NFC strings and safe integers within depth 64 and 10,000 nodes, and then gives its canonical text, the one whose form `CanonicalShape` fixes |
| Serializer.SerializeValue | packages/domain/src/canonical.ts:135-163 | The recursion with its shared node counter: accepted iff the counter stays within its limit, which then grows by the size of the value |
| Serializer.SerializeArray | packages/domain/src/canonical.ts:53-87 | The same for lists |
| Serializer.SerializeObject | packages/domain/src/canonical.ts:89-133 | The same for records; members are written in sorted order whatever their insertion order |
| Serializer.AssertCanonicalString | packages/domain/src/canonical.ts:29-46 | The index loop accepts iff the string is NFC and every surrogate is paired |
| Serializer.CanonicalBytes | packages/domain/src/canonical.ts:180-213 | The bytes are the UTF-8 of the canonical text |
| Unicode.WellFormedMeaning | packages/domain/src/canonical.ts:29-45 | The surrogate check accepts exactly the UTF-16 forms of sequences of scalar values |
| Unicode.EncodeText | packages/domain/src/canonical.ts:184-210 | The loop over code points gives the encoding of section 3 of RFC 3629, surrogate pairs joined |
| Unicode.EncodePoint | packages/domain/src/canonical.ts:192-209 | The shifts and masks give the one to four octets of a scalar value |
| Unicode.DecodeExact | packages/domain/src/canonical.ts:180-213 | A strict UTF-8 decoder accepts bytes iff they are the encoding of the scalars it returns |
| Unicode.BytesDetermineText | packages/domain/src/canonical.ts:180-213 | Equal octets of well-formed texts mean equal texts |
| Digests.DigestFrame | packages/domain/src/digests.ts:53-67 | The digest is the lower-case hexadecimal SHA-256 of the canonical frame |
| Digests.DigestDecides | packages/domain/src/digests.ts:59-67 | Two digests are equal iff domain, version and payload are equal or the frames are an explicit SHA-256 collision |
| Digests.HexSpells | packages/domain/src/digests.ts:53-67 | Each octet of the hash is spelled by two lower-case digits, the high half first |
| RecordTexts.FrameText | packages/domain/src/digests.ts:53-67 | The octets hashed are those of an object with the members domain, payload and protocolVersion, in this order, for every payload |
| Digests.DomainsDistinct | packages/domain/src/digests.ts:32-39 | Different kinds or dialects have different domains |
| Digests.KindsNeverShareADigest | packages/domain/src/digests.ts:69-168 | Records of different kinds or dialects never share a digest without a collision |
| Schemas.DigestShape | packages/domain/src/digest-values.ts:23-32 | Every digest made is accepted by the digest parser |
| AsciiRecords.InputsDigest | packages/domain/src/digests.ts:135-145 | Where ASCII is in normal form C, every valid record of evaluation inputs has a digest |
| AsciiRecords.ClearanceWritten | packages/domain/src/digests.ts:147-160 | Likewise every valid clearance has a stored text, and a digest iff it holds the digest of its own inputs |
| AsciiRecords.IntentWritten | packages/domain/src/digests.ts:162-168 | Likewise every valid intent has a stored text and a digest |
| Base32.EncodeSiteSecretComponent | integrations/chainlink-cre/src/protocol.ts:50-68 | The bit-buffer loop gives the base32 text (section 6 of RFC 4648, lower case, no padding), of length ceil(8n/5), and the buffer stays below 2^bits |
| Base32.DecodeInvertsEncode | integrations/chainlink-cre/src/protocol.ts:50-68 | Decoding gives the bytes back |
| Base32.Drain | integrations/chainlink-cre/src/protocol.ts:58-62 | The inner loop emits five bits at a time and keeps output and buffer equal to the bits read |
| Base32.SelectorAccepted | integrations/chainlink-cre/src/protocol.ts:70-74 | Every valid site id gives a selector that matches the accepted pattern, with at most 111 characters after the prefix |
| Base32.SelectorsDistinct | integrations/chainlink-cre/src/protocol.ts:413-428 | Different sites have different selectors |
| Decimal.LengthThenTextOrder | packages/domain/src/schemas.ts:269-273 | On canonical decimals of any length, length and then text order is numeric order |
| Timestamps.CompareIsNumeric | packages/domain/src/schemas.ts:269-273 | The string comparison of timestamps is numeric, and equal only on equal texts |
| Timestamps.TimestampRange | packages/domain/src/schemas.ts:275-288 | The parser accepts exactly the canonical decimals up to its maximum |
| Timestamps.ExpiryExact | apps/api/src/release/release-service.ts:201-212 | An expiry is computed iff the clearance is alive, is the smaller of block time + ttl and the clearance's expiry, and is never refused by the timestamp parsers |
| Records.InputsReadBack | packages/domain/src/schemas.ts:757-788 | Evaluation inputs survive printing and parsing, members in any order |
| RecordTexts.InputsMembers | packages/domain/src/schemas.ts:757-788 | The canonical text of evaluation inputs lists its eight members under their names, each with its own field, in sorted order |
| RecordTexts.InputsHashed | packages/domain/src/digests.ts:135-145 | Their digest is the hash of that text in the evaluation-inputs domain |
| RecordTexts.RequestMembers | packages/domain/src/schemas.ts:790-808 | The four members of an evaluation request, under their names and in sorted order |
| Records.RequestReadBack | packages/domain/src/schemas.ts:790-808 | The same for evaluation requests |
| Records.ClearanceReadBack | packages/domain/src/schemas.ts:832-873 | The same for clearances |
| RecordTexts.ClearanceMembers | packages/domain/src/schemas.ts:832-873 | The same of clearances |
| RecordTexts.ClearanceHashed | packages/domain/src/digests.ts:147-160 | Their digest likewise, in the clearance domain |
| Records.IntentReadBack | packages/domain/src/schemas.ts:875-925 | The same for deployment intents |
| RecordTexts.IntentMembers | packages/domain/src/schemas.ts:875-925 | The same of intents: twelve members |
| RecordTexts.IntentHashed | packages/domain/src/digests.ts:162-168 | Their digest likewise, in the deployment-intent domain |
| Records.ClearanceDigestNames | packages/domain/src/digests.ts:147-160 | Two clearances with equal digests are equal, or their frames collide |
| Records.IntentDigestNames | packages/domain/src/digests.ts:162-168 | The same for intents |
| BuildRecords.DescriptorReadBack | packages/domain/src/schemas.ts:698-732 | Every valid build descriptor, of either version and dialect, survives printing and parsing, its version chosen by what it names |
| RecordTexts.DescriptorMembers | packages/domain/src/schemas.ts:698-732 | The same of descriptors, in both versions |
| RecordTexts.DescriptorHashed | packages/domain/src/digests.ts:81-87 | A descriptor's digest is the hash of its text in the robot-build domain, under its own dialect |
| RecordTexts.EvidenceHashed | packages/domain/src/digests.ts:89-98 | The digest of build evidence likewise, in the build-integrity domain |
| AsciiRecords.DescriptorDigests | packages/domain/src/digests.ts:81-87 | Where ASCII is in normal form C, every valid descriptor has a digest |
| BuildRecords.EvidenceReadBack | packages/domain/src/schemas.ts:520-685 | Every accepted build evidence survives printing and parsing, members in any order at every depth |
| BuildRecords.BehaviorDigestNames | integrations/chainlink-cre/src/protocol.ts:193-226 | Equal behaviour digests are of the same request, descriptor, traces and time, or their frames collide |
| RecordTexts.BehaviorMembers | integrations/chainlink-cre/src/protocol.ts:206-226 | The same of what a behaviour digest is taken of |
| RecordTexts.BehaviorHashed | integrations/chainlink-cre/src/protocol.ts:206-226 | A behaviour digest is the hash of that text with the selector of its own site |
| Bindings.CreateIntentExact | packages/domain/src/bindings.ts:121-170 | An intent is made iff the digest exists, the nonce is valid and clearance issue ≤ issue < expiry ≤ clearance expiry; it is bound to the clearance and carries exactly those arguments |
| Bindings.BindingsMeaning | packages/domain/src/bindings.ts:151-170 | The chain of assertions passes iff every field is bound |
| Bindings.IntentNamesClearance | packages/domain/src/bindings.ts:151-170 | An intent bound to two clearances shows them equal or a collision |
| Registry.EligibleMeaning | packages/chain-client/src/registry.ts:262-288 | The guard chain accepts a snapshot iff chain, registry, verdict, revocation, match and numeric expiry are right |
| Registry.ReadExactly | packages/chain-client/src/registry.ts:190-288 | A snapshot is made iff the answers are of the right chain, about deployed code, at a block with a readable time; it repeats block, hash and time |
| Registry.BindingsNameClearance | packages/chain-client/src/transport.ts:30-60 | The twelve transport words are the ones that name the clearance: each identifier by the SHA-256 of its octets, each digest by its own octets, both times; and no other words do |
| Registry.EligibleReadExact | packages/chain-client/src/registry.ts:143-288 | A snapshot the reader made is eligible iff the chain holds that very clearance: its digest registered, each of the twelve bindings naming its own field, CLEAR, present, not revoked, the block before its expiry |
| StoredText.SerializedReadBack | packages/domain/src/canonical.ts:165-177 | Any stored canonical text is read by `JSON.parse` to its value, members sorted |
| Authorizations.SerializedIntents | apps/api/src/release/release-service.ts:282-304 | Comparing stored and submitted intents as texts compares the intents |
| Authorizations.StoredReadBack | apps/api/src/release/release-service.ts:96-181 | A stored authorization parses iff it agrees with the prepared request, and then gives exactly itself |
| ReleaseGate.ReleaseStore.Issue | apps/api/src/release/nonce-store.ts:76-101 | Inserts the row iff the nonce is new, and touches no other row |
| ReleaseGate.ReleaseStore.Load | apps/api/src/release/nonce-store.ts:103-130 | Gives the row of the nonce to its owner only |
| ReleaseGate.ReleaseStore.Consume | apps/api/src/release/nonce-store.ts:132-156 | Compare-and-set: succeeds iff the row is issued and owned, sets state and authorization together and leaves every issued column and other row |
| ReleaseGate.ReleaseService.AnswerPrepare | apps/api/src/release/release-service.ts:243-280 | The piece of prepare after its await, on the table it then finds; what it issues, with its expiry, is stated by the rows of `ReleaseRuns` and `ReleaseProgress` |
| ReleaseGate.ReleaseService.StartConsume | apps/api/src/release/release-service.ts:282-304 | The piece of consume before its first await changes nothing |
| ReleaseGate.ReleaseService.AnswerConsume | apps/api/src/release/release-service.ts:305-338 | The last piece of consume returns an authorization iff its update succeeded |
| ReleaseGate.ReleaseService.AuthorizationStatus | apps/api/src/release/release-service.ts:340-383 | Reading a status changes nothing and gives the specified answer |
| ReleaseMachine.RunKeeps | apps/api/src/release/nonce-store.ts:76-156 | In every run rows only move from issued to consumed, once consumed never change, and no issued column ever changes |
| ReleaseTables.RunConsistent | apps/api/src/release/release-service.ts:243-338 | For any gate whose segments keep to their laws, every run keeps rows, waiting calls, requests and authorizations consistent |
| ReleaseRuns.GateLawful | apps/api/src/release/release-service.ts:243-338 | The gate of the source obeys those laws |
| ReleaseRuns.RunInvariant | apps/api/src/release/release-service.ts:243-383 | Hence every reachable state is consistent; each issued intent expires at the earlier of block time + ttl and the clearance's expiry |
| ReleaseRuns.RebuildExact | apps/api/src/release/release-service.ts:282-304 | What consume rebuilds from the stored texts is the issued intent and clearance |
| ReleaseRuns.NonceAuthorizedOnce | apps/api/src/release/release-service.ts:282-338 | In every interleaving no nonce yields two authorizations |
| ReleaseRuns.IssuedIffNoAuthorization | apps/api/src/release/release-service.ts:355-383 | A row is issued iff its authorization is null iff none was returned: the two inconsistent-state branches are unreachable |
| ReleaseRuns.AuthorizationSafe | apps/api/src/release/release-service.ts:243-338 | Every authorization ever returned carries the issued intent bound to its clearance, a signer on the list and equal to the stored one to whom the signature recovers over the signed message, two eligible snapshots in block order and recorded, and authorizedAt < expiresAt = the earlier of issuedAt + ttl and the clearance's expiry |
| ReleaseRuns.ClearanceHeldTwice | packages/chain-client/src/registry.ts:190-288 | When both snapshots are the reader's, the chain held the authorization's own clearance, unrevoked and unexpired, at both blocks |
| ReleaseProgress.PreparedExactly | apps/api/src/release/release-service.ts:243-280 | A request is made iff the clearance is eligible on chain, its life spans the block, it holds the digest of its own inputs and the nonce is well formed; nothing else refuses it |
| ReleaseProgress.PreparedAnswer | apps/api/src/release/release-service.ts:243-280 | What prepare answers: the issued intent, its digest, a listed signer, the hash of the message that signer is to be shown, and number, hash and time of the block it was checked at |
| ReleaseProgress.ConsumeStartsExactly | apps/api/src/release/release-service.ts:282-304 | In every run consume goes on iff the supplied intent is exactly one that was issued to that account and not yet consumed |
| ReleaseProgress.RecoveredExactly | apps/api/src/release/release-service.ts:305-318 | It reaches the second read iff the signature recovers, over the message of the request, to the stored signer |
| ReleaseProgress.GrantedExactly | apps/api/src/release/release-service.ts:319-338 | In every run a call that got there is handed an authorization iff the second snapshot is eligible, not older than the first and before the expiry, nothing was handed out for the nonce, and the record can be written |
| ReleaseProgress.AwaitingExactly | apps/api/src/release/release-service.ts:340-365 | In every run a status is given only for a request issued to the account, with its digests and signer, and it is AWAITING_LEDGER iff its consume has not succeeded |
| ReleaseRuns.AwaitingUntilConsumed | apps/api/src/release/release-service.ts:340-365 | A prepared request is AWAITING_LEDGER in every run in which its consume has not succeeded |
| ReleaseRuns.AuthorizedForever | apps/api/src/release/release-service.ts:340-383 | After consume succeeded, every continuation reads AUTHORIZED with exactly the returned authorization iff its second block hash has 32-octet shape, and otherwise always refuses |
| ReleaseRuns.BlockHashUnchecked | apps/api/src/release/release-service.ts:305-383 | In any run, where a call would be handed an authorization, the same snapshot with an empty block hash gets one too (the empty text being NFC), and the status of that request is refused in every continuation |
| ApplicationStore.Store.CreateSourceBuild | apps/api/src/application/store.ts:1259-1377 | The transaction inserts both rows or nothing, refusing a third build in progress |
| ApplicationStore.Store.FinishComplete | apps/api/src/application/store.ts:1470-1511 | The compare-and-set after the hash was taken: both rows are written iff the build is still in progress |
| ApplicationStore.Store.FailSourceBuild | apps/api/src/application/store.ts:1513-1552 | Marks a build failed iff it is still in progress |
| ApplicationStore.Store.FindByEvaluationId | apps/api/src/application/store.ts:1577-1587 | The scan gives the first evaluation of the account with the id |
| ApplicationStore.Store.FindAnyByEvaluationId | apps/api/src/application/store.ts:1589-1596 | The same over all accounts |
| ApplicationStore.Store.RecordPendingEvaluation | apps/api/src/application/store.ts:1598-1640 | Records a pending row, or repeats an equal one, or refuses |
| ApplicationStore.Store.CompleteCreEvaluation | apps/api/src/application/store.ts:1674-1820 | The callback transaction: new tables and outcome are those specified, in every branch; what they hold is stated by `Provenance.CallbackAnswered` |
| ApplicationStore.Store.AnswerPendingRow | apps/api/src/application/store.ts:1713-1807 | Its part for a pending row: reject, refuse, or complete and delete the row |
| ApplicationStore.Store.ExecutorFailed | apps/api/src/application/store.ts:1897-1909 | A failed executor deletes the pending row unless it was completed or stays pending |
| ApplicationStore.Store.ExecutorSucceeded | apps/api/src/application/store.ts:1911-1957 | The synchronous answer inserts an evaluation and deletes the pending row iff it is bound to the request |
| ApplicationStore.Store.EvaluationStatus | apps/api/src/application/store.ts:1658-1672 | Completed before pending before unknown |
| Lifecycle.RunKeeps | apps/api/src/application/store.ts:1259-1957 | In every run sites and robots, finished builds and rejections never change, and evaluations only grow at the end |
| Lifecycle.FinishedForever | apps/api/src/application/store.ts:1381-1552 | Once a source build has succeeded or failed, both its rows are the same in every continuation |
| SourceBuilds.RunFewBuilding | apps/api/src/application/store.ts:1318-1330 | No run gives any account more than two builds in progress |
| ApplicationCodec.StoredRecordsReadBack | apps/api/src/application/store.ts:1439-1467 | What the store writes of descriptors and accepted evidence, its parsers read back, for every hash, pattern and NFC table |
| SourceBuilds.EvaluableExactly | apps/api/src/application/store.ts:1836-1886 | In every reachable state a build passes the checks before evaluation, its stored evidence read back and compared, iff it was built elsewhere or its source build succeeded |
| SourceBuilds.TracesOfDescriptor | apps/api/src/application/store.ts:1439-1467 | In every run each build, new or promoted, holds the traces built for the descriptor it holds now on its own route, and the descriptor names its robot and itself |
| BuildOrigins.BuildsOriginate | apps/api/src/application/store.ts:1259-1552 | In every run each build row comes from an event under its names; a build from elsewhere holds that event's artifact; a source build holds the placeholder while it runs and after it failed, then with the clipped error it was given, and once it succeeded the evidence one call brought and the digest of the artifact that call found stored |
| StoreProgress.RegisteredExactly | apps/api/src/application/store.ts:1063-1180 | A site is registered iff its id is fresh, a robot iff its id is fresh and the site is the account's; no other row changes |
| StoreProgress.CreateBuildExactly | apps/api/src/application/store.ts:1194-1257 | A build of an artifact is created iff the robot is the account's, the id is fresh, and descriptor and traces can be written |
| StoreProgress.CreateSourceBuildExactly | apps/api/src/application/store.ts:1259-1377 | A source build is created iff the robot is the account's, at most one other build of the account runs, the id is fresh, and the placeholder build can be written |
| StoreProgress.BeginCompleteExactly | apps/api/src/application/store.ts:1381-1437 | In every run evidence is taken iff the build is the account's and runs, and the answer agrees with it on build, source, digest and path |
| StoreProgress.FinishCompleteExactly | apps/api/src/application/store.ts:1434-1511 | In every run a waiting completion succeeds iff the stored artifact has the digest of the evidence, the build still runs, and its texts can be written |
| StoreProgress.FailExactly | apps/api/src/application/store.ts:1513-1552 | In every run a running build of the account fails when told to, and any other state stays |
| StoreProgress.SubmitExactly | apps/api/src/application/store.ts:1836-1886 | In every run of the program a submission goes through iff its rows are the account's, its build was built elsewhere or succeeded, its policy decrypts, ids and times are well formed, request and behaviour can be digested, and nothing else is pending under its id |
| Evaluations.PendingBuildFrozen | apps/api/src/application/store.ts:1748-1762 | Once an evaluation is pending, in every continuation the row of its build is never written again, the request rebuilt at completion is the submitted one, and the pending digest is that of the submitted request with the descriptor and traces still stored |
| Evaluations.CompletionIsBound | apps/api/src/application/store.ts:1738-1807 | A callback completes an evaluation only for a submitted id and with the digest of what was submitted, and the stored result is bound to that request and to the pending row |
| Provenance.CallbackCompletesExactly | apps/api/src/application/store.ts:1738-1807 | In every run a callback completes iff it brings, for a pending id not yet rejected and under the pending digest, a result for the submitted request; then exactly one evaluation is stored and answered, with the result's own verdict, time, inputs, id and digest, under the names of the pending row, which is gone |
| Provenance.CallbackAnswered | apps/api/src/application/store.ts:1674-1820 | In every run every callback gets the answer its case calls for, each answer iff its case; only a result brought or a fresh rejection changes the tables, and the rejection row holds its code, account and callback digest |
| Provenance.AnswerStoresExactly | apps/api/src/application/store.ts:1911-1957 | A synchronous answer is stored iff it is for the request of its call, with its own verdict, time, inputs, id and digest, under the names of the call |
| Provenance.EvaluationsOriginate | apps/api/src/application/store.ts:1598-1957 | In every run each stored evaluation was brought by one callback or one synchronous answer, at the moment it became next in line, carries that event's own verdict, time, inputs and digest, and is filed under the account, site, robot, build and id of an earlier submission |
| Provenance.RejectionsOriginate | apps/api/src/application/store.ts:1713-1729 | In every run each rejection was brought by a callback, with its code and digest, for an id its account had submitted before |
| Provenance.PendingEndsExactly | apps/api/src/application/store.ts:1674-1957 | In every run an event ends a pending evaluation iff it is a first rejection, a result for the submitted request, or an executor that failed for good before the account had an evaluation with the id |
| Evaluations.EvaluatedAsSubmitted | apps/api/src/application/store.ts:1868-1886 | An executor that digests its own input, and whose callback completes, evaluated exactly the submitted request, descriptor, traces and time, or the two inputs collide |
| Outcomes.StepExclusiveExactly | apps/api/src/application/store.ts:1598-1957 | One step keeps pending, completed and rejected apart iff its guard holds: a submission's id has no terminal state, a synchronous answer's id is not yet terminal |
| Outcomes.RunExclusive | apps/api/src/application/store.ts:1598-1820 | With each id submitted once and answers by callback, every run keeps them apart |
| Outcomes.TerminalForever | apps/api/src/application/store.ts:1674-1820 | In such runs a completed or rejected evaluation stays as it is in every continuation |
| Outcomes.RedeliveryIdempotent | apps/api/src/application/store.ts:1674-1820 | Delivering the same callback again changes nothing and answers the same |
| Outcomes.RejectionStands | apps/api/src/application/store.ts:1698-1719 | After a rejection any callback leaves the tables alone: the same one repeats the rejection, a different one conflicts |
| Outcomes.LateAnswerCompletesTwice | apps/api/src/application/store.ts:1911-1957 | Any run that goes on with a completing callback and then the waiting call's own answer completes the id twice |
| Outcomes.WaitingAnsweredTwice | apps/api/src/application/store.ts:1888-1957 | From every reachable state with a call waiting for its pending evaluation there are two such events |
| Outcomes.ResubmissionRevives | apps/api/src/application/store.ts:1598-1640 | Any run that goes on with a submission of a rejected id, let through, leaves it pending and rejected |
| Outcomes.StatusMeaning | apps/api/src/application/store.ts:1658-1672 | The status is done iff the account has an evaluation with the id, pending iff it has a pending row, never shows a rejected id, and shows only listed evaluations of the account |
| Outcomes.ScansFindFirst | apps/api/src/application/store.ts:1577-1596 | The two scans give the first evaluation with the id, over all accounts or of one |
| AgentScript.ResolveExact | apps/api/src/agent/catalog.ts:192-215 | A request resolves to an entry iff its references name that entry's position in the catalog and no other |
| AgentScript.TraceFollowsScript | apps/api/src/agent/deployment-agent.ts:144-191 | For every model the recorded trace is a prefix of the host's tool order, numbered from 1 |
| AgentScript.RunOrBlocked | apps/api/src/agent/deployment-agent.ts:255-477 | Every run is the host's own run, or is blocked with a prefix of its trace |
| AgentScript.ModelDoesNotMatter | apps/api/src/agent/deployment-agent.ts:193-477 | Two models that both reach approval leave identical attempts: target, prepared request and trace |
| AgentScript.ApprovalExactly | apps/api/src/agent/deployment-agent.ts:255-477 | Approval is asked for iff the verdict is CLEAR, the clearance eligible, the graph MATCHED where it is asked, the request prepared, the ledger awaited, and the model called every expected tool and named the host's target |
| AgentScript.ApprovalFields | apps/api/src/agent/deployment-agent.ts:414-472 | Such an attempt locks the host's target and holds the request the host prepared |
| AgentScript.ApprovalRecord | apps/api/src/agent/deployment-agent.ts:255-472 | Such an attempt recorded every tool of the script with its passing mark, numbered, told the model each, and holds what graph, registry, gate and ledger answered |
| AgentScript.BlockedByFirst | apps/api/src/agent/deployment-agent.ts:180-477 | A run that does not get through is blocked with the code of the first tool the model refused or the host did not let through; a held verdict comes before anything the clearance says |
| AgentRelease.ApprovedExactly | apps/api/src/agent/deployment-agent.ts:409-472 | With the gate's own answers, approval is asked for iff the verdict is CLEAR, the clearance eligible, the graph MATCHED, the model obedient, and no consume of the prepared nonce succeeded in between |
| AgentRelease.ApprovedForTarget | apps/api/src/agent/deployment-agent.ts:414-449 | The intent prepared by the gate names the four fields of the locked target and is bound to the clearance of the entry |
| AgentRelease.LedgerAwaits | apps/api/src/agent/deployment-agent.ts:450-458 | The branch for an already authorized new request is reached only if somebody else consumed its nonce in between |
| DeploymentAgent.Agent.Refuse | apps/api/src/agent/deployment-agent.ts:221-239 | A request that does not resolve leaves a blocked attempt without a trace |
| DeploymentAgent.MutableAttempt.Record | apps/api/src/agent/deployment-agent.ts:162-178 | Appends one event, numbered one above the last |
| DeploymentAgent.MutableAttempt.Block | apps/api/src/agent/deployment-agent.ts:180-191 | Sets the blocked fields and drops the prepared request |
| DeploymentAgent.Agent.Run | apps/api/src/agent/deployment-agent.ts:255-477 | The imperative run stores exactly the specified attempt under its id and touches no other |
| DeploymentAgent.Agent.AuthorizationStatus | apps/api/src/agent/deployment-agent.ts:479-510 | Refused without a prepared request or for another account; an awaited answer changes no attempt, an authorized one rewrites exactly this attempt as authorized |
| DeploymentAgent.BlockedForever | apps/api/src/agent/deployment-agent.ts:180-191 | In every history a blocked attempt never changes, so it is never authorized |
| AgentHistories.AskedExactly | apps/api/src/agent/deployment-agent.ts:479-510 | With the gate's own answers, asking marks an attempt authorized, in three fields and no other attempt, iff the asker may see it and the gate calls its request authorized; any other answer changes nothing |
| AgentHistories.AuthorizedExactly | apps/api/src/agent/deployment-agent.ts:479-510 | In every joint history of agent and gate an attempt is authorized iff the gate once called its request authorized to somebody who may see it |
| AgentHistories.AuthorizedConsumed | apps/api/src/agent/deployment-agent.ts:490-501 | In every joint history an authorized attempt holds a request the gate issued to its account, and its consume has handed out an authorization |
| AgentHistories.QuestionDecides | apps/api/src/agent/deployment-agent.ts:479-510 | In every joint history, when the owner asks about an attempt that awaits approval, it becomes authorized iff a readable authorization was handed out for its nonce, and nothing changes before its consume succeeded |

## Left out

- Web pages, HTTP routing, sessions, passwords, RPC and gateway clients, the build runner, the Ledger adapter: their answers are arbitrary inputs of the machines.
- SHA-256, keccak, address checksums, typed-data hashing, signature recovery and the NFC tables are function parameters; only the length of a hash is known. Conclusions that need collision resistance name the colliding frames.
- Prototype, accessor, symbol and cycle checks on JavaScript objects: values start as trees. Names within one object are taken to differ, as they do in JavaScript.
- `JSON.parse` is modelled as the grammar's reader; numbers are kept as their lexemes, and only plain safe integers are read back as data.
- Error codes and messages: a refusal of the release gate and of the store is one value. The agent's codes, the callback outcomes and the evaluator's reasons are kept.
- CommittedEvaluation.EvaluateSimulation: envelope and traces enter as typed records, their zones, rules, templates and traces in any order; reading those records from untyped objects, member by member, is left out.
- Scenarios.GenerateScenarioSuite: legacy-dialect configurations are covered only by the proof that they fail.
- BuildRecords.EvidenceReadBack: the URL and command patterns and all checks of the provenance statement are one function of the evidence; the statement itself is carried in normal form.
- Rendered reports (`canonicalizeInternalEvaluationReport`) are an application of the canonical printer and would only repeat it.
- The public request, confidential input and callback parsers of `protocol.ts`: each is settled by reading one branch.
- `assertClearanceBindings`: a chain of equalities of the same form as the intent's.
- Making a site's envelope, blind and ciphertext: site rows enter the machine with their commitment, and `StoredEvaluations.HandedOut` says what an executor needs of them.
- Trace suites of the store are built and parsed by function parameters; the route and label of a build are texts.
- Outcomes.RunExclusive: for runs in which each id is submitted once and no synchronous answer arrives; without those two conditions it is false, as stated above.
- Outcomes.TerminalForever: under the same conditions.
- ReleaseRuns.AuthorizationSafe: assumes that the configured signers are checksum addresses, as the policy's constructor makes them; that constructor is not modelled.
- DeploymentAgent.BlockedForever: attempt ids are random, so a run under an id already taken is not an event.
- Row ids, creation times and the agent's observation projections: random or display values.
- SQLite itself: each statement or transaction is one atomic step, and committed steps are not lost.
- Normalization of catalog references is a function parameter of the agent.
- Release attempts recorded for display, listing queries and the operator's secret reader.
