# Verified model of the decision firewall

A Dafny model of four parts of the AI Decision Firewall proof of concept, with proofs of the properties they are for.
`dafny verify dfyconfig.toml` checks all of it.

**The hash-chained audit log** (`PyText`, `Json*`, `AuditChain`, `ChainReport`, `Rechain`, `AuditFile`, `AuditAppend`,
`DecodedText`, `AuditRows`, `AuditReadBack`, `AuditLogger`, `AuditRuns`, `AuditTorn`, `AuditOutcomes`, `AuditCalls`).
JSON values, the canonical printer and an RFC 8259 parser over Python text (sequences of code points, surrogates
included); the chain verifier; the in-place rechainer; `AuditLogger` as a class whose tip and number always continue
the rows it read when it was opened through the rows it has appended since, and whose file holds those rows as long as
no failing write left part of one behind; every run of appends, failing writes, reads, descriptor binding and
reopening, with the exact runs after which the file reopens and reads back; and a driver that takes any calls on the
class through such a run. SHA-256 is a parameter. No lemma assumes it injective, which no digest is: where a law rests
on its strength the lemma's conclusion names the alternative, two row bodies *of these very chains* with one digest,
or one with the digest of 64 zeros.

**The decision engine** (`Actions`, `Engine`, `EngineCalls`, `EngineReplay`, `EngineSafety`, `EngineRuns`,
`EngineAnswers`, `AuditedRuns`). The gate, the simulated target, the broker and the check after the actions as
classes; `process` and `run_engine` as methods over shared state, proved against a function that says what one call
appends, changes and answers. Evidence, model, policy and verifier are arbitrary functions that may raise. The clock
is an arbitrary sequence of readings; the theorem that needs it not to run back says so.

**Evidence and features** (`FeatureContract`, `Events`, `Features`, `FeatureLaws`, `Evidence`, `EvidenceLaws`,
`EvidenceExact`, `FeaturesSpelled`, `Agreement`). The two loops over the events of a case, over exact reals, and what
they agree on. Attribute and source names are constructors, with one more constructor for every name outside the
tables.

**The lock-file parser and version constraints** (`LockFile`, `LockGrammar`, `LockRoundTrip`, `LockErrors`,
`Versions`, `VersionMeaning`, `DirectRequirements`, `RequirementLines`). The line machine, the grammar it accepts,
printing, the comparison of numeric versions, and the closed specifiers that requirement files pass on to it.

`Options` holds the one option type they share. `JsonText`, `ChainReport`, `EngineAnswers`, `EvidenceExact`,
`FeaturesSpelled`, `LockErrors`, `VersionMeaning` and `RequirementLines` say in literals, names and numbers what the
operations answer, without the functions they are specified by.

## Results that differ from the documentation

- The audit log is documented as append-only and hash-chained (the repository's `README.md:44`,
  `src/adf_poc/audit.py:43`), yet a log that accepted every append may refuse to reopen. A payload in which two names
  are one once surrogate pairs are merged is always refused (`AuditOutcomes.SurvivalExactly`, an input:
  `AuditOutcomes.CoincidingRefused`); one in which such names change their order is refused short of a collision
  (`AuditOutcomes.ReorderedRefused`). Over every run, a reopening goes through when the payloads written before it are
  key-stable, and only then short of a collision (`AuditOutcomes.SurvivalExactly`); both conditions can be checked on
  the payload before the append.
- A partial row is documented to block a restart (`docs/production/STAGE_A_STORAGE_FAULT_CAMPAIGN.md:32`). It does,
  except when all that is missing is its line break: then the log is reopened without complaint with the row counted,
  but the next append is written onto that row and the file is unreadable from then on
  (`AuditOutcomes.TornThenReopened`, `AuditOutcomes.TornThenAppended`). A readable file stays readable under an append
  exactly when only white space follows its last line break and the row decodes (`AuditAppend.ReadWritten`), which can
  be checked before the append.
- The digest of canonical JSON is documented as an exact binding (`tests/README.md:138`); it binds a value up to
  explicit surrogate pairs, since such a pair and the supplementary character it stands for print alike
  (`JsonCanonical.EncodeNotInjective`). Two values print the same text exactly when they are alike, that is equal up
  to such pairs, objects being compared in the sorted order of their own keys (`JsonAlike.EncodeExactly`); decoding
  returns a value unchanged exactly when it holds none (`JsonCanonical.RoundTripExact`), and on those values the
  encoding is injective.

Other results a caller may not expect:

- The loop over the clauses of a version specifier returns at the first failing clause without looking at the rest, so
  on texts outside the closed grammar the order of the clauses matters, exactly when one is malformed and another
  fails (`Versions.OrderMattersExactly`, `Versions.OrderMatters`). No such text reaches it: every specifier a
  requirement file passes on is judged the same in any order (`DirectRequirements.PassedSpecifiers`).
- A brokered action without an expected state makes `process` raise after its rows were appended
  (`EngineCalls.ReturnsExactly`); the replay theorem covers such calls too.
- The refusal of an entry without any hash is never reached: a head line is followed by a hash line or refused
  otherwise (`LockErrors.ErrorsExplained`).

## Model

| member | source | states |
|---|---|---|
| `JsonRoundTrip.ValueRoundTrip` | src/adf_poc/utils.py:52-59 | for every JSON value, decoding its canonical text followed by nothing or by a character no number goes on with reads exactly the value the text stands for and leaves what follows; surrogate pairs written as two escapes come back merged |
| `JsonAlike.EncodeExactly` | src/adf_poc/utils.py:52-59 | two values print the same canonical text exactly when they are alike: equal strings once explicit surrogate pairs are merged, items alike one by one, members alike in the two sorted orders of their own keys |
| `JsonAlike.PrefixFree` | src/adf_poc/utils.py:52-59 | no canonical text runs on into another: two canonical texts, each followed by nothing or by a character no number goes on with, are the same text exactly when the values are alike and what follows is equal |
| `JsonCanonical.RoundTripExact` | src/adf_poc/utils.py:52-59 | decoding undoes encoding exactly on the values in which no text holds an explicit surrogate pair |
| `JsonCanonical.EncodeInjective` | src/adf_poc/utils.py:52-59 | values without explicit pairs are alike only when equal, so on them distinct values have distinct canonical texts |
| `JsonCanonical.EncodeNotInjective` | src/adf_poc/utils.py:52-59 | outside them injectivity fails: a supplementary character and its explicit surrogate pair encode alike |
| `JsonCanonical.EncodePrintable` | src/adf_poc/utils.py:52-59 | canonical texts are printable ASCII only, hence hold no line break |
| `JsonText.SortedListing` | src/adf_poc/utils.py:52-59 | the sorted names are the names, each once; of two of them the earlier agrees with the later up to some place where it ends or has the smaller character |
| `JsonText.ObjectTextInOrder` | src/adf_poc/utils.py:52-59 | an object prints as a brace, its members in that order of their names with a comma between them, each the quoted name, a colon and the value, and a brace |
| `JsonText.TwoMembers` | src/adf_poc/utils.py:52-59 | with two one-letter names the member of the earlier letter comes first, whatever the values |
| `JsonText.ArrayText` | src/adf_poc/utils.py:52-59 | an array prints as its items in brackets with a comma between them and nothing else |
| `JsonText.Words` | src/adf_poc/utils.py:52-59 | null, true, false and integers print as these words and as decimal digits |
| `JsonText.StringText` | src/adf_poc/utils.py:52-59 | a string prints in quotes, character by character |
| `JsonText.ShortEscapes` | src/adf_poc/utils.py:52-59 | quote, backslash and five control characters print as their two-character escapes |
| `JsonText.PlainCharacter` | src/adf_poc/utils.py:52-59 | every other printable ASCII character prints as itself |
| `JsonText.NumberedEscape` | src/adf_poc/utils.py:52-59 | every other character below the supplementary ones prints as its number in four small hexadecimal digits |
| `JsonText.SupplementaryEscape` | src/adf_poc/utils.py:52-59 | a supplementary character prints as the escapes of its two UTF-16 halves |
| `JsonCanonical.StableExact` | src/adf_poc/utils.py:52-59 | decoding and encoding again gives the same text exactly when merging surrogate pairs keeps the sorted order and the distinctness of all keys |
| `JsonDecodable.DecodesExactly` | src/adf_poc/audit.py:23-39 | canonical text decodes exactly for the values no object of which has two names that are one once explicit surrogate pairs are merged |
| `JsonGrammar.DecodeExactly` | src/adf_poc/audit.py:23-39 | a text decodes to a value exactly when it is white space around a layout of RFC 8259 that means it: words, numbers, strings with their escapes, two numbered halves read as one character, arrays and objects with white space around every part, no name repeated in an object |
| `JsonText.IntegersRead` | src/adf_poc/audit.py:32-39 | integers are an optional minus sign and digits without a leading zero |
| `JsonText.FloatsRead` | src/adf_poc/audit.py:32-39 | other numbers have a fraction or an exponent or both after that |
| `JsonCanonical.CollectMeaning` | src/adf_poc/audit.py:23-29 | the member hook accepts a list of pairs exactly when its keys are distinct, and then returns the map of the pairs |
| `JsonStrings.StringRoundTrip` | src/adf_poc/utils.py:52-59 | a quoted and escaped text is read back as the text with its explicit surrogate pairs merged |
| `JsonRoundTrip.NumberRoundTrip` | src/adf_poc/utils.py:52-59 | the text of an integer or a float token is read back as the same number when a delimiter follows |
| `JsonRoundTrip.DecimalRoundTrip` | src/adf_poc/utils.py:52-59 | decimal printing of naturals is inverted by reading digits |
| `JsonStrict.StrictLoads` | src/adf_poc/utils.py:28-45 | the worklist accepts exactly the decodable texts whose every number, at any depth, is finite, and then returns the decoded value |
| `JsonStrict.ObjectSize` | src/adf_poc/utils.py:36-44 | the worklist shrinks: the members of an object together are smaller than the object |
| `AuditChain.VerifyIndexedRows` | src/adf_poc/audit.py:208-221 | the loop that follows the claimed hash reports exactly the broken links and hashes, in row order, a link before the hash of the same row, under the given labels; valid exactly when every row links and hashes |
| `AuditChain.VerifyRows` | src/adf_poc/audit.py:187-193 | the same for rows in memory, labelled by position |
| `ChainReport.ReportSpelled` | src/adf_poc/audit.py:208-221 | the report is that of one pass from 64 zeros on: for each row a link error if its previous_hash is not the last claim, then a hash error if its record_hash is not the digest of everything else in the row, under the label of the row |
| `AuditChain.ErrorsAreViolations` | src/adf_poc/audit.py:208-221 | an error names row i exactly when row i breaks that rule, in both directions, for links and hashes |
| `AuditChain.NoViolations` | src/adf_poc/audit.py:208-221 | no error at all exactly when the chain verifies |
| `AuditChain.PrefixVerifies` | src/adf_poc/audit.py:208-221 | every prefix of a verifying chain verifies |
| `AuditChain.ExtensionVerifies` | src/adf_poc/audit.py:208-221 | one more row verifies exactly when the rest does, it links to the tip and its own hash is right |
| `AuditChain.SameTipSameChain` | src/adf_poc/audit.py:208-221 | two verifying chains with the same final hash are equal row for row, length included, or two of their own row bodies collide, or one hashes to 64 zeros |
| `AuditChain.TamperingReported` | src/adf_poc/audit.py:208-221 | any edit, insertion, deletion or reordering that keeps the final hash is reported, up to the same two hash events |
| `AuditChain.ReplacementErrors` | src/adf_poc/audit.py:208-221 | replacing one row of a verifying chain yields exactly the errors that three comparisons decide, at that row and its successor only |
| `AuditChain.PayloadEditErrors` | src/adf_poc/audit.py:208-221 | editing one payload yields exactly one error, the hash of that row, unless the two bodies collide |
| `AuditChain.ResealedEditErrors` | src/adf_poc/audit.py:208-221 | editing a payload and recomputing that row's own hash yields exactly one error, the link of the successor, or none at the last row |
| `Rechain.RechainInPlace` | scripts/generate_source_to_decision_ce2_campaign.py:833-839 | the in-place loop leaves in the array exactly the rechained rows |
| `Rechain.RechainedMeaning` | scripts/generate_source_to_decision_ce2_campaign.py:833-839 | rechaining any rows makes them verify, numbers them from zero, keeps order and every other member |
| `Rechain.RechainedUnique` | scripts/generate_source_to_decision_ce2_campaign.py:833-839 | no other chain with these contents verifies and is numbered so |
| `Rechain.RechainFixedPoints` | scripts/generate_source_to_decision_ce2_campaign.py:833-839 | rechaining is idempotent, and the identity on exactly the numbered chains that verify |
| `Rechain.RechainLogged` | scripts/generate_source_to_decision_ce2_campaign.py:833-839 | rechaining leaves the rows a logger appended to a new log alone |
| `Rechain.RechainedEditMovesTip` | scripts/generate_source_to_decision_ce2_campaign.py:833-839 | rechaining edited rows keeps the original final hash only by restoring the original chain, or a hash event occurs |
| `Rechain.DecisionRecord.Rehash` | scripts/generate_source_to_decision_ce2_campaign.py:797-799 | replaces the stored decision hash by that of the remaining fields |
| `Rechain.RehashMeaning` | scripts/generate_source_to_decision_ce2_campaign.py:797-799 | rehashing keeps the other fields, is idempotent, and is the identity exactly on records whose hash is right |
| `AuditFile.SplitAppended` | src/adf_poc/audit.py:163-185 | splitting a text that ends a line and an appended text is splitting each |
| `AuditFile.LineBreaksSpelled` | src/adf_poc/audit.py:172-185 | lines end at ten characters |
| `AuditFile.LinesSpelled` | src/adf_poc/audit.py:172-185 | text is split at each of them, with nothing left of the last |
| `AuditFile.PairSpelled` | src/adf_poc/audit.py:172-185 | a carriage return and a line feed together are one break |
| `AuditFile.StripSpacesSpelled` | src/adf_poc/audit.py:172-185 | a line is blank when it holds nothing but twenty-nine characters |
| `AuditAppend.ReadWritten` | src/adf_poc/audit.py:112-185 | after k characters of the line of a row whose member names start with small letters, as every logger row's do, are written to any file: unchanged reading for k zero; otherwise it reads back exactly if it did before, only white space followed its last line break, the whole row was written, with or without its line break, and the row decodes, and then as before with that row last |
| `AuditAppend.WrittenAppendable` | src/adf_poc/audit.py:112-185 | only white space then follows the last line break exactly when the line break was written, or nothing was to a file of which that held |
| `AuditAppend.ReadAppendedExactly` | src/adf_poc/audit.py:112-185 | reading any file after whole appends of such rows yields what was readable before, then what the appended rows decode to, in order, exactly if only white space followed its last line break; otherwise nothing |
| `JsonTorn.GluedPiece` | src/adf_poc/audit.py:23-39 | an object whose first name starts with a small letter, or a beginning of its text, written after anything but white space, does not make that line an object |
| `JsonTorn.TornObject` | src/adf_poc/audit.py:23-39 | no proper beginning of a canonical object reads as a value |
| `JsonExtend.ValueExtends` | src/adf_poc/audit.py:23-39 | reading a value does not look past it: more text after a text that holds one changes only what is left over, unless the value is a number at its end and the new text goes on with it |
| `AuditFile.FileRoundTrip` | src/adf_poc/audit.py:163-185 | a file of appended rows reads back as exactly those rows in order exactly when they hold no explicit surrogate pair |
| `DecodedText.ReadRowsPairFree` | src/adf_poc/audit.py:163-185 | rows decoded from text without surrogates hold no surrogate pairs |
| `AuditRows.SameTipSameFile` | src/adf_poc/audit.py:163-221 | two readable audit files that verify and end in the same hash hold the same rows, or SHA-256 collides on two of their own body texts, or maps one to 64 zeros |
| `AuditRows.ContinuesVerifies` | src/adf_poc/audit.py:112-161 | rows numbered and linked onto a verifying base verify together with it |
| `AuditRows.RowReadBack` | src/adf_poc/audit.py:32-39 | a logger row reads back with its number, link and claimed hash unchanged |
| `AuditReadBack.ReadBackExact` | src/adf_poc/audit.py:112-185 | the appended rows read back as a chain with the same numbers and tip; it verifies when every payload is key-stable, and only then short of a collision |
| `AuditReadBack.ReopenResumes` | src/adf_poc/audit.py:64-73 | reopening a log of key-stable payloads resumes at exactly the tip and next number of the writer |
| `AuditReadBack.ReopenRefuses` | src/adf_poc/audit.py:64-73 | with a payload that is not key-stable reopening refuses the file, short of a collision |
| `AuditReadBack.ReopenedFromText` | src/adf_poc/audit.py:64-73 | what reopening decides on the decoded rows is what it decides on the text of the file |
| `ChainReport.OpeningNothing` | src/adf_poc/audit.py:51-73 | an empty file is a new log at number 0 linked to 64 zeros; an unreadable one is refused |
| `ChainReport.OpeningSpelled` | src/adf_poc/audit.py:64-73 | rows with findings are refused with these, no rows are refused, and otherwise the log resumes at the text of the last record_hash and one above the last sequence, as far as that is a number |
| `AuditLogger.DrainedExact` | src/adf_poc/audit.py:128-132 | the write loop stores the whole row exactly when some run of writes, each making progress, adds up to it |
| `AuditLogger.DrainedAmount` | src/adf_poc/audit.py:128-132 | in any case it stores what the writes add up to before one makes no progress, and no more than the row |
| `AuditLogger.AuditLogger.Open` | src/adf_poc/audit.py:45-73 | opens at the tip and next number of a file that reads back and verifies, and fails with the stated reason otherwise; the rows read are the base of the invariant |
| `AuditLogger.AuditLogger.Bind` | src/adf_poc/audit.py:93-110 | binding succeeds exactly with a path and no binding yet, and keeps the invariant |
| `AuditLogger.AuditLogger.Unbind` | src/adf_poc/audit.py:93-110 | leaving a binding keeps the invariant |
| `AuditLogger.AuditLogger.WriteBound` | src/adf_poc/audit.py:126-132 | appends exactly the part of the encoded row that the writes made progress on |
| `AuditLogger.AuditLogger.Store` | src/adf_poc/audit.py:121-152 | stores the part of the row's line that the writes of the descriptor in use made progress on; the file stays intact exactly if that is all or nothing of it |
| `AuditLogger.AuditLogger.Append` | src/adf_poc/audit.py:112-161 | a row stored whole has exactly the six members sequence, recorded_at, record_type, previous_hash, payload and record_hash, holding the number, the time, the type, the tip before, the payload and the digest of the rest; tip and number move to it, and the file grows by its canonical text and a line feed, whether the call returns, fails to decode or is durability-ambiguous; an incomplete write leaves tip and number and stores exactly the reported part; the invariant is kept in every case, and the file stays intact unless part of a row was stored |
| `AuditLogger.AuditLogger.ReadsBack` | src/adf_poc/audit.py:64-185 | while the file is intact, what it reads back is what was read when it was opened and then the decoded appended rows, exactly if nothing was appended or only white space followed the last line break of the opened text; otherwise nothing |
| `AuditLogger.AuditLogger.ReadsBackKept` | src/adf_poc/audit.py:64-221 | and what it reads back has the tip held in memory and the numbers given, and verifies when every payload is key-stable, otherwise only if a row and its decoded form collide |
| `AuditLogger.AuditLogger.Advance` | src/adf_poc/audit.py:159-160 | moving the tip over a stored row keeps the invariant |
| `AuditLogger.AuditLogger.ReadAll` | src/adf_poc/audit.py:163-185 | returns the rows held in memory, or the decoded lines of the file |
| `AuditLogger.MemoryVerifies` | src/adf_poc/audit.py:112-125 | a log held in memory verifies without errors, whatever its payloads |
| `AuditOutcomes.EveryRun` | src/adf_poc/audit.py:64-185 | every run of appends, failing writes, reads, binding, unbinding and reopening, whatever its payloads: it goes through exactly when every reopening in it finds whole lines whose rows decode and verify; its file then reads back as the decoded rows of all it wrote, or not at all if a failing write left part of a row or was followed by a write; if no failing write stored anything, text, tip and number are those of the chain of its appends |
| `AuditOutcomes.SurvivalExactly` | src/adf_poc/audit.py:64-221 | the same by the payloads: a run goes through if at each reopening the failing writes before it had stored nothing, or a whole row but its line break with nothing written since, and every payload written is key-stable; and each reopening it got through was such, or else its payloads decode and a row collides with its decoded form; at the end the file reads back exactly if the failing writes left it so and every payload written decodes, with the tip and the numbers of the rows written, and it verifies when they are key-stable, otherwise only with such a collision |
| `AuditOutcomes.RunTellsItsSteps` | src/adf_poc/audit.py:112-185 | when the file of a run reads back, row i holds the number i and the time, type and payload of the i-th step that wrote something, with surrogate pairs merged |
| `AuditOutcomes.RunKeepsChain` | src/adf_poc/audit.py:64-161 | when no failing write stored anything and only the payloads written before some reopening are required to be key-stable, no reopening is refused, the file holds exactly the chain of the run, and tip and number in memory are those of the file |
| `AuditOutcomes.ReopenExactly` | src/adf_poc/audit.py:64-73 | after any run that went through, one more reopening succeeds exactly when the file can be read line by line and the rows written decode and verify; key-stable payloads suffice and are needed short of a collision; the logger then stands at the tip and the number of the rows written |
| `AuditOutcomes.CoincidingRefused` | src/adf_poc/audit.py:64-161 | a payload with two names that are one once surrogate pairs are merged is appended without complaint, and the next reopening of the log is refused, whatever the digest |
| `AuditOutcomes.ReorderedRefused` | src/adf_poc/audit.py:64-161 | so is, short of a collision of the row with its decoded form, one with two names that change their order |
| `AuditOutcomes.RunReadsBack` | src/adf_poc/audit.py:64-221 | a run of key-stable payloads in which each failing write stored nothing, or a whole row but its line break with nothing written since, goes through, and its file reads back without errors, numbered 0 to n-1; if no failing write stored anything, with the tip and the number held in memory |
| `AuditOutcomes.PairFreeRun` | src/adf_poc/audit.py:64-185 | when moreover no payload, type or time written holds a surrogate pair, the file reads back as exactly the rows written |
| `AuditOutcomes.TornThenReopened` | src/adf_poc/audit.py:64-161 | after any run without such writes and one failing write of k characters of a row, a reopening finds the log as it was for k zero, finds the row appended when only its line break is missing, each provided these rows decode and verify, and is refused in between |
| `AuditOutcomes.TornThenAppended` | src/adf_poc/audit.py:64-185 | and the next append, with or without that reopening, leaves the file it would have left anyway for k zero, and an unreadable one otherwise |
| `AuditTorn.StepAgrees` | src/adf_poc/audit.py:64-161 | each step, whatever its payload, keeps a run where an account of it without any text puts it: whole rows, one row without its line break, or a file that no longer reads back; only a reopening can fail, exactly when there are no such rows or they do not decode and verify |
| `AuditTorn.MarkedExactly` | src/adf_poc/audit.py:64-161 | and that account follows from the steps alone: which failing writes stored what, and whether anything was written after |
| `AuditTorn.LostStays` | src/adf_poc/audit.py:112-185 | a file that does not read back does not after any part of such a row is written to it either |
| `AuditCalls.Do` | src/adf_poc/audit.py:45-185 | each call on a logger, with whatever the system does with its writes, is one step of a run |
| `AuditCalls.Drive` | src/adf_poc/audit.py:45-185 | any calls in order on loggers sharing a new file go through the run of their steps, and end where a reopening of that run is refused |
| `Actions.AuthorizationGate.Authorize` | src/adf_poc/actions.py:61-89 | declines without actions, errs without a passed verification, otherwise issues a signed token for this case and exactly these actions, with the digest of the proposal, from the current second on for the lifetime; reads clock and identifier source once per token |
| `Actions.AuthorizationGate.Validate` | src/adf_poc/actions.py:91-100 | refuses for signature, case, action, then expiry, in this order; consults the clock only after the first three |
| `Actions.IssuedTokenMatches` | src/adf_poc/actions.py:61-100 | signature, case and action checks never refuse a token issued for the case and one of its actions |
| `Actions.IssuedTokenLifetime` | src/adf_poc/actions.py:71-100 | an issued token expires exactly after the start of its second of issue plus the lifetime |
| `Actions.SimulatedIdentityProvider.InitializeCase` | src/adf_poc/actions.py:109-117 | gives an unknown case its initial state and leaves every known case alone |
| `Actions.SimulatedIdentityProvider.Apply` | src/adf_poc/actions.py:122-153 | a failing action changes nothing, an implemented one has its effect on that case only, any other is refused with the state unchanged |
| `Actions.ActionBroker.Execute` | src/adf_poc/actions.py:161-166 | validates, initializes and applies: the new target, clock and outcome are those of brokering the action |
| `Actions.PostActionVerifier.Verify` | src/adf_poc/actions.py:169-189 | fails exactly on an action without an expected state; otherwise one check per result in order, with the field, its expected and its actual value, passed exactly when the action succeeded and left the field at that value; all passed exactly when each did |
| `Engine.DecisionFirewallEngine.constructor` | src/adf_poc/engine.py:22-44 | gate, target and broker exist exactly in the simulation mode |
| `Engine.DecisionFirewallEngine.RequireSimulationWiring` | src/adf_poc/engine.py:46-53 | passes exactly in simulation with gate, broker and target present |
| `Engine.DecisionFirewallEngine.TakeIn` | src/adf_poc/engine.py:57-77 | appends the intake rows up to the first advisor that raises |
| `Engine.DecisionFirewallEngine.Observe` | src/adf_poc/engine.py:99-131 | the read-only rest of a call: rows, decision and identifiers |
| `Engine.DecisionFirewallEngine.Authorize` | src/adf_poc/engine.py:116-131 | asks the gate and appends the authorization row |
| `Engine.DecisionFirewallEngine.Act` | src/adf_poc/engine.py:133-152 | brokers the actions in order, one row and one result each, and leaves the target and clock of that run |
| `Engine.DecisionFirewallEngine.CheckActions` | src/adf_poc/engine.py:154-175 | the check after the actions, or nothing on an action without an expected state |
| `Engine.DecisionFirewallEngine.Conclude` | src/adf_poc/engine.py:154-237 | check row when there were actions, then the final row and the decision with its counters |
| `Engine.DecisionFirewallEngine.Simulate` | src/adf_poc/engine.py:116-237 | the simulated rest of a call |
| `Engine.DecisionFirewallEngine.Process` | src/adf_poc/engine.py:55-237 | one call appends, changes and answers exactly what the specification of a call says, raising calls included |
| `EngineAnswers.ReadOnlyAnswers` | src/adf_poc/engine.py:55-237 | a read-only call returns: the eight rows and the decision field by field, in literals; a proposal with actions that were not passed becomes INVESTIGATE with its own steps, one more rationale and rule and no actions; any other keeps all but actions, authority and rollback plan; the actions proposed are the counterfactual |
| `EngineAnswers.DeclinedAnswers` | src/adf_poc/engine.py:55-237 | a returning simulated call without a passed verification or without actions: seven rows and the decision in literals, with the downgraded proposal if there were actions, no token, no result |
| `EngineAnswers.ClearedAnswers` | src/adf_poc/engine.py:55-237 | a returning simulated call with actions that were passed: every row, the grant, every result, check, counter and field of the decision in literals, and each action from the target it found to the one it left |
| `EngineAnswers.UncheckedAnswers` | src/adf_poc/engine.py:55-175 | a simulated call that raises at the check after its actions: every row up to there, the grant and each action from target to target |
| `EngineAnswers.AdvisorAnswers` | src/adf_poc/engine.py:55-66 | when evidence or model raise the rows before are appended and nothing else changes |
| `EngineAnswers.PolicyAnswers` | src/adf_poc/engine.py:68-77 | the same for policy and verifier |
| `EngineAnswers.UnwiredAnswers` | src/adf_poc/engine.py:46-53 | a simulated call without its wiring has appended the five intake rows and changed nothing else |
| `Engine.CountEffects` | src/adf_poc/engine.py:179-183 | counts the successful results |
| `EngineCalls.RunningExact` | src/adf_poc/engine.py:133-152 | each action reads the clock once, in order; its reading, the injected failure and its support alone decide what becomes of it |
| `EngineAnswers.BrokeringTold` | src/adf_poc/actions.py:91-166 | one brokered action of a matching token: expired, failed, applied with its own effect and way back, or unknown, with the target, the result and the row each case leaves, in literals |
| `EngineCalls.TokenMatches` | src/adf_poc/engine.py:117-141 | no action of the proposal is ever refused for signature, case or permission |
| `EngineCalls.FailSafe` | src/adf_poc/engine.py:79-131 | for every policy and verifier the gate never raises inside a call; a token is issued exactly for a passed verification of a proposal with actions, and then permits exactly these |
| `EngineCalls.StoppedTrace` | src/adf_poc/engine.py:57-77 | a raising advisor leaves a proper non-empty prefix of the intake stages and changes nothing else |
| `EngineCalls.ReadOnlyCall` | src/adf_poc/engine.py:71-131 | a returning read-only call appends exactly the eight stages, leaves target and clock alone even when wired, and reports no token, broker call or effect |
| `EngineCalls.SimulatedTrace` | src/adf_poc/engine.py:55-237 | a simulated call appends the five intake stages, the authorization, one row per brokered action, the check exactly when there were actions, and the final row; it raises exactly on an action without an expected state |
| `EngineCalls.UnwiredTrace` | src/adf_poc/engine.py:46-53 | a simulated call without its wiring stops after the intake with nothing touched |
| `EngineCalls.ReturnsExactly` | src/adf_poc/engine.py:55-237 | a call returns exactly when no advisor raises and it is read-only, or wired with no brokered action outside the three implemented ones |
| `EngineCalls.ClearedRun` | src/adf_poc/engine.py:133-152 | an authorized proposal is run whole under its own token, the clock read once for the token and once per action |
| `EngineReplay.CallReplays` | src/adf_poc/engine.py:133-152 | reading the rows of any call takes a reader from the target before it to the target after it |
| `EngineReplay.BrokeringPlayed` | src/adf_poc/actions.py:109-166 | the row a brokered action leads to says exactly what happened to the target, with the states before and after |
| `EngineSafety.ExecutedExactly` | src/adf_poc/actions.py:91-100 | an implemented action is executed exactly when its clock reading is not past whole second of issue plus lifetime, and is rejected as expired otherwise |
| `EngineSafety.ExecutedPrefix` | src/adf_poc/engine.py:133-152 | under a clock that never runs back the action rows are an executed prefix and a rejected rest |
| `EngineSafety.CallJustified` | src/adf_poc/engine.py:76-152 | within a call every action row follows a passed verification and an issued authorization that permits its action |
| `EngineSafety.CallSound` | src/adf_poc/engine.py:79-131 | the authorization row never carries an error and reports issue exactly for simulation, passed verification and a proposal with actions, permitting exactly those |
| `EngineSafety.CallConserves` | src/adf_poc/engine.py:133-183 | invocations, results and action rows agree in number, effects are the successful rows, and the status is VERIFIED, FAILED or NOT_APPLICABLE exactly as the counters say |
| `EngineRuns.RunEngine` | src/adf_poc/engine.py:240-264 | a fresh engine over all cases: every decision in order, or the fault of the first raising call with the log up to and including it |
| `EngineRuns.EndsAsTold` | src/adf_poc/engine.py:240-264 | what a run answers is what going through the cases one by one tells: the first call, and if it returns the rest from the target, clock and identifiers it left; every decision in order with the rows of every call, or the first fault with the rows up to it |
| `EngineRuns.ProcessAll` | src/adf_poc/engine.py:262-262 | the list of calls on one engine, ended by the first that raises |
| `EngineRuns.LogDeterminesTarget` | src/adf_poc/engine.py:55-237 | over every run, raising calls included, replaying the log from an empty target rebuilds the target exactly, and each executed row states what the log established before and after it |
| `EngineRuns.EveryActionJustified` | src/adf_poc/engine.py:76-152 | over every run each action row follows, in its own call, a passed verification and an issued authorization for its case and action |
| `EngineRuns.EveryAuthorizationSound` | src/adf_poc/engine.py:79-131 | over every run the recorded authorization error is empty and issue means simulation, passed verification and exactly the proposed actions |
| `EngineRuns.ReadOnlyRun` | src/adf_poc/engine.py:55-131 | a read-only run of n returning calls has 8n rows, row i being stage i mod 8 of case i div 8, and never touches target or clock |
| `EngineRuns.SimulationRun` | src/adf_poc/engine.py:55-237 | the log of a simulation run parses into one segment per case, of the length its proposal and verification determine |
| `EngineRuns.RunConservation` | src/adf_poc/engine.py:133-183 | over every returning run the invocations and effects the decisions report sum to the action rows and successful rows of the log |
| `AuditedRuns.FinalHashDeterminesTarget` | src/adf_poc/audit.py:208-221 | however the rows of a run are rendered one by one, as long as each can be told from its rendering: any rows that verify and end in the final hash of the run are its rows, and replaying them rebuilds the target the run left, or a hash event occurs |
| `AuditedRuns.LogWritten` | src/adf_poc/audit.py:112-161 | the audit rows written for an engine log read as that log |
| `AuditedRuns.RenderingExists` | src/adf_poc/audit.py:112-161 | every engine log can be rendered so that each of its rows is told from its rendering |
| `AuditedRuns.WrittenVerifies` | src/adf_poc/audit.py:112-161 | the audit rows written for an engine log verify |
| `FeatureContract.SelectModeledAttributes` | src/adf_poc/feature_contract.py:162-208 | accepts exactly valid sources whose modeled attributes are authorized and typed, returning their readings and nothing else; otherwise the first complaint in table order |
| `FeatureContract.RankExact` | src/adf_poc/feature_contract.py:20-42 | the table lists every modeled attribute once |
| `FeatureContract.ValidateContext` | src/adf_poc/feature_contract.py:87-159 | the case fields come first, then at least one inventory assertion, then the first complaint about an assertion in order |
| `FeatureContract.AgreesExactly` | src/adf_poc/feature_contract.py:117-159 | an inventory assertion passes exactly when it states the four case fields, criticality compared as a number |
| `FeaturesSpelled.ComplaintSpelled` | src/adf_poc/feature_contract.py:162-208 | the complaint is that of the first of the eighteen attributes, in order, that is from a source that may not state it, of the wrong type, or out of range |
| `FeaturesSpelled.ReadingSpelled` | src/adf_poc/feature_contract.py:180-207 | an accepted attribute is read as its truth value or as its whole number |
| `FeaturesSpelled.SourceSpelled` | src/adf_poc/feature_contract.py:174-174 | a source outside the table must be named by an identifier |
| `FeaturesSpelled.IdentifierSpelled` | src/adf_poc/feature_contract.py:18-18 | identifiers are a letter or digit and up to 127 letters, digits, dots, underscores, colons and hyphens |
| `FeaturesSpelled.OwnSpelled` | src/adf_poc/feature_contract.py:97-106 | the four case fields are checked in order; the context holds their values |
| `FeaturesSpelled.InventorySpelled` | src/adf_poc/feature_contract.py:117-158 | an inventory assertion is checked for presence, then field by field, then against the case, in this order |
| `Features.ExtractFeatures` | src/adf_poc/features.py:38-105 | succeeds exactly when the case context holds and every event is admissible; every value and trace is then the one its feature is defined by; otherwise the complaint of the case context, or else that of the first event that has one |
| `FeaturesSpelled.FeaturesAnswered` | src/adf_poc/features.py:38-105 | every value and trace of an extraction: privilege by the name global_admin, criticality as the case states it, intensity the largest count over twenty up to one, each flag whether some event states it as true; traces are the events that state the attribute, and the inventory events for the two case features |
| `FeaturesSpelled.FeaturesListed` | src/adf_poc/features.py:13-34 | there are these twenty features |
| `Features.Gather` | src/adf_poc/features.py:65-95 | the loop over events: values and traces of all features, or the first complaint |
| `Features.Absorb` | src/adf_poc/features.py:66-95 | one event raises exactly the features it states and extends exactly their traces |
| `Features.ValidateCase` | src/adf_poc/features.py:49-63 | accepts exactly the cases some inventory event of which exists and all of which agree; otherwise the error is that of the own fields, the missing inventory, or the first inventory event that does not agree |
| `FeatureLaws.IntensityMeaning` | src/adf_poc/features.py:71-84 | failed-login intensity is the largest count over twenty, capped at one |
| `FeatureLaws.FlagMeaning` | src/adf_poc/features.py:85-95 | a flag feature is one exactly when some event states it as true, zero otherwise |
| `FeatureLaws.OwnFeatures` | src/adf_poc/features.py:38-105 | the two case features are the privilege flag and the criticality of the case, whatever its events state |
| `FeatureLaws.MergedEvents` | src/adf_poc/features.py:65-95 | values of merged event lists are the pointwise maximum of the parts; traces are joined |
| `FeatureLaws.AddedEvent` | src/adf_poc/features.py:65-95 | adding an event anywhere never lowers a feature, and each feature is at least what the event states |
| `FeatureLaws.OrderIndependent` | src/adf_poc/features.py:38-105 | reordering the events changes neither success nor any value, and reorders traces along |
| `FeatureLaws.IgnoresTheRest` | src/adf_poc/features.py:38-105 | events that agree on identifier, source and modeled attributes give the same values and traces, whatever else they hold |
| `FeatureLaws.AcceptsTheRest` | src/adf_poc/features.py:38-105 | and they are accepted together, with the same first complaint; with equal inventory attributes one case has features exactly when the other does |
| `FeatureLaws.FeaturesInUnit` | src/adf_poc/features.py:38-105 | all extracted features lie in the unit interval |
| `Evidence.AssessEvidence` | src/adf_poc/evidence.py:76-212 | succeeds exactly when every event is admissible with its conflict flag in order, and then returns the assessment defined by averages, sets and identifier lists; otherwise the error of the first bad event |
| `EvidenceExact.QualityExactly` | src/adf_poc/evidence.py:161-173 | the quality is 27, 23, 18, 17 and 15 hundredths of the shares of events with provenance and verified integrity, the mean freshness, the share of seven sources and the mean trust, less a tenth per conflict up to a quarter, 0.30 for an instructing event and 0.12 for two or more absent sources, cut to the unit interval |
| `EvidenceExact.AveragesSpelled` | src/adf_poc/evidence.py:142-157 | the five averages are counts and sums over the events divided by their number; freshness is full up to 300 seconds, none from 7200 on and linear between |
| `EvidenceExact.ListsSpelled` | src/adf_poc/evidence.py:107-160 | supporters, identifier lists, absent sources in alphabetical order, conflicts and poisoning, from ten positive and five benign attributes stated as true |
| `EvidenceExact.ReasonsSpelled` | src/adf_poc/evidence.py:175-195 | the reasons in order, each under its own threshold, the baseline when there is none |
| `EvidenceExact.NothingAssessed` | src/adf_poc/evidence.py:77-93 | without events everything is zero and all seven sources are absent |
| `EvidenceExact.ConflictSpelled` | src/adf_poc/feature_contract.py:211-234 | a conflict is reported by the network alone and as a truth value, anything else is refused |
| `Evidence.Summarize` | src/adf_poc/evidence.py:95-140 | the loop gathers exactly the totals, sources, identifier lists and conflict count of the events |
| `Evidence.Score` | src/adf_poc/evidence.py:161-173 | the five weights, then one penalty after the other, then the cut to the unit interval, in numbers |
| `Evidence.CollectMissing` | src/adf_poc/evidence.py:158-158 | the expected sources that sent nothing, in the order of their names |
| `Evidence.CollectReasons` | src/adf_poc/evidence.py:175-195 | the reasons in order, or the baseline reason alone |
| `EvidenceLaws.QualityBound` | src/adf_poc/evidence.py:161-173 | the quality lies in the unit interval and is at most one minus every penalty that applies |
| `EvidenceLaws.QualityPerfect` | src/adf_poc/evidence.py:142-173 | the quality is one exactly when every event has provenance, integrity, full freshness and full trust, none conflicts or instructs, at least seven sources reported and at most one expected source did not |
| `EvidenceLaws.QualityMonotone` | src/adf_poc/evidence.py:107-173 | improving provenance, integrity, delay or trust of events, or clearing conflicts or poison, never lowers the quality |
| `EvidenceLaws.OrderIndependent` | src/adf_poc/evidence.py:95-195 | reordering the events changes neither success nor any score, count, missing source or reason, and reorders the identifier lists along |
| `EvidenceLaws.ReasonsAboutEvents` | src/adf_poc/evidence.py:175-195 | each reason is given exactly when some event lacks provenance, is unverified, conflicts or instructs |
| `EvidenceLaws.FindingsExactly` | src/adf_poc/evidence.py:175-195 | each reason is given exactly under its own condition, the baseline exactly when none applies |
| `EvidenceLaws.MissingExactly` | src/adf_poc/evidence.py:158-158 | a source is missing exactly when it is expected and no event came from it |
| `EvidenceLaws.AveragesInUnit` | src/adf_poc/evidence.py:142-157 | every average lies in the unit interval |
| `Agreement.PositiveAgree` | src/adf_poc/evidence.py:126-130 | positive evidence exists exactly when the feature of some positive indicator is one |
| `Agreement.PositiveTraced` | src/adf_poc/evidence.py:126-130 | every positive event is in the trace of such a feature |
| `Agreement.TracedPositive` | src/adf_poc/evidence.py:126-130 | the trace of each such feature holds a positive event |
| `Agreement.TracesNameEvents` | src/adf_poc/features.py:65-105 | traces name events of the case only |
| `Agreement.SupportersKnown` | src/adf_poc/evidence.py:126-130 | independent support comes from identity, network, threat intelligence and endpoint only, so from at most four sources |
| `Agreement.ConflictsBounded` | src/adf_poc/evidence.py:121-134 | there are at most as many conflicts as network events |
| `Agreement.SucceedTogether` | src/adf_poc/evidence.py:116-125 | once the inventory agrees, assessment succeeds exactly when extraction does and every conflict flag is in order |
| `LockFile.ParseLock` | scripts/validate_supply_chain.py:134-186 | the loop answers what the line machine answers, with the same errors and line numbers |
| `LockErrors.ErrorsExplained` | scripts/validate_supply_chain.py:134-186 | each error says what is so at its line: whole entries before a line that is neither gap nor head, a head of a package already there, an entry broken off before a line that is no hash line, a hash repeated in the entry that starts there, an entry without its end, or no entries at all |
| `LockFile.FinishLockEntry` | scripts/validate_supply_chain.py:118-131 | an entry without hashes or with a repeated hash is refused, any other stored |
| `LockGrammar.GrammarExact` | scripts/validate_supply_chain.py:134-186 | a file is accepted with these entries exactly when it is a sequence of gaps and well-formed entries with distinct normalized names that name them |
| `LockGrammar.GrammaticalAccepted` | scripts/validate_supply_chain.py:134-186 | every file of the grammar is accepted with the entries its blocks name |
| `LockGrammar.AcceptedGrammatical` | scripts/validate_supply_chain.py:134-186 | every accepted file is a sequence of such blocks |
| `LockGrammar.NormalExactly` | scripts/validate_supply_chain.py:61-62 | normalization leaves exactly the names without capitals, dots, underscores and doubled hyphens alone |
| `LockGrammar.NormalizedName` | scripts/validate_supply_chain.py:61-62 | a normalized name is a name, and normalizing again changes nothing |
| `LockErrors.NormalCharacter` | scripts/validate_supply_chain.py:61-62 | capitals become the small letters, other characters outside separators stay |
| `LockErrors.NormalRun` | scripts/validate_supply_chain.py:61-62 | a run of hyphens, underscores and dots becomes one hyphen |
| `LockErrors.NameSpelled` | scripts/validate_supply_chain.py:40-42 | the characters of names and versions |
| `LockErrors.LinesSpelled` | scripts/validate_supply_chain.py:40-43 | head and hash lines in literals |
| `LockErrors.DigestSpelled` | scripts/validate_supply_chain.py:43-43 | a digest is 64 small hexadecimal digits |
| `LockErrors.GapSpelled` | scripts/validate_supply_chain.py:143-145 | a gap is an empty line, or white space before a hash sign |
| `LockGrammar.EntryLineRead` | scripts/validate_supply_chain.py:40-42 | a written head line is taken apart into its name and version |
| `LockGrammar.EntryLineWritten` | scripts/validate_supply_chain.py:40-42 | whatever matches as a head line is the written form of its parts |
| `LockGrammar.HashLineRead` | scripts/validate_supply_chain.py:43-43 | a written hash line is taken apart into its digest and continuation mark |
| `LockGrammar.HashLineWritten` | scripts/validate_supply_chain.py:43-43 | whatever matches as a hash line is the written form of its parts |
| `LockRoundTrip.RoundTrip` | scripts/validate_supply_chain.py:134-186 | parsing the printed form of any map of normalized names to a version and a non-empty set of hashes returns the map, in whatever order entries and hashes are printed |
| `LockRoundTrip.TextRoundTrip` | scripts/validate_supply_chain.py:134-186 | the same through the joined text and its splitting into lines |
| `LockRoundTrip.ReparseStable` | scripts/validate_supply_chain.py:134-186 | whatever is accepted can be printed and parsed again without change |
| `LockRoundTrip.Printable` | scripts/validate_supply_chain.py:134-186 | every map of canonical entries has a printed form |
| `LockRoundTrip.Unambiguous` | scripts/validate_supply_chain.py:134-186 | every line of an accepted file belongs to exactly one block in one role |
| `LockRoundTrip.DuplicateRejected` | scripts/validate_supply_chain.py:153-160 | a second head line for a package, however spelled, is rejected at its own line |
| `Versions.CompareTotalPreorder` | scripts/validate_supply_chain.py:195-199 | comparison is reflexive, antisymmetric in sign, total and transitive |
| `Versions.CompareEqualExactly` | scripts/validate_supply_chain.py:195-199 | versions compare equal exactly when they are the same after dropping trailing zeros |
| `Versions.CompareIsOrder` | scripts/validate_supply_chain.py:195-199 | comparing padded tuples is comparing component by component, an ended version going on with zeros |
| `Versions.LockedVersionSatisfies` | scripts/validate_supply_chain.py:202-222 | the loop answers the verdict of the first clause that does not pass |
| `Versions.SatisfiedExactly` | scripts/validate_supply_chain.py:202-222 | a specifier is satisfied exactly when every clause is well-formed and met |
| `VersionMeaning.OperatorMeaning` | scripts/validate_supply_chain.py:202-222 | a numeric version satisfies ==, <=, >=, < or > before a numeric bound exactly when it compares equal, at most, at least, below or above, and violates it otherwise |
| `VersionMeaning.Admits` | scripts/validate_supply_chain.py:195-222 | the same component by component: agreement everywhere with missing components read as zero, or a smaller component where the two first differ |
| `VersionMeaning.Conjunction` | scripts/validate_supply_chain.py:202-222 | clauses joined by a comma are satisfied exactly when each is |
| `VersionMeaning.Range` | scripts/validate_supply_chain.py:202-222 | a version satisfies >=low,<high exactly when it is not earlier than low and earlier than high |
| `VersionMeaning.DottedRead` | scripts/validate_supply_chain.py:189-192 | the decimal numbers of a version with dots between them read as that version |
| `RequirementLines.ClauseSpelled` | scripts/validate_supply_chain.py:205-212 | a clause can be read exactly when it is one of five operators before a numeric version |
| `Versions.SatisfiedConvex` | scripts/validate_supply_chain.py:202-222 | the versions that satisfy a specifier form a convex set |
| `Versions.OrderMattersExactly` | scripts/validate_supply_chain.py:202-222 | for any clauses handed to the comparison, their order can change the verdict exactly when one is malformed and another fails |
| `Versions.OrderMatters` | scripts/validate_supply_chain.py:202-222 | two such clauses, in a text outside the closed grammar that no requirement file passes on |
| `DirectRequirements.ClosedExactly` | scripts/validate_supply_chain.py:36-39 | a text is in the closed specifier grammar exactly when every clause between its commas is one the comparison can read |
| `DirectRequirements.NumericExactly` | scripts/validate_supply_chain.py:189-192 | a text is digits with single dots between them exactly when its pieces between dots are all digits |
| `DirectRequirements.ClosedOrderIndependent` | scripts/validate_supply_chain.py:202-222 | a closed specifier is judged the same in every order of its clauses, and no clause of it is ever found malformed |
| `DirectRequirements.DirectValueExactly` | scripts/validate_supply_chain.py:91-100 | a value is read as a requirement exactly when it is a bounded, stripped text made of a name and a closed specifier; the reading is unique |
| `RequirementLines.RequirementSpelled` | scripts/validate_supply_chain.py:91-100 | a name and a closed specifier are read as the normalized name and that specifier when they have at most 512 characters together, and refused as unbounded otherwise |
| `RequirementLines.RefusalSpelled` | scripts/validate_supply_chain.py:91-100 | any other bounded text without white space at its ends is refused as not closed |
| `RequirementLines.StripSpelled` | scripts/validate_supply_chain.py:92-93 | white space is taken off both ends and nothing else |
| `RequirementLines.SpaceSpelled` | scripts/validate_supply_chain.py:92-93 | white space is these twenty-nine characters |
| `RequirementLines.ContentSpelled` | scripts/validate_supply_chain.py:105-108 | what a line says ends at its first hash sign |
| `DirectRequirements.ParseDirectRequirements` | scripts/validate_supply_chain.py:103-115 | accepts exactly the files with some requirement whose lines with content are all requirements under distinct normalized names, and returns them in order; otherwise the first offending line and its error |
| `RequirementLines.LinesJoined` | scripts/validate_supply_chain.py:103-115 | the lines of a file say what its parts say, one after the other |
| `RequirementLines.LineSpelled` | scripts/validate_supply_chain.py:103-115 | a line without content says nothing, any other what its content is read as |
| `DirectRequirements.PassedSpecifiers` | scripts/validate_supply_chain.py:91-115 | whatever a requirement file says, each specifier it passes on is judged the same in any order of its clauses; only a locked version that is not numeric cannot be judged |
| `Versions.ValidateDirectLocks` | scripts/validate_supply_chain.py:225-243 | accepts exactly when every direct requirement is locked at a satisfying version; otherwise all omitted names, or the first requirement that fails or cannot be read |

## Left out

- Engine rows in the logger: the engine appends to an in-memory trail of typed rows; `AuditedRuns` connects the trail to the hash chain through any rendering of its rows that can be read back, so a failing `audit.append` inside `process` is not modelled.
- `AuditLogger.AuditLogger.Append`: an unbound write that fails is modelled by the part that reached the file; failures other than that or `fsync` are not modelled.
- Runs start from an empty file: what a logger makes of a file written by others is in `AuditLogger.AuditLogger.ReadsBack` and `AuditAppend.ReadWritten`.
- Descriptor identity, inode, link and symlink checks, process locks, chunked reads and UTF-8 decoding of files: only their outcomes "returned", "durability ambiguous" and "failed before completion" are modelled.
- `AuditLogger.verify` on a path: the verifier's labels are a parameter, the file test is not modelled.
- Floats: a float is the token it prints as; NaN and the infinities as constants, and Python's limit on the digits of integers, are not modelled.
- Timestamps, latencies, the `asset_id`, `policy_id` and similar constant fields of a decision record: opaque to every property; the record hash is an arbitrary function of the modelled fields.
- HMAC, digests of decisions, the deterministic failure of the target: arbitrary functions; nothing is claimed about their strength.
- Configuration errors of the token lifetime and overflow of dates: not modelled.
- `policy.py`, `verifier.py`, `model.py`: arbitrary functions; nothing is claimed about their rules.
- Rounding to six decimals, `fsum` and the instruction patterns: exact reals and one flag per event; trust scores are reals.
- Parsing of event timestamps: times are reals.
- `_synchronize_and_rechain` before its loop: copies fields between a decision and its rows.
- Size bounds on lock and requirement files (bytes, lines, line length), NUL and UTF-8 checks: the parsers start at the lines of the file.
- `pyproject.toml`, the SBOM, manifest and readiness checks: acceptance predicates over fixed tables that would add only easy members.
- Case folding outside ASCII in `normalize_name`: package names are ASCII once they match.
- Docker and container drivers, command lines, the HTTP service, campaign registries and document builders: input, output and fixed tables.
