# A verified model of SolanaRepro's decision code

SolanaRepro captures a Solana transaction, decides which account pre-state can be defended, seals the
evidence into a bundle, replays it and compares the outcome. This project models the code that makes
those decisions and proves what they are worth, from the base-58 codec up to one statement about the
whole path (`EndToEnd.PassingAssertionMeansSupported`). A bundle is created from a capture and then
exposed to any run of replay, compare and assert commands, with outputs directed anywhere, the
bundle's own files included, and `replay.json` overwritten at will. If an assertion with the default
accept list still passes, then the plan was SUPPORTED and the transaction ran only the programs of its
class; the replay that was judged agrees with the captured transaction on result, error, balances, token
balances and inner instructions, its log within 5% and its compute units within 1% (where both are counted
and the original is not zero); and every account file the plan called for is still in the directory as it
was derived, starting from the recorded balance. `EndToEnd.ExactOnCreatedBundle` says, as an equivalence,
what an EXACT comparison of such a bundle means.

What the theorems assume of the surroundings (an injective hash, files that read back) is stated where it
is used. `Example.PassingExample` meets all of it at once: a System transfer is captured, planned and
created, and an assertion passes on its bundle. The bundles that are treated badly in the findings below
are this one.

`dafny verify dfyconfig.toml` checks everything.

| file | models |
|---|---|
| `Numerals.dfy`, `Base58.dfy` | positional numerals; `src/base58.js` |
| `Lcs.dfy` | the rolling subsequence table and log similarity of `src/compare.js` |
| `Sorting.dfy`, `Splitting.dfy`, `JsText.dfy` | JavaScript's string sort, `split`/`join`, 32-bit operators |
| `Json.dfy` | `JSON.stringify` and the comparator's key-order-free printer |
| `Compare.dfy` | canonical errors, post-state checks and the status ladder of `src/compare.js` |
| `Records.dfy`, `Transaction.dfy` | `src/inspect.js` (programs, roles) and `src/transaction-class.js` |
| `Provenance.dfy`, `Eligibility.dfy` | `src/provenance.js`, `src/eligibility.js`, the planning part of `src/bundle.js` |
| `Logs.dfy` | log lines on their way through `logs.txt` |
| `Integrity.dfy`, `Bundle.dfy` | `src/integrity.js`, the seal of `src/bundle.js`, `src/bundle-validation.js` |
| `Create.dfy` | the files `src/bundle.js` writes, over whatever the directory held |
| `Workflow.dfy` | `src/replay.js`, `src/compare.js`, `src/assert.js` as steps over a bundle directory |
| `CreateValid.dfy` | whether the bundle of `src/bundle.js` passes `src/bundle-validation.js` |
| `EndToEnd.dfy`, `Example.dfy` | what the parts say together, and one bundle from capture to assertion |

Loops of the source are methods with invariants, proved against functions whose own properties are
then lemmas; for each decision (a role, a class, a provenance, a verdict, a validation) one of them is an
equivalence that does not use the function it is about. Files that are expressions and calls in the source are functions here.

## What the proofs turned up

* **HIGH_FIDELITY and compute units.** The comparator's rule text says the difference is at most 1%.
  The code has no percentage when the original count is missing or zero, and then asks nothing:
  `Compare.ComputeCloseMeans` is the exact condition, `Compare.ZeroOriginalIsUnbounded` an instance.
* **Fresh assertions with a redirected output.** `assert --fresh --out x` runs a replay into `x` but
  judges the bundle's `replay.json`, whatever it already held. `Workflow.FreshJudgesNewReplay` says
  exactly when the new execution is judged; in `Example.RedirectedFailurePasses` an execution that FAILED
  leaves an assertion passing with EXACT. (The option is called `rerun` here, `fresh` being a Dafny keyword.)
* **Outputs inside the bundle.** `compare B --out B/expected.json` overwrites the evidence it has just
  compared with. `Workflow.WriteKeepsBundleExactly` says which writes keep a bundle,
  `Workflow.CompareIntoEvidence` what that command leaves behind (`Example.ComparedIntoEvidence` an
  instance), and `Workflow.PassingAssertionOverRuns` that no such write ever leads to an assertion
  passing on anything but the original evidence.
* **Comparison ignores runtime pins.** The rule text of `compare` lists runtime compatibility under
  UNSUPPORTED; `compareReplay` itself never looks at it, only `replay` and `assert` do.
  `Workflow.CompareUnsupportedExactly` is the exact condition, `Example.OtherPinsEarnExact` a bundle that
  earns EXACT and is refused by the other two commands.
* **Bundling into a used directory.** `createBundle` does not clear its output directory. A `.json` file
  left in accounts/ is sealed with the rest and loaded by every run (`EndToEnd.StaleFixtureStays`,
  `Example.StaleFixtureIsLoaded`); the runner gets planned fixtures only, if and only if no `.json` file of
  another name was there (`EndToEnd.FixturesSurvive`).
* **Structured errors.** An error object other than InstructionError and InsufficientFundsForRent, or an
  instruction error with a structured detail other than Custom, never meets the runner's text for it, so
  such a failure is FAILED however exact the replay (`Compare.OtherErrorsMeetOnlyJson`,
  `Compare.StructuredErrorsMeetOnlyJson`; `Compare.DuplicateInstructionFails` is an instance).
* **SPL derivation.** Its lookups never fail after classification; deriving still throws when a
  mint, owner or amount is unreadable, which classification does not exclude.
  `Provenance.SplDerivationSucceeds` is an equivalence, `Eligibility.UnreadableMintStopsPlanning` an instance.
* **Log lines.** Blank lines, embedded line breaks and trailing white space are lost between capture
  and bundle; `Logs.LogsSurviveExactly` is an equivalence, `Logs.BrokenLineIsSplit` an instance.
* **File names.** Backslashes and names that look like a drive letter make a bundle fail its own
  fresh index; `Integrity.FreshIndexVerifies` is an equivalence, `Integrity.TwinsFailTheirOwnIndex` an instance.
* The repository's README and docs/bundle-format.md speak of SEMANTIC_MATCH and DIVERGENT. The code
  has HIGH_FIDELITY and FAILED, and the model follows the code.

## Model

| member | source | states |
|---|---|---|
| Base58.IndexIsPosition | src/base58.js:1-2 | the arithmetic digit of a character is its position in the alphabet text, and there is none exactly for characters outside it |
| Base58.AbsorbByte | src/base58.js:7-17 | one byte's pass over the digits, with its `<<`: the little-endian base-58 number becomes 256 times itself plus the byte, digits stay below 58 and trimmed, at most two are pushed |
| Base58.AbsorbDigit | src/base58.js:29-40 | the decoder's pass, with its `& 0xff` and `>>`: the base-256 number becomes 58 times itself plus the digit, at most one byte is pushed |
| Base58.EncoderSum | src/base58.js:9-13 | carries stay at most 255 and sums at most 14847, where the 32-bit shift agrees with unbounded arithmetic |
| Base58.DecoderSum | src/base58.js:32-36 | carries stay at most 57 and sums at most 14847, where mask and shift agree with unbounded arithmetic |
| Base58.EncodeBase58 | src/base58.js:4-23 | the loops compute the change of base that keeps leading zeros one for one |
| Base58.DecodeBase58 | src/base58.js:25-44 | the loops compute the inverse change of base, and fail with the first character outside the alphabet exactly when there is one |
| Base58.DecodeEncode | src/base58.js:4-44 | every byte sequence survives encoding and decoding, leading zeros and empty input included |
| Base58.EncodeDecode | src/base58.js:4-44 | every text over the alphabet is the encoding of what it decodes to |
| Base58.DecodedLength | src/base58.js:25-62 | a text is at least as long as its decoding and longer by at most the slack that 58^(n+slack) >= 256^n allows |
| Base58.IsBase58Address | src/base58.js:46-53 | true exactly for the texts that decode to 32 bytes: the 32..44 window never changes the answer |
| Base58.IsTransactionSignature | src/base58.js:55-62 | true exactly for the texts that decode to 64 bytes: the 64..88 window never changes the answer |
| Base58.WindowsAreTight | src/base58.js:47-56 | both ends of both windows are reached |
| Base58.LongTextsAreAddresses | src/base58.js:46-53 | every 43-character text over the alphabet that begins with the digit 4 or more is an address |
| JsText.SpacesAreListed | src/compare.js:14 | white space is exactly the twenty-five characters ECMAScript lists |
| Lcs.LcsLength | src/compare.js:28-39 | the single row with its saved diagonal computes the last entry of the full table |
| Lcs.LengthIsMaximal | src/compare.js:28-39 | that entry is the length of a common subsequence and none is longer |
| Lcs.EditDistanceIsLeast | src/compare.js:28-44 | n + m - 2 LCS is the least number of line insertions and deletions between the logs |
| Lcs.LogSimilarity | src/compare.js:41-44 | computes the Dice ratio of the table entry, 1 for two empty logs |
| Lcs.SimilarityIsScore | src/compare.js:41-44 | the ratio lies in [0,1], is symmetric, and is 1 exactly for identical logs |
| Lcs.SimilarityIsEditShare | src/compare.js:41-44 | 1 minus the similarity is the least edit cost as a share of all lines, so every threshold is an edit bound |
| Lcs.ThresholdIsEditBound | src/compare.js:103-121 | similarity reaches 0.95 exactly when an edit of at most 5% of all lines leads from one log to the other |
| Json.ParsePrint | src/compare.js:6-10 | a reader recovers every value from its JSON.stringify text |
| Json.FalsyValues | src/compare.js:15-51 | the values that convert to false are null, false, zero and the empty text |
| Json.EscapeLengths | src/integrity.js:61-63 | in a printed string seven characters have an escape of two characters, the other control characters one of six, and the rest stand for themselves |
| Json.StableIsStringifyCanon | src/compare.js:6-10 | the stable printer is JSON.stringify after ordering every object's members |
| Json.StableDecidesMeaning | src/compare.js:6-10 | two values have the same stable text exactly when they mean the same, whatever their key orders |
| Sorting.SortDecidesMultiset | src/compare.js:9 | sorting by UTF-16 code units forgets the order of a list and nothing else |
| Sorting.OrderIsCodeUnits | src/compare.js:9 | the order of the sort is the lexicographic order of UTF-16 code units |
| Compare.StripMeans | src/compare.js:14 | what is removed from an error text is the white space, wherever it stands, and nothing else |
| Compare.CustomErrorsAgreeExactly | src/compare.js:12-19 | the RPC form and any spacing of the runner's text of a custom error meet exactly when index and code agree |
| Compare.CustomErrorAsPrinted | src/compare.js:12-19 | the RPC form meets `InstructionError(i, Custom(c))` as the runner prints it exactly when index and code agree |
| Compare.NamedErrorsAgreeExactly | src/compare.js:12-20 | named instruction errors, as RPC values and as any spacing of the runner's text, meet exactly when the index agrees and the names do up to white space |
| Compare.NamedErrorAsPrinted | src/compare.js:12-20 | the RPC form meets `InstructionError(i, Name)` as the runner prints it exactly when index and name agree |
| Compare.NamedMeetsCustomExactly | src/compare.js:16-20 | a named error is taken for a custom one exactly when its name spells that custom error out |
| Compare.RentErrorsAgreeExactly | src/compare.js:22-24 | the two forms of a rent error meet exactly when the account index agrees |
| Compare.RentErrorAsPrinted | src/compare.js:22-24 | the RPC form meets `InsufficientFundsForRent { account_index: n }` as the runner prints it exactly when the index agrees |
| Compare.OtherErrorsMeetOnlyJson | src/compare.js:25 | any other error object meets a text exactly when that is its own JSON up to white space, never the runner's form |
| Compare.StructuredErrorsMeetOnlyJson | src/compare.js:16-20 | an instruction error with an object detail other than Custom meets a text exactly when index and detail's JSON agree, never the runner's form |
| Compare.OtherErrorsFail | src/compare.js:99-119 | such an error makes a comparison with a runner's text FAILED, whatever else agrees |
| Compare.DuplicateInstructionFails | src/compare.js:12-26 | one such pair: the same failure as node and runner write it |
| Compare.NoErrorMeetsOnlyNull | src/compare.js:13 | a missing error has the canonical form of no other value |
| Compare.CanonicalErrorThrows | src/compare.js:15-16 | the canonical form throws exactly on an InstructionError that is neither a list nor a text |
| Compare.ListText | src/compare.js:16-20 | a list in the place of an index or code prints as its items joined by commas, null items being empty |
| Compare.OddInstructionErrors | src/compare.js:16-20 | instruction errors without index, without detail or given as a text meet the texts with `undefined`, `null` or the first two characters |
| Compare.OddIndices | src/compare.js:16-20 | an object, a boolean or a text in the place of an index prints as a template literal prints it |
| Compare.ReturnDataAgreesExactly | src/compare.js:46-52 | the RPC and runner shapes of return data compare equal exactly for the same program and data |
| Compare.ReturnDataShapes | src/compare.js:46-52 | `program_id`, data as text, as text with encoding or as base 64, and empty return data all come to one shape |
| Compare.StateChecks | src/compare.js:54-75 | all balance and token checks are exact exactly when every writable account and token balance ended as recorded, a missing account counting as empty |
| Compare.ChecksFollowRoles | src/compare.js:54-62 | the balance checks follow the writable roles, one each and in their order |
| Compare.ChecksReport | src/compare.js:54-75 | what a check reports beside its verdict; a missing account counts as holding an expected zero |
| Compare.LastRoleCounts | src/compare.js:64-66 | of several roles with one index the last one names the account of a token check |
| Compare.ChecksDependOnCompared | src/compare.js:54-75 | both check lists depend only on writable and token accounts |
| Compare.PermutedAccounts | src/compare.js:54-75 | reordering post-accounts with distinct addresses changes nothing compared |
| Compare.ExtraAccounts | src/compare.js:54-75 | adding accounts nobody compares, anywhere, changes nothing compared |
| Compare.VerdictDependsOnCompared | src/compare.js:111-125 | the final status depends on post-accounts only through the compared ones |
| Compare.Classify | src/compare.js:118-125 | the status assignments, with the eligibility override last, compute the status ladder, whose rungs the four rows on verdicts pin |
| Compare.CompareReplay | src/compare.js:86-125 | the measurement and classification steps compute the verdict, or fail on an error value that cannot be taken apart |
| Compare.ExactMeans | src/compare.js:86-125 | EXACT exactly when neither side is UNSUPPORTED and all eight dimensions agree; errors in canonical form (the rows above say what that means for every object and text), the other seven on the compared data itself |
| Compare.HighFidelityMeans | src/compare.js:118-125 | HIGH_FIDELITY exactly when it is not EXACT, neither side is UNSUPPORTED, result and error agree, an edit of at most 5% of all lines exists, compute units are within 1% where both are counted and the original is not zero, and state and inner instructions agree |
| Compare.OtherVerdictsMean | src/compare.js:99-125 | FAILED exactly when result or error differ, UNSUPPORTED exactly for a refusal or an ineligible bundle with equal result and error, and an error exactly when one side's error cannot be taken apart; the rest is PARTIAL |
| Compare.MissingIsEmpty | src/compare.js:103-115 | missing logs are no lines, and missing inner instructions an empty list |
| Compare.PassingMeans | src/compare.js:119-125 | EXACT or HIGH_FIDELITY entails equal result, error, compared state and inner instructions, a log within 5% and compute units within 1% where both are counted and the original is not zero |
| Compare.ExactMeetsHighFidelity | src/compare.js:120-121 | measurements that earn EXACT satisfy every HIGH_FIDELITY condition |
| Compare.StatusMonotone | src/compare.js:118-125 | with result and error fixed, improving any measurement never lowers the status |
| Compare.ComputeCloseMeans | src/compare.js:107-121 | the compute-unit clause is the 1% bound exactly where both counts exist and the original is not zero |
| Compare.DifferencePercentMeans | src/compare.js:107-109 | the percentage times the original is a hundred times the difference, and there is one exactly where the original is not zero and both are counted |
| Compare.ZeroOriginalIsUnbounded | src/compare.js:107-121 | with an original count of zero any consumption is HIGH_FIDELITY |
| Transaction.ProgramOfExactly | src/inspect.js:26-27 | an instruction runs the id it names, or else the key at its index, or nothing |
| Transaction.ProgramIds | src/inspect.js:23-36 | the nested loops collect the programs of outer and inner instructions, once each, in order of appearance |
| Transaction.ProgramsMembers | src/inspect.js:23-36 | the collected ids are exactly the programs some instruction resolves to |
| Transaction.ProgramsInOrder | src/inspect.js:23-36 | no program is listed twice and they come in the order of their first use |
| Transaction.InvokedExactly | src/inspect.js:25-34 | the instructions looked at are the outer ones and those of every inner group |
| Transaction.RolesMean | src/inspect.js:38-58 | each key's role by its position in the message: who signs, which keys are writable, where the key came from |
| Transaction.SystemClassExactly | src/transaction-class.js:12-63 | a System class exactly when only System and ComputeBudget run at any depth and some outer System instruction decodes to data beginning 2,0,0,0, with no undecodable System instruction before it; the recorded error tells the two apart |
| Transaction.SystemClassSound | src/transaction-class.js:52-63 | in particular a System class means an outer instruction of the System program whose data begins 2,0,0,0 |
| Transaction.SplClassExactly | src/transaction-class.js:19-50 | the SPL class with given details exactly for the successful transactions that run Token and ComputeBudget only, whose one Token instruction is a Transfer or TransferChecked of those accounts, with balances, owner, mint and signer that fit |
| Transaction.DetailsExactly | src/transaction-class.js:52-69 | the details of a transfer go with the SPL class and with no other |
| Transaction.ClassifyThrows | src/transaction-class.js:13-29 | classification throws exactly on data that is no base-58 text, where it gets to it: in a System instruction before any System transfer, or in the lone Token instruction of what could be an SPL transfer |
| Transaction.SplClassSound | src/transaction-class.js:19-50 | the SPL class means no inner instructions and only Token and ComputeBudget; exactly one Token instruction runs if and only if every one that runs is resolved by the static keys, which holds wherever only lookup tables load addresses |
| Transaction.SplTransferIsAuthorised | src/transaction-class.js:19-50 | a transaction classified as SPL transfer has one Token instruction under its static keys, a Transfer or TransferChecked whose account list is the recorded details; the authority is a signing static key that owns the source, both ends hold one mint, not wrapped SOL, and a checked transfer names it and its decimals |
| Provenance.ClassicTokenAccount | src/provenance.js:17-24 | the in-place writes build the 165-byte layout, or fail on an unreadable mint, owner or amount |
| Provenance.DecimalParses | src/provenance.js:22 | `BigInt`, with its signs, radix prefixes and blanks, reads every plain decimal as what it says |
| Provenance.BigIntForms | src/provenance.js:22 | between white space `BigInt` reads nothing as zero, `0x`, `0o` and `0b` numerals, and decimals with or without a sign |
| Provenance.RadixMeans | src/provenance.js:22 | digits of a radix are read as the positional numeral they write |
| Provenance.DigitsAre | src/provenance.js:22 | digits are 0 to 9 and a to f in either case, each with its value |
| Provenance.ClassicMintAccount | src/provenance.js:26-31 | the in-place writes build the 82-byte layout |
| Provenance.TokenAccountReadsBack | src/provenance.js:17-24 | mint and owner read back under base 58, the amount under the comparator's offset-64 read, byte 108 is 1 and the rest zero |
| Provenance.TokenDataAt | src/provenance.js:17-24 | every byte of the layout for any lengths of mint and owner, later fields overwriting earlier ones |
| Provenance.TokenAccountFails | src/provenance.js:17-24 | a token account can be made exactly when mint and owner decode and the amount is read as a number below 2^64 |
| Provenance.ComparatorReadsFixture | src/compare.js:64-75 | an untouched synthesised account passes the token check exactly for an unchanged amount |
| Provenance.ProvenanceExactly | src/provenance.js:53-126 | which provenance an account gets: INFERRED exactly for source, destination and mint of an SPL transfer, UNKNOWN for the absent accounts that are neither its idle authority nor read-only with a zero balance, CURRENT_ONLY for the observed ones that are more than an empty System account, PROVEN for the rest; and which of them carry a fixture |
| Provenance.SplFixturesExactly | src/provenance.js:65-87 | source and destination are built from their own balance, the mint from the source's decimals |
| Provenance.SourceNames | src/provenance.js:56-126 | the source recorded beside each provenance |
| Provenance.ObservationCannotShapeFixture | src/provenance.js:33-127 | two captures that saw different accounts agree on lamports, data and owner of any fixture both mark for replay, and lamports are the pre-balance |
| Provenance.ExecutableFlagIsObserved | src/provenance.js:33-40 | the executable flag is the one part of a fixture an observation can change |
| Provenance.MintFixtureMatchesInstruction | src/provenance.js:77-87 | the mint fixture of a checked transfer carries the decimals of the instruction and the initialised flag, and is otherwise blank |
| Provenance.SplDetailsFound | src/transaction-class.js:33-49 | after SPL classification the source and destination balances are present, and the mint index exactly in the checked form |
| Provenance.SplDerivationSucceeds | src/provenance.js:55-95 | after SPL classification no lookup fails, and every role derives exactly when the source and destination balances it needs are readable |
| Provenance.SummarizeProvenance | src/provenance.js:129-133 | the counters count each class, and together every entry |
| Provenance.SummaryCounts | src/provenance.js:129-133 | each counter is the number of entries with its provenance |
| Eligibility.EvaluateEligibility | src/eligibility.js:14-39 | reasons come in their order, and the status is SUPPORTED exactly when nothing speaks against the bundle |
| Eligibility.ReasonsExactly | src/eligibility.js:14-39 | each reason is given exactly when it applies, with the names it should carry; an upgradeable program is one whose loader says so |
| Eligibility.AccountsNamed | src/eligibility.js:22-26 | the accounts a reason names are the relevant CURRENT_ONLY and UNKNOWN ones, in their order |
| Eligibility.ProgramsNamed | src/eligibility.js:27-30 | the programs a reason names are those captured with an executable outside the runtime, in their order |
| Eligibility.PlanCapture | src/bundle.js:57-85 | the guards in their order, then classification, one derivation per role, and eligibility |
| Eligibility.PlannedExactly | src/bundle.js:57-85 | planning succeeds exactly when the signature decodes to 64 bytes and is the metadata's, every account and program key decodes to 32, the class can be told and every account derived |
| Eligibility.SupportedExactly | src/bundle.js:70-85 | SUPPORTED exactly for an allowlisted class, no lookups, no CURRENT_ONLY or UNKNOWN count and no executable outside the runtime; the four counts cover all roles |
| Eligibility.SupportedWritable | src/provenance.js:53-126 | in a SUPPORTED plan a writable account without a fixture is a runtime program or the absent, zero-balance authority of an SPL transfer |
| Eligibility.SupportedPlansLoadSameState | src/bundle.js:71-89 | two SUPPORTED plans of one transaction load the same state for every account, whatever was observed |
| Eligibility.LoadedLamportsAreRecorded | src/provenance.js:55-127 | every fixture marked for replay carries the recorded pre-balance |
| Eligibility.SupportedRunsOnlyRuntime | src/bundle.js:70-85 | a SUPPORTED plan's transaction runs only System and ComputeBudget, or only Token and ComputeBudget without inner instructions |
| Eligibility.UnreadableMintStopsPlanning | src/bundle.js:70-78 | a response with an unreadable mint that passes every guard of the SPL class and makes planning throw |
| Logs.LogsComeBackAs | src/bundle.js:95-96 | any log comes back as the non-blank pieces of its lines between line breaks, in order, the last line trimmed at its end |
| Logs.LogsSurviveExactly | src/bundle.js:95-96 | the logs written by src/inspect.js:192 read back exactly when lines are non-empty, unbroken and the last has no trailing white space |
| Logs.BrokenLineIsSplit | src/bundle.js:95-96 | one line with a line break comes back as two |
| Integrity.NormalizeExactly | src/integrity.js:20-30 | a path is accepted exactly when, its backslashes turned round, it is proper names joined by slashes and does not begin like a drive |
| Integrity.ResolveAppend | src/integrity.js:32-40 | resolving goes part by part |
| Integrity.NormalizedStaysInside | src/integrity.js:20-40 | a normalised path resolves to the root plus its parts, so the escape test never rejects one |
| Integrity.NormalizedAgain | src/integrity.js:20-30 | normalising is idempotent and changes exactly the paths with a backslash |
| Integrity.WalkInto | src/integrity.js:42-54 | the recursion pushes every regular file in readdir order, and fails exactly where a link or special file lies below |
| Integrity.WalkLocates | src/integrity.js:42-54 | every walked file is found again under its own path |
| Integrity.BuildIntegrityIndex | src/integrity.js:65-72 | the index lists the sorted non-derived paths with their hashes |
| Integrity.VerifyIntegrity | src/integrity.js:74-107 | succeeds exactly when header, file set, sizes, total and every hash hold, and reports count and total |
| Integrity.IntegrityExactly | src/integrity.js:74-107 | verification succeeds exactly when the tree holds only directories and files, the record is one, its index lists exactly the files that are not derived, under portable paths and with their hashes, and there are at most 1000 of them, of 25 MiB each and 100 MiB in all |
| Integrity.VerifiedFilesAreIndexed | src/integrity.js:74-107 | after success the non-derived files are exactly the indexed paths, with the indexed hashes |
| Integrity.FreshIndexVerifies | src/integrity.js:65-107 | a fresh index verifies exactly when walk succeeds, every path is portable and the limits hold |
| Integrity.TwinsFailTheirOwnIndex | src/integrity.js:65-107 | a two-file bundle with a backslash in a name is indexed and then rejected by its own index |
| Integrity.BytesAfterWrite | src/io.js:9-12 | after a write, missing directories created, the path holds the new bytes and every other file what it held |
| Integrity.ContentIsBytes | src/integrity.js:42-72 | the indexed view holds exactly the regular files that are not derived outputs, with their bytes |
| Integrity.WriteChangesOneFile | src/io.js:9-12 | a write changes the view in the one file written, and for a derived output not at all; links and special files stay as they were |
| Integrity.DerivedOutputsAreInvisible | src/integrity.js:9-83 | writing any of the three derived outputs leaves the verified view and every other file unchanged |
| Bundle.ValidateBundle | src/bundle-validation.js:23-71 | the guards in their order, each with its own rejection |
| Bundle.ValidExactly | src/bundle-validation.js:23-71 | validation returns a manifest exactly when the six files are there, the manifest names version, signature, class and eligibility, its core hash and index hold, transaction and original execution carry its signature, provenance lists accounts, and, strictly, the pins are met |
| Bundle.RejectionsMean | src/bundle-validation.js:23-71 | what each rejection code says of the bundle |
| Bundle.PinsExactly | src/eligibility.js:41-48 | the pins are met by these three texts and no others, and not without a runtime record |
| Bundle.CoreHashCommits | src/bundle-validation.js:48-55 | under an injective hash, valid bundles that record one core hash agree in every manifest field and in the bytes of every file but the derived outputs |
| Bundle.CoreHashFixesRequiredFiles | src/bundle-validation.js:14-53 | under an injective hash, the core hash fixes every required file besides the manifest |
| Bundle.SealBundle | src/bundle.js:133-168 | indexing, hashing and writing the manifest, in that order |
| Bundle.SealIsRecomputed | src/bundle.js:166-167 | the hash recorded at sealing is the one validation recomputes |
| Bundle.ManifestCoreReads | src/bundle.js:133-156 | the assembled manifest carries the fields validation reads |
| Bundle.ManifestFields | src/bundle.js:133-156 | every field of an assembled manifest reads as what was put there |
| Bundle.SealedWellFormed | src/bundle.js:133-168 | the sealed manifest repeats no key, as a manifest must to read back |
| Bundle.SealedBundleValidates | src/bundle.js:133-168 | a sealed bundle validates exactly when its directory is acceptable to its own index, the manifest fits, and, where the runtime is asked for, the core carries the pins |
| Create.CreateBundle | src/bundle.js:46-168 | planning, directories, account files, program copies, evidence and seal, failing where one of them does |
| Create.CreatedBytes | src/bundle.js:66-168 | a created bundle holds at every path what was last written there, else what the directory held before |
| Create.CreatedEvidence | src/bundle.js:95-161 | the six evidence files of a created bundle are the capture's |
| Create.CreatedAccounts | src/bundle.js:87-89 | under accounts/ it holds the fixture last written for a key, else what was there before |
| Create.CreatedPrograms | src/bundle.js:90-93 | under programs/ it holds the executable last captured for a program |
| Create.CopyingSucceeds | src/bundle.js:90-93 | programs can be copied exactly when every executable named is there |
| CreateValid.AcceptsAfterWrite | src/io.js:9-12 | a write leaves open every path that neither extends the written one nor is extended by it |
| CreateValid.CreationSucceeds | src/bundle.js:46-168 | over a directory with at most old account files, createBundle succeeds exactly when the plan can be made and the executables copied |
| CreateValid.StagedValidates | src/bundle-validation.js:23-71 | the bundle sealed over the staged files validates exactly within the limits and, strictly, with the pins |
| CreateValid.CreatedBundleValidates | src/bundle-validation.js:23-71 | what createBundle leaves there validates, pins included, exactly when files and manifest keep within the limits |
| Workflow.Workspace.ReplayBundle | src/replay.js:8-41 | the refusal branches and the backend call as one step on the directory |
| Workflow.ReplayOutcomeExactly | src/replay.js:8-41 | a refusal, a result and an error of a replay, each with its exact condition and what it leaves in the directory: a result needs a backend that finished, wrote what it had and printed JSON |
| Workflow.Workspace.CompareReplay | src/compare.js:77-149 | validation, reading, verdict and writing comparison.json as one step |
| Workflow.JudgedExactly | src/compare.js:83 | a replay is judged exactly when its source names a file of at most 10 MiB that reads as one |
| Workflow.Workspace.AssertBundle | src/assert.js:9-32 | validation, optional replay, comparison, the acceptance gate and the reported texts as one step |
| Workflow.WriteKeepsBundleExactly | src/integrity.js:9-83 | a write into a bundle keeps it exactly when it goes to replay.json or comparison.json or changes no byte |
| Workflow.ChangedEvidenceIsInvalid | src/integrity.js:74-107 | other bytes in any file of the evidence make a valid bundle invalid, under an injective hash |
| Workflow.CompareIntoEvidence | src/compare.js:77-149 | comparing into a file of the evidence gives the same verdict and leaves a valid bundle only if the file held that report before |
| Example.ComparedIntoEvidence | src/compare.js:77-149 | a valid bundle, its EXACT comparison written into expected.json, and no valid bundle after it |
| Workflow.RunKeepsBundle | src/replay.js:8-41 | whatever the outputs, a run keeps the bundle, leaves something that does not validate, or, for a bundle the backend may be started on, keeps every file but the manifest |
| Workflow.HarmlessRunKeepsBundle | src/integrity.js:9-81 | runs with outputs outside the bundle, or to replay.json or comparison.json, keep the bundle, whatever the hash |
| Workflow.IneligibleRunsIgnoreBackend | src/replay.js:10-32 | over any run on a bundle that is not valid, pinned and eligible, nothing a backend would have done leaves a trace |
| Workflow.SameBundleSameValidation | src/bundle-validation.js:23-71 | validation depends on nothing but the indexed view and the manifest |
| Workflow.AssertPassesExactly | src/assert.js:9-32 | an assertion under the default accept list passes exactly when the bundle validates with its pins, its own replay (if any) ends well in a directory that validates, and the judged replay earns EXACT or HIGH_FIDELITY against the evidence held before; the two results it then reports are the same text |
| Workflow.AssertGate | src/assert.js:18-22 | for any accept list, an assertion ends in the compared status, passing exactly when the list names it |
| Workflow.AcceptsListed | src/assert.js:19-20 | an accept list of names joined by commas accepts exactly those |
| Workflow.StatusNames | src/assert.js:19-20 | each status has its own name, by which an accept list knows it |
| Workflow.PassedReports | src/assert.js:23-31 | a passing assertion reports SUCCESS or the canonical error of the recorded and of the judged execution |
| Workflow.AssertWithoutRun | src/assert.js:12-17 | where the named replay is there and no new run is asked for, the backend has no part in an assertion and that file is judged |
| Workflow.AssertRunsWhereMissing | src/assert.js:12-17 | where it is not, whatever path named it, a new run takes place and the bundle's replay.json is judged |
| Workflow.FreshPassNeedsResult | src/assert.js:12-17 | an assertion that runs a replay passes under the default accept list only after a backend that finished and printed a result |
| Workflow.PassingAssertionOverRuns | src/assert.js:9-21 | over every run, outputs anywhere, an assertion under the default accept list passes only for a valid, eligible, pinned bundle and a replay that agrees with its original evidence on result, error, balances, tokens and inner instructions, with its log within 5% and its compute units within 1% where both are counted |
| Workflow.CompareUnsupportedExactly | src/compare.js:77-125 | a comparison of a valid bundle reports UNSUPPORTED exactly when the replay is a refusal, or the bundle is ineligible and result and error agree; the runtime pins have no part in it |
| Workflow.UnpinnedEarnsExact | src/compare.js:77-125 | a valid bundle with other pins earns EXACT for an agreeing replay, while replay refuses it and no assertion passes |
| Example.OtherPinsEarnExact | src/compare.js:77-125 | such a bundle |
| Workflow.FreshJudgesNewReplay | src/assert.js:12-17 | a fresh assertion judges what its backend wrote, whatever that is, if and only if the output is the bundle's replay.json and can be written |
| Workflow.RedirectedFreshRepeatsOldVerdict | src/assert.js:12-17 | with its output redirected, a fresh assertion ends as one that runs nothing |
| Workflow.FreshIsAssertOnReplay | src/assert.js:12-17 | with its output in place, a fresh assertion is an assertion on what was written |
| Example.RedirectedFailurePasses | src/assert.js:12-17 | one execution that fails: redirected, the assertion passes with the old EXACT; in place, it is a regression |
| EndToEnd.CreatedManifestWellFormed | src/bundle.js:133-168 | the manifest of a created bundle repeats no key |
| EndToEnd.CreatedEligibility | src/bundle.js:133-168 | a created bundle that validates calls itself eligible exactly when its plan was SUPPORTED |
| EndToEnd.CreatedManifestReads | src/bundle.js:133-156 | the manifest of a created bundle names the capture's signature, the class of its plan and whether the plan was SUPPORTED |
| EndToEnd.FixturesSurvive | crates/repro-replay/src/main.rs:86-100 | after any run that leaves a valid bundle, the runner finds the planned fixture of every account, and loads nothing else exactly when the directory held no loadable file of another name before |
| EndToEnd.StaleFixtureStays | src/bundle.js:66-89 | an account file left in the output directory is still there after bundling and any run |
| Example.StaleFixtureIsLoaded | src/bundle.js:66-89 | such a file in a bundle that validates, loadable and no fixture |
| EndToEnd.StateHoldsIsEndsAlike | src/compare.js:54-75 | the comparator's checks on the recorded roles hold exactly when every writable position of the message ends with its recorded balance and every recorded token balance is found at its key |
| EndToEnd.PassingAssertionMeansSupported | src/assert.js:9-21 | a passing assertion on a created bundle, after any run, means a SUPPORTED plan, a replay that agrees with the captured transaction (result, error, the recorded balance of every writable position of the message, token balances, inner instructions, log lines, compute units), and planned fixtures that start from the recorded balances |
| EndToEnd.ExactOnCreatedBundle | src/compare.js:77-125 | comparing a replay with a created bundle, after any run with harmless outputs, reports EXACT if and only if the plan was SUPPORTED and the replay agrees with the capture on result, error, end state, log, compute units, inner instructions and return data |
| Example.PassingExample | src/assert.js:9-21 | a capture, host, tool and writer that meet every assumption of that theorem, and an assertion that passes on their bundle |

## Left out

- Integrity.IndexKeys: an index whose `files` is a JSON string has no keys here; its entries would be single characters, never a digest.
- Workflow.Workspace.AssertBundle: a replay path that names the bundle's own comparison.json is read again as it was before the comparison was written.
- The Rust runner and LiteSVM: a backend run is an arbitrary output, none, a failure or a partial output.
- Whether `rawBase64`, which the runner executes, is the transaction that was classified; the source does not check it either.
- Runs consist of replay, compare and assert and of overwrites of replay.json; other edits by hand and bundling into the directory again are not steps.
- RPC, providers, discovery, the command line and formatted text.
- File-system races: each command sees one tree; symbolic links and special files are tree entries.
- SHA-256, UTF-8, base64 and JSON file syntax: parameters; injectivity or inversion is a stated requirement where used, account data are the decoded bytes.
- Typed fields: records have the JavaScript types the capture writes; values of other types in `logs`, `postAccounts` or balances are not modelled, error, return data and inner instructions are full JSON values.
- JSON numbers are integers and ratios exact; floating-point rounding and integers above 2^53 are not modelled.
- Strings are sequences of Unicode scalar values; lone surrogates do not occur.
- Property order of integer-like keys and special keys such as `__proto__`.
- `decodeBase58` of a non-string value, which is the empty buffer, except for a missing token owner.
- Evidence and limitation texts of provenance entries, and the README text of a bundle: the texts of written files are parameters, of which the comparison reads back the two it needs.
- Parsed account keys (`{ pubkey }` objects) and `staticAccountKeys`: account keys are strings, as the `json` encoding returns them.
- Windows paths other than the drive test of `normalizeBundlePath`, and a bundle at the file-system root.
