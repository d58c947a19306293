# The keystone integrity chain

`scripts/keystone-validate.js` guards the critical documents of the project. It computes a canonical hash of
`contract.yaml`, of six requirement documents, of every Markdown file in `.opencode/rules/` and `.opencode/agents/`,
and of `AGENTS.md` and `PROJECT_REFERENCE.md`; it compares these hashes with those stored in `machine.json`; and it
turns the comparison into an exit code. `.opencode/scripts/integrity-chain-bundle.sh` writes the stored hashes, using
the hash command of `.opencode/scripts/mcp-tools/keystone-validate.ts`. This project models the three together.

| file | content |
|---|---|
| `Lines.dfy`, `Header.dfy`, `Resolution.dfy`, `FileHash.dfy` | split and join, the header pattern, path resolution, canonical text, the two hashes |
| `StringOrder.dfy` | the default sort order (UTF-16 code units) and sorting in place |
| `Tables.dfy` | insertion-ordered tables: the chain `Map` and the stored object |
| `Chain.dfy`, `ChainProperties.dfy` | the snapshot, the loops that build the chain, what the chain covers |
| `Bundle.dfy` | the machine file, the two reconciliation loops, their counters and the verdict |
| `BundleProperties.dfy`, `ReportCounts.dfy` | what a report means, how it is ordered and counted |
| `Edits.dfy`, `Removal.dfy`, `RemovalLocality.dfy` | how editing, deleting and adding a file changes verdict and results |
| `Baseline.dfy` | a baseline taken at one snapshot, validated at another |
| `Cli.dfy` | the contract check, the outcome and the exit code of every mode |
| `History.dfy` | whole runs of writes, deletions and re-bundlings, the machine file included |
| `Specification.dfy` | the rules of the validator once more, on characters, literal paths and stored entries, without any definition of the model |
| `Conformance.dfy`, `Commands.dfy` | the model, which follows the code, meets this specification: headers, paths, hashes, chain, statuses and the outcome of every command |
| `Examples.dfy` | concrete projects on which the validator does less than its documentation says |

**How the world is represented.** A `Snapshot` holds the files and the directories by path and what reading the two
document directories returns, in any order. `Consistent` is what a file system guarantees: names without duplicates or
slashes, a Markdown file is listed exactly when it exists, and no path is both a file and a directory; only the theorems
that speak about files rather than listings require it. The machine file is one of the files; what `JSON.parse` makes of
a text is a parameter `json`. SHA-256 is a parameter `sha` about which nothing is assumed. The few lemmas that need more
say so: its 64-digit form, or the absence of a collision between the texts at hand. Stored hashes are a sequence of
entries with distinct keys, so every theorem holds for every stored order. Texts and names are sequences of Unicode
scalar values; the sort compares their UTF-16 encoding.

**Form.** The loops of the source are methods (`HashTargets`, `SetHashes`, `SortInPlace`, `CheckChain`, `CheckStale`,
`ValidateBundle`), each proved equal to a function; the theorems are about these functions. `Baseline.ComputeBaseline`
is the bundler's counterpart of `BuildIntegrityChain` (.opencode/scripts/integrity-chain-bundle.sh:77-124): the same
paths with the baseline tool's hash. The sorting algorithm itself belongs to the JavaScript engine;
`SortedPermutationUnique` shows that any other would give the same list.

**Two descriptions.** The model follows the code, with its constants and helper functions. `Specification.dfy` imports
of the model only the cut at the first line and the type of a stored entry; header lines, YAML names, the nine paths,
document names, statuses, validity and the command lines are written out there. The theorems of `Conformance.dfy` and
`Commands.dfy` connect the two for every input, up to `ExitZeroExactly`, which says when a command exits with 0.

## Findings

- **Re-bundling does not always repair the chain.** The report tells its reader to run `integrity-chain-bundle.sh`
  (scripts/keystone-validate.js:211, :219). The baseline tool strips a header line from every kind of file
  (.opencode/scripts/mcp-tools/keystone-validate.ts:124-128), the validator from YAML files only
  (scripts/keystone-validate.js:61-64). `BundleThenValidate` gives the exact condition under which a fresh baseline
  validates, `RebundlingCannotRepair` a project where it never does.
- **One file, two hashes.** The file is found by the resolved path, but whether it is YAML is read off the path as
  written (scripts/keystone-validate.js:55, :61). `--hash contract.yaml/.` hashes the header as content (`SecondSpelling`).
  So recording a printed hash in the header changes no later command except under such a spelling, and there exactly
  when the two whole texts hash differently (`RecordingThePrintedHash`). Covered paths always resolve to themselves
  (`TrackedIsItself`), so the chain is not concerned.
- **Uncaught exceptions.** `--hash` on a directory passes the existence test and then throws (`HashOfProjectCrashes`); so
  does the chain on a covered path that is a directory, and on a regular file at `.opencode/rules` or `.opencode/agents`
  (scripts/keystone-validate.js:93-94, :103-104). All exit with 1 (`ExitZero`).
- **"All hashes match" says more than the verdict checks** (scripts/keystone-validate.js:188, :217-218). `SummaryClaim`:
  it is true exactly when a non-empty hash is stored for every covered path. `FullMatch` says when nothing at all is left
  open. `EmptyStorePasses`: an empty object of stored hashes passes.
- **Deletion is not always detected.** `DeletionDetected`: a deleted rule or agent file goes unnoticed exactly when no
  hash was stored for it; `UnnoticedDeletion` is such a project.
- **Canonicalisation is not idempotent** on two stacked header lines: `IdempotentUnlessStacked`, `StackedHeadersExample`.
- **The contract check alone accepts an absent `contract.yaml`** exactly when the stored hash reads `MISSING`
  (`ContractAloneAcceptsMissing`, `ContractCheckAcceptsNothing`); the chain check behind it does not.
- The parameter `reportOnly` of `validateBundle` is documented (scripts/keystone-validate.js:138) but never read; the
  model has no such parameter. The line labelled MISMATCH in the report counts stale entries too.

## Model

| member | source | states |
|---|---|---|
| Lines.JoinSplit | scripts/keystone-validate.js:59-67 | splitting any text at newlines and joining the pieces restores it, carriage returns and trailing newlines included |
| Lines.SplitIsTheOnlyCut | scripts/keystone-validate.js:59 | a list of pieces is the split of a text exactly when it is non-empty, its pieces lack the separator, and it joins to the text |
| Lines.DropFirstLine | scripts/keystone-validate.js:63-67 | dropping the first line of the array and joining gives the text after the first newline, or nothing |
| Conformance.HeaderOnCharacters | scripts/keystone-validate.js:64 | the test accepts a line exactly when it is `#`, any number of characters of the class `\s`, given by code point, the 22 characters `x-keystone-state-hash:` and any rest |
| Conformance.HeadersAccepted | scripts/keystone-validate.js:64 | the tag after a blank, after a tab, and right after the number sign |
| Conformance.HeadersRejected | scripts/keystone-validate.js:64 | other comments, such as `# x-api-version: 1`, and an indented header are no headers |
| Header.DecompositionUnique | scripts/keystone-validate.js:64 | a line has at most one decomposition into `#`, white space, tag and rest |
| Resolution.LocateIsFaithful | scripts/keystone-validate.js:55 | two spellings name the same place in the store exactly when they resolve to the same absolute path |
| Resolution.ResolveSegment | scripts/keystone-validate.js:55 | one segment from the project directory: empty and `.` stay, `..` goes up, any other goes down |
| Resolution.ResolveNext | scripts/keystone-validate.js:55 | the same for one more segment after any path |
| Resolution.ResolveAbsolute | scripts/keystone-validate.js:55 | a leading slash starts at the root of the file system, wherever the project lies |
| Resolution.DownAndUp | scripts/keystone-validate.js:55 | `dir/../name` is `name` |
| Resolution.AbsoluteSpelling | scripts/keystone-validate.js:55 | the absolute path of a file of the project names that file |
| ChainProperties.TrackedIsItself | scripts/keystone-validate.js:55 | every tracked path resolves to itself, wherever the project lies |
| FileHash.YamlIsASuffixTest | scripts/keystone-validate.js:61-62 | a path counts as YAML exactly when its base name ends, in any case, in `.yaml` or `.yml` after at least one more character |
| Conformance.YamlOnCharacters | scripts/keystone-validate.js:61-62 | the same on characters for every path: the base name lies between the last slash and the trailing ones, letters in either case |
| Conformance.UpperCaseYaml | scripts/keystone-validate.js:61 | `X.YML` is YAML, for any stem |
| FileHash.CanonicalTextIs | scripts/keystone-validate.js:59-67 | the line-array computation equals: the text after the first line if the file may be stripped and has a header, else the text |
| FileHash.HeaderIsInvisible | scripts/keystone-validate.js:60-66 | any header line on top of any body canonicalises to the body; a header without newline to the empty text |
| FileHash.StampCertifiesItself | scripts/keystone-validate.js:49-70 | a text that records its own hash in its header still has that hash, whatever the text was |
| FileHash.IdempotentUnlessStacked | scripts/keystone-validate.js:64-65 | stripping twice equals stripping once exactly when no two header lines are stacked |
| FileHash.StackedHeadersExample | scripts/keystone-validate.js:64-65 | a text on which stripping twice differs from stripping once |
| FileHash.MissingIffAbsent | scripts/keystone-validate.js:56-58 | the hash reads MISSING exactly when the file is absent, and is never empty |
| FileHash.HashFormOrMissing | scripts/keystone-validate.js:68-69 | the hash is `sha256-` and 64 hexadecimal digits exactly when the file exists |
| Conformance.WrittenHash | scripts/keystone-validate.js:54-70 | for every path as written: `sha256-` and the digest of the file it resolves to, without the first line exactly if that is a header and the written path is YAML; MISSING without a file |
| StringOrder.PrecedesByRank | scripts/keystone-validate.js:95 | the default sort order: a proper prefix comes first, else the first differing characters decide, surrogate pairs standing between U+D7FF and U+E000 |
| StringOrder.PrecedesTrichotomy | scripts/keystone-validate.js:95 | that order is total and distinct names never tie |
| StringOrder.SortedPermutationUnique | scripts/keystone-validate.js:95 | a listing has one sorted permutation |
| StringOrder.SortInPlace | scripts/keystone-validate.js:95 | sorting in place leaves the sorted permutation of the old contents |
| Tables.PutLaws | scripts/keystone-validate.js:84 | `map.set` changes the look-up of its own key only, keeps every known key in its place and appends a new one |
| Chain.BuildIntegrityChain | scripts/keystone-validate.js:80-116 | the loops that filter, sort and set compute the specified table |
| Chain.FillLookup | scripts/keystone-validate.js:80-116 | for any list of paths, repeated or not, a look-up yields the hash of that file exactly for the listed paths |
| ChainProperties.TargetsDistinct | scripts/keystone-validate.js:81-115 | for duplicate-free listings no covered path repeats across the five groups |
| ChainProperties.ChainShape | scripts/keystone-validate.js:81-115 | order, ascending groups and exact size of the chain, each entry with the hash of its own file |
| ChainProperties.DocNamesIgnoreOrder | scripts/keystone-validate.js:94-95 | filtering and sorting any permutation of a listing gives the same names in the same order |
| Conformance.FixedIsNine | scripts/keystone-validate.js:36-43 | the fixed documents are nine literal paths |
| Conformance.CoveredOnCharacters | scripts/keystone-validate.js:84-113 | on a consistent snapshot the covered paths are these nine and every existing file directly in one of the two directories whose name ends in the characters `.md` |
| Conformance.DocumentsOnCharacters | scripts/keystone-validate.js:92-109 | directory by directory: a slash-free name is covered exactly when its file exists and it ends in `.md` |
| Conformance.ChainInOrder | scripts/keystone-validate.js:80-116 | the keys of the chain on literal paths: seven, the sorted rules, the sorted agents, two |
| Conformance.ChainEntries | scripts/keystone-validate.js:80-116 | the entries of the chain: the covered paths with `sha256-` and the digest of the content, where the contract alone loses a header, or MISSING |
| Conformance.BaselineEntries | scripts/keystone-validate.js:92-109 | the entries that the bundler records (.opencode/scripts/integrity-chain-bundle.sh:77-124): the same paths, every file without its header |
| Conformance.ConsistentOnCharacters | scripts/keystone-validate.js:92-109 | what the theorems on consistent snapshots assume, on characters: names without slash or duplicate, every existing document listed, no path both file and directory |
| ChainProperties.MissingOnlyFixed | scripts/keystone-validate.js:56-58 | a chain entry reads MISSING exactly for an absent fixed document |
| ChainProperties.OnlyContractIsYaml | scripts/keystone-validate.js:61-64 | of all tracked paths only `contract.yaml` can lose a header line |
| Bundle.ValidateBundle | scripts/keystone-validate.js:141-188 | both loops with their counters compute the specified report, `total` and `passed` from the counters alone |
| BundleProperties.VerdictRefinement | scripts/keystone-validate.js:161-188 | the counter verdict holds exactly when no chain entry is missing, every non-empty stored hash of a chain path matches and every stored path is in the chain |
| BundleProperties.VerdictOnPaths | scripts/keystone-validate.js:161-188 | the same in terms of files, for any list of covered paths |
| BundleProperties.FileVerdict | scripts/keystone-validate.js:141-188 | on a consistent snapshot: passed exactly when the nine fixed files exist and every stored entry names an existing tracked file and is empty or its hash |
| Commands.PassesExactly | scripts/keystone-validate.js:122-188 | on a consistent snapshot, validation passes exactly when `machine.json` exists, parses, holds stored hashes, the nine literal paths exist, every stored entry is covered and empty or right, and the directories can be listed |
| Commands.StatusExactly | scripts/keystone-validate.js:161-185 | the five statuses of a path in terms of files and stored entries |
| BundleProperties.ReportedIffDeserved | scripts/keystone-validate.js:161-185 | a path is reported with a status exactly when files and stored hashes give it that status |
| BundleProperties.ReportedFields | scripts/keystone-validate.js:164-182 | what `expected` and `actual` hold in every result |
| BundleProperties.SummaryClaim | scripts/keystone-validate.js:217-219 | of a passing report, every covered file has its own hash stored exactly when a non-empty hash is stored for every covered path |
| BundleProperties.FullMatch | scripts/keystone-validate.js:161-188 | passed with nothing untracked exactly when no covered file is missing and stored and computed tables have the same entries |
| BundleProperties.EmptyStorePasses | scripts/keystone-validate.js:143-188 | an empty object of stored hashes passes exactly when the nine fixed files exist, and then no hash is stored |
| ReportCounts.ResultsInOrder | scripts/keystone-validate.js:161-185 | chain results in chain order, then stale results in stored order, no path twice |
| ReportCounts.DeservedStatus | scripts/keystone-validate.js:163-182 | every covered or stored path has exactly one status |
| ReportCounts.CountsAreRight | scripts/keystone-validate.js:155-187 | each counter is the number of paths with that status, mismatched and stale together; they add up to the number of paths mentioned |
| ReportCounts.ReportIgnoresListingOrder | scripts/keystone-validate.js:94-107 | permuting the directory listings changes nothing in the report |
| ReportCounts.ReportIgnoresStoredOrder | scripts/keystone-validate.js:161-188 | permuting the stored hashes changes neither verdict nor counters nor the chain results, and the stale results in their order only |
| Edits.CanonicalEditIsInvisible | scripts/keystone-validate.js:122-188 | an edit that keeps the canonical text, or of a file outside the chain, leaves the whole report as it was; an edit of the machine file makes it the report for the new stored hashes |
| Edits.RestampingIsInvisible | scripts/keystone-validate.js:60-66 | any header line on the body of `contract.yaml` leaves its hash and every report as they were |
| Edits.EditIsLocal | scripts/keystone-validate.js:161-176 | editing one covered file changes at most the result at its place |
| Edits.EditMovesOneUnit | scripts/keystone-validate.js:169-188 | changing the hash of an OK file moves one unit from passed to failed, keeps the other counters and breaks the verdict |
| Removal.DeletionDetected | scripts/keystone-validate.js:163-185 | deleting a tracked file from a passing snapshot keeps it passing exactly when the file was neither fixed nor stored; else it is MISSING or STALE, and there is no report only if a directory replaced a fixed file |
| Removal.AdditionHarmless | scripts/keystone-validate.js:93-109 | adding a file: the old snapshot passed exactly when the new one does and the file is neither fixed nor stored nor the machine file; a regular file in the place of a document directory always fails |
| RemovalLocality.DocRemovalIsLocal | scripts/keystone-validate.js:93-109 | deleting a rule or agent file, or read backwards adding one, takes exactly its result out of the chain part; the stale part gains it, in stored order, exactly when a hash is stored |
| RemovalLocality.FixedRemovalIsLocal | scripts/keystone-validate.js:161-165 | deleting a fixed file changes exactly the result at its place, to MISSING |
| RemovalLocality.OneDocLessOneNameLess | scripts/keystone-validate.js:94-95 | filtering and sorting commute with taking one name out of a listing, whatever the listing orders |
| Baseline.BaselineVerdict | scripts/keystone-validate.js:141-188 | against a baseline of s0, taken with either hash, s1 passes exactly when nothing was missing at s0 and every tracked file of s0 is there with the recorded hash |
| Baseline.BaselineVerdictOnTexts | scripts/keystone-validate.js:54-70 | without collisions this is equality of canonical texts, as read for the baseline and as read by the validator |
| Baseline.HashesAgreeUnless | scripts/keystone-validate.js:60-69 | this hash and the baseline tool's (.opencode/scripts/mcp-tools/keystone-validate.ts:113-132) of a tracked file agree except for a headed file other than the contract whose stripped form hashes differently |
| Baseline.BundleThenValidate | scripts/keystone-validate.js:211-219 | re-running the bundler as the report advises: bundling and validating at once passes exactly when the fixed files exist and no such headed file does |
| Examples.RebundlingCannotRepair | scripts/keystone-validate.js:219 | a consistent project with nothing missing that fails against its own fresh baseline |
| Examples.UnnoticedDeletion | scripts/keystone-validate.js:93-99 | with `{"keystone_hashes":{}}` stored, a tracked rule file is deleted from a passing project, and it still passes |
| Examples.ContractCheckAcceptsNothing | scripts/keystone-validate.js:231-257 | a concrete absent contract that the contract check accepts, since MISSING is stored for it, and the chain check rejects, so that `--pre-commit` fails |
| Cli.PreCommitEquivalence | scripts/keystone-validate.js:301-313 | `--pre-commit` exits 0 exactly when the chain can be built and passes, and the contract has a non-empty stored hash |
| Cli.PreCommitOnFiles | scripts/keystone-validate.js:301-313 | the same on a consistent snapshot, in terms of files and stored entries |
| Commands.ContractCheckExactly | scripts/keystone-validate.js:231-257 | for every project: accepted exactly when `machine.json` parses to stored hashes that hold, under `contract.yaml`, `sha256-` and the digest of its content, or MISSING if it is absent |
| Commands.ContractEditRejected | scripts/keystone-validate.js:246-254 | `--pre-commit` rejects an edit of an accepted contract exactly when it changes the digest of the content |
| Commands.PreCommitExactly | scripts/keystone-validate.js:301-313 | the whole outcome of `--pre-commit`: contract failure without stored hashes, crash, contract failure, or the outcome of `--bundle` |
| Cli.ModeAgreement | scripts/keystone-validate.js:275-313 | the exit codes of `--bundle`, `--ci` and `--audit` always agree, and `--pre-commit` exits 0 only where they do |
| Cli.ExitZero | scripts/keystone-validate.js:263-318 | every way to exit with 0, over all argument lists and states; a thrown exception is none |
| Commands.ExitZeroExactly | scripts/keystone-validate.js:263-318 | the same on a consistent snapshot, down to characters, files and what the text of `machine.json` parses to |
| Commands.ChainWithoutHashes | scripts/keystone-validate.js:142-149 | when `machine.json` is absent, does not parse or holds no hashes, a chain mode prints an empty report and exits 1 |
| Commands.ChainWithHashes | scripts/keystone-validate.js:275-298 | with stored hashes a chain mode crashes, or prints, in the form of the mode, the report with exactly the statuses that files and stored entries give, and exits by its verdict |
| Commands.HashExactly | scripts/keystone-validate.js:268-272 | the whole outcome of `--hash` for every path: crash on a directory, the hash of the file it resolves to, MISSING without one |
| Commands.PrintedHashIsTheRightOne | scripts/keystone-validate.js:161-175 | a covered file is OK exactly when the stored hash is the one that `--hash` prints for its path |
| Commands.UsageExactly | scripts/keystone-validate.js:315-317 | the usage text exactly for every other argument list, `--hash` without a path included |
| Cli.HashOfProjectCrashes | scripts/keystone-validate.js:56-59 | `--hash .` crashes, wherever the project lies |
| Cli.RecordingThePrintedHash | scripts/keystone-validate.js:54-70 | writing its hash into the header of `contract.yaml` leaves the outcome of a command as it was, unless the command asks for its hash under a spelling that does not look like YAML and the whole texts hash differently |
| Cli.PrintedHashIsRecorded | scripts/keystone-validate.js:268-272 | the hash written there is the one that `--hash contract.yaml` prints |
| Cli.SecondSpelling | scripts/keystone-validate.js:55-61 | such a spelling exists, wherever the project lies |
| History.VerdictSinceMachine | scripts/keystone-validate.js:122-188 | in any state of any run, from whatever wrote the machine file last: passing means stored hashes then, and now the nine fixed files, every stored entry acceptable, and directories that can be listed |
| History.RunVerdict | scripts/keystone-validate.js:141-188 | after a re-bundling the verdict compares the files of that moment with the present ones, whatever happened in between |
| History.RunVerdictOnTexts | scripts/keystone-validate.js:54-70 | the same on canonical texts, without collisions |
| History.ExitCodesInRuns | scripts/keystone-validate.js:263-318 | after a re-bundling all four validating modes exit 0 exactly when everything recorded is intact and the directories can be listed |
| History.RebundleEnabled | scripts/keystone-validate.js:122-132 | a baseline can be recorded exactly when the chain can be built, the machine file exists and parses, with or without stored hashes, and a text stands for the baseline |
| History.PassingNeedsAWrite | scripts/keystone-validate.js:122-149 | the bundler only rewrites a machine file it can read (.opencode/scripts/integrity-chain-bundle.sh:144-150), so from an absent or unparsable one no run passes before the file is written by hand |

## Left out

- SHA-256 itself: a parameter; the form of its output and the absence of collisions are hypotheses of the lemmas that use them.
- File system and process calls: one immutable snapshot for each command and a returned exit code; files that change between two reads, links, and unreadable files are not modelled.
- Bundle.ValidateBundle: does not model the exceptions of a covered directory or of a file in the place of a document directory, because a report then does not exist; `Chain.CannotBuild` names them, and `Cli.Run` and `Removal.Passes` account for them.
- Directories named like a rule or agent document: `Consistent` snapshots have none, and the theorems that require consistency do not speak about them.
- UTF-8 decoding and JSON parsing: texts are sequences of characters, and what parsing a text yields is a parameter.
- Stored values that are not strings, a `keystone_hashes` that is not an object, and a machine file without `meta`, on which the bundler aborts.
- Bundler failures of a single file (the value `ERROR`), shell quoting of file names, and its `--verify` mode, which writes nothing.
- The rendered summary text with its icons and boxes; the numbers and results it shows are in the report.
- The MCP server of `.opencode/scripts/mcp-tools/keystone-validate.ts`: it starts a process and passes its output on.
- The rest of the repository: SQLite wrappers, fixtures and the framework under `.opencode/` have no part in the chain.
