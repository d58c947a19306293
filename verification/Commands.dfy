/** What every command does, against the specification on characters and literal paths. */
module Commands {
  import opened Bundle
  import opened BundleProperties
  import opened Chain
  import opened ChainProperties
  import opened Cli
  import opened Conformance
  import opened Edits
  import opened FileHash
  import opened Removal
  import opened Resolution
  import opened Specification
  import opened Tables
  import opened Wrappers

  // ---------- The machine file ----------

  /** Nothing is stored: no machine file, a text that does not parse, or an object without hashes. */
  ghost predicate NothingStored(json: Json, files: Files) {
    forall stored: Table :: !Stores(json, files, stored)
  }

  lemma MachineSpelled()
    ensures MACHINE_PATH == ".opencode/state/machine.json"
  {
  }

  lemma HashesAreStored(json: Json, files: Files, stored: Table)
    ensures StoredHashes(ReadMachine(json, files)) == Some(stored) <==> Stores(json, files, stored)
  {
    MachineSpelled();
  }

  lemma NoHashesAreStored(json: Json, files: Files)
    ensures StoredHashes(ReadMachine(json, files)) == None <==> NothingStored(json, files)
  {
    var hashes := StoredHashes(ReadMachine(json, files));
    if hashes.Some? {
      HashesAreStored(json, files, hashes.value);
    }
    forall stored: Table | Stores(json, files, stored) ensures hashes == Some(stored) {
      HashesAreStored(json, files, stored);
    }
  }

  // ---------- The verdict ----------

  lemma EntryIsHarmless(sha: Digest, files: Files, e: Entry)
    ensures Accepted(sha, files, e) <==> Harmless(sha, files, e)
  {
    TrackedOnCharacters(e.path);
    if Tracked(e.path) {
      TrackedHash(sha, files, e.path);
    }
  }

  lemma ValidOnCharacters(sha: Digest, files: Files, stored: Table)
    ensures AllFixedPresent(files) && AllAccepted(sha, files, stored) && ListingsReadable(files) <==>
            Valid(sha, files, stored)
  {
    DirectoriesSpelled();
    forall path ensures Fixed(path) <==> path in NINE {
      FixedIsNine(path);
    }
    forall e ensures Accepted(sha, files, e) <==> Harmless(sha, files, e) {
      EntryIsHarmless(sha, files, e);
    }
  }

  /** The machine file parses to stored hashes against which the files are valid. */
  ghost predicate ValidProject(sha: Digest, json: Json, files: Files) {
    exists stored :: Stores(json, files, stored) && Valid(sha, files, stored)
  }

  /** A project passes exactly when its machine file parses to stored hashes against which its files are valid. */
  lemma PassesExactly(sha: Digest, json: Json, s: Snapshot)
    requires Consistent(s)
    ensures Passes(sha, json, s) <==> ValidProject(sha, json, s.files)
  {
    PassesOnFiles(sha, json, s);
    NoHashesAreStored(json, s.files);
    forall stored | Stores(json, s.files, stored)
      ensures Passes(sha, json, s) <==> Valid(sha, s.files, stored)
    {
      HashesAreStored(json, s.files, stored);
      ValidOnCharacters(sha, s.files, stored);
    }
  }

  lemma ChainThrows(s: Snapshot)
    requires Consistent(s)
    ensures CannotBuild(s) <==> Throws(s.files, s.dirs)
  {
    DirectoriesSpelled();
    if p :| p in TargetPaths(s) && p in s.dirs {
      CoveredOnCharacters(s, p);
      assert p in NINE;
    }
    if p :| p in NINE && p in s.dirs {
      CoveredOnCharacters(s, p);
    }
  }

  // ---------- Statuses ----------

  /** The five statuses, in terms of characters, files and stored entries. */
  ghost predicate StatusIs(sha: Digest, files: Files, stored: Table, path: string, status: Status) {
    match status
    case OK => IsOK(sha, files, stored, path)
    case MISMATCH => IsMismatch(sha, files, stored, path)
    case UNTRACKED => IsUntracked(files, stored, path)
    case MISSING_FILE => IsMissing(files, path)
    case STALE => IsStale(files, stored, path)
  }

  lemma StoredEntry(stored: Table, path: string, hash: string)
    ensures Truthy(Lookup(stored, path)) && Lookup(stored, path).value != hash <==>
            exists e :: e in stored && e.path == path && e.hash != "" && e.hash != hash
    ensures Truthy(Lookup(stored, path)) <==> !(forall e :: e in stored && e.path == path ==> e.hash == "")
    ensures Lookup(stored, path).Some? <==> exists e :: e in stored && e.path == path
  {
    if Lookup(stored, path).Some? {
      LookupIffEntry(stored, path, Lookup(stored, path).value);
    }
    forall e | e in stored && e.path == path ensures Lookup(stored, path) == Some(e.hash) {
      LookupIffEntry(stored, e.path, e.hash);
    }
  }

  lemma StatusExactly(sha: Digest, s: Snapshot, stored: Table, path: string, status: Status)
    requires Consistent(s)
    ensures HasStatus(sha, s, stored, path, status) <==> StatusIs(sha, s.files, stored, path, status)
  {
    CoveredOnCharacters(s, path);
    StoredEntry(stored, path, Expected(sha, s.files, path));
    LookupIffEntry(stored, path, Expected(sha, s.files, path));
    if Covered(s.files, path) {
      TrackedOnCharacters(path);
      TrackedHash(sha, s.files, path);
    }
  }

  /** The report names exactly the paths with a status, and its verdict is that the files are valid. */
  ghost predicate Reports(sha: Digest, files: Files, stored: Table, report: Report) {
    && (report.passed && ".opencode/rules" !in files && ".opencode/agents" !in files <==> Valid(sha, files, stored))
    && forall path, status ::
         (exists r :: r in report.results && r.path == path && r.status == status) <==>
         StatusIs(sha, files, stored, path, status)
  }

  lemma ReportExactly(sha: Digest, s: Snapshot, stored: Table)
    requires Consistent(s)
    ensures Reports(sha, s.files, stored, BundleReport(sha, s, Parsed(Some(stored))))
  {
    DirectoriesSpelled();
    FileVerdict(sha, s, stored);
    ValidOnCharacters(sha, s.files, stored);
    forall path, status
      ensures (exists r :: r in BundleReport(sha, s, Parsed(Some(stored))).results
                 && r.path == path && r.status == status) <==>
              StatusIs(sha, s.files, stored, path, status)
    {
      ReportedIffDeserved(sha, s, stored, path, status);
      StatusExactly(sha, s, stored, path, status);
    }
  }

  // ---------- The modes ----------

  lemma Modes(args: seq<string>)
    ensures AsksForHash(args) <==> HashCommand(args)
    ensures IsChainMode(args) <==> ChainCommand(args)
    ensures IsPreCommit(args) <==> PreCommitCommand(args)
  {
  }

  function FormOf(args: seq<string>): Form
    requires ChainCommand(args)
  {
    if args[0] == "--audit" then JsonText else Summary
  }

  lemma ChainModeOutcome(sha: Digest, json: Json, root: seq<string>, args: seq<string>, s: Snapshot)
    requires ChainCommand(args)
    ensures RunOn(sha, json, root, args, s) == ChainOutcome(sha, s, ReadMachine(json, s.files), FormOf(args))
  {
    ModeOutcome(sha, root, args, s, ReadMachine(json, s.files));
  }

  /** Without stored hashes a chain mode prints an empty report and fails. */
  lemma ChainWithoutHashes(sha: Digest, json: Json, root: seq<string>, args: seq<string>, s: Snapshot)
    requires ChainCommand(args) && NothingStored(json, s.files)
    ensures RunOn(sha, json, root, args, s) ==
            Exit(1, ChainOutput(if args[0] == "--audit" then JsonText else Summary, Report(false, [], 0, 0, 0, 0, 0)))
  {
    NoHashesAreStored(json, s.files);
    ChainModeOutcome(sha, json, root, args, s);
  }

  /** With stored hashes it crashes, or prints the report that files and stored hashes deserve, with its verdict. */
  lemma ChainWithHashes(sha: Digest, json: Json, root: seq<string>, args: seq<string>, s: Snapshot, stored: Table)
    requires Consistent(s) && ChainCommand(args) && Stores(json, s.files, stored)
    ensures var outcome := RunOn(sha, json, root, args, s);
            if Throws(s.files, s.dirs) then outcome == Exit(1, Crash)
            else
              && outcome.output.ChainOutput?
              && outcome.output.form == (if args[0] == "--audit" then JsonText else Summary)
              && Reports(sha, s.files, stored, outcome.output.report)
              && outcome.code == if Valid(sha, s.files, stored) then 0 else 1
  {
    ChainModeOutcome(sha, json, root, args, s);
    HashesAreStored(json, s.files, stored);
    ChainThrows(s);
    ReportOnTable(sha, json, s, stored);
    ReportExactly(sha, s, stored);
  }

  // ---------- The contract check ----------

  /** The machine file parses to stored hashes with the right hash of the contract among them. */
  ghost predicate ContractRight(sha: Digest, json: Json, files: Files) {
    exists stored :: Stores(json, files, stored) && ContractStored(sha, files, stored)
  }

  /** The contract check on a project whose machine file is read from the same files. */
  predicate Accepts(sha: Digest, json: Json, files: Files) {
    ValidateContract(sha, files, ReadMachine(json, files))
  }

  /** The contract check, for every project: the right hash of the contract is stored under its name. */
  lemma ContractCheckExactly(sha: Digest, json: Json, files: Files)
    ensures Accepts(sha, json, files) <==> ContractRight(sha, json, files)
  {
    NoHashesAreStored(json, files);
    forall stored | Stores(json, files, stored)
      ensures Accepts(sha, json, files) <==> ContractStored(sha, files, stored)
    {
      HashesAreStored(json, files, stored);
      ContractHash(sha, files);
      MissingIffAbsent(Validator, sha, files, CONTRACT);
      LookupIffEntry(stored, CONTRACT, ComputeFileHash(sha, files, CONTRACT));
    }
  }

  /** `--pre-commit`: nothing stored, a crash, a contract that fails, or the outcome of `--bundle`. */
  lemma PreCommitExactly(sha: Digest, json: Json, root: seq<string>, args: seq<string>, s: Snapshot)
    requires PreCommitCommand(args)
    ensures var outcome := RunOn(sha, json, root, args, s);
            if NothingStored(json, s.files) then outcome == Exit(1, ContractFailure)
            else if "contract.yaml" in s.dirs then outcome == Exit(1, Crash)
            else if !ContractRight(sha, json, s.files) then outcome == Exit(1, ContractFailure)
            else outcome == RunOn(sha, json, root, ["--bundle"], s)
  {
    ModeOutcome(sha, root, args, s, ReadMachine(json, s.files));
    ChainModeOutcome(sha, json, root, ["--bundle"], s);
    NoHashesAreStored(json, s.files);
    ContractCheckExactly(sha, json, s.files);
    DirectoriesSpelled();
  }

  /** Two projects with the same stored hashes, the first accepted: the second is accepted with the same digest. */
  lemma SameDigestAccepted(sha: Digest, json: Json, a: Files, b: Files)
    requires ReadMachine(json, a) == ReadMachine(json, b) && CONTRACT in a && CONTRACT in b && Accepts(sha, json, a)
    ensures Accepts(sha, json, b) <==> sha(Content(true, a[CONTRACT])) == sha(Content(true, b[CONTRACT]))
  {
    ContractIsYaml();
    ContentOnCharacters(true, a[CONTRACT]);
    ContentOnCharacters(true, b[CONTRACT]);
    HashOfTextInjective(sha, Content(true, a[CONTRACT]), Content(true, b[CONTRACT]));
  }

  lemma RejectedContract(sha: Digest, json: Json, root: seq<string>, args: seq<string>, s: Snapshot)
    requires PreCommitCommand(args) && CONTRACT !in s.dirs
    ensures RunOn(sha, json, root, args, s) == Exit(1, ContractFailure) <==> !Accepts(sha, json, s.files)
  {
    ModeOutcome(sha, root, args, s, ReadMachine(json, s.files));
  }

  lemma ContractEditKeepsMachine(json: Json, s: Snapshot, text: string)
    ensures ReadMachine(json, Edited(s, CONTRACT, text).files) == ReadMachine(json, s.files)
  {
    assert CONTRACT != MACHINE_PATH by {
      assert CONTRACT[0] == 'c' && MACHINE_PATH[0] == '.';
    }
  }

  /** `--pre-commit` rejects an edit of an accepted contract exactly when it changes the digest of the content. */
  lemma ContractEditRejected(sha: Digest, json: Json, root: seq<string>, args: seq<string>, s: Snapshot, text: string)
    requires PreCommitCommand(args) && "contract.yaml" in s.files && "contract.yaml" !in s.dirs
    requires ContractRight(sha, json, s.files)
    ensures RunOn(sha, json, root, args, Edited(s, "contract.yaml", text)) == Exit(1, ContractFailure) <==>
            sha(Content(true, text)) != sha(Content(true, s.files["contract.yaml"]))
  {
    var s' := Edited(s, CONTRACT, text);
    ContractCheckExactly(sha, json, s.files);
    ContractEditKeepsMachine(json, s, text);
    SameDigestAccepted(sha, json, s.files, s'.files);
    RejectedContract(sha, json, root, args, s');
  }

  // ---------- Printing a hash ----------

  /** `--hash`: a crash on a directory, else the hash of the place the path resolves to, under the written path. */
  lemma HashExactly(sha: Digest, json: Json, root: seq<string>, args: seq<string>, s: Snapshot)
    requires HashCommand(args)
    ensures var place, outcome := Locate(root, args[1]), RunOn(sha, json, root, args, s);
            if place in s.dirs then outcome == Exit(1, Crash)
            else if place in s.files then outcome == Exit(0, HashLine(HashAs(sha, args[1], s.files[place])))
            else outcome == Exit(0, HashLine("MISSING"))
  {
    WrittenHash(sha, root, s.files, args[1]);
  }

  lemma CoveredIsTracked(sha: Digest, root: seq<string>, files: Files, path: string)
    requires Covered(files, path)
    ensures Locate(root, path) == path && HashWritten(sha, root, files, path) == Expected(sha, files, path)
  {
    TrackedOnCharacters(path);
    TrackedIsItself(root, path);
    TrackedHash(sha, files, path);
    TrackedHashAsWritten(sha, root, files, path);
  }

  lemma StoredHashIsOK(sha: Digest, s: Snapshot, stored: Table, path: string, hash: string)
    requires Consistent(s) && Covered(s.files, path) && path in s.files && hash == Expected(sha, s.files, path)
    ensures HasStatus(sha, s, stored, path, OK) <==> Lookup(stored, path) == Some(hash)
  {
    StatusExactly(sha, s, stored, path, OK);
    LookupIffEntry(stored, path, hash);
  }

  /** A covered file is OK exactly when the stored hash is the one that `--hash` prints for it. */
  lemma PrintedHashIsTheRightOne(sha: Digest, json: Json, root: seq<string>, args: seq<string>, s: Snapshot,
                                 stored: Table)
    requires Consistent(s) && HashCommand(args) && Covered(s.files, args[1]) && args[1] in s.files
    ensures var outcome := RunOn(sha, json, root, args, s);
            && outcome == Exit(0, HashLine(Expected(sha, s.files, args[1])))
            && (HasStatus(sha, s, stored, args[1], OK) <==> Lookup(stored, args[1]) == Some(outcome.output.hash))
  {
    CoveredIsTracked(sha, root, s.files, args[1]);
    StoredHashIsOK(sha, s, stored, args[1], Expected(sha, s.files, args[1]));
  }

  /** No mode at all: an unknown first argument, `--hash` without a path, or no argument. */
  lemma UsageExactly(sha: Digest, json: Json, root: seq<string>, args: seq<string>, s: Snapshot)
    ensures RunOn(sha, json, root, args, s) == Exit(1, Usage) <==>
            !HashCommand(args) && !ChainCommand(args) && !PreCommitCommand(args)
  {
    Modes(args);
    ModesDiffer();
    ModeOutcome(sha, root, args, s, ReadMachine(json, s.files));
  }

  // ---------- Exit codes ----------

  lemma ChainCode(sha: Digest, json: Json, root: seq<string>, args: seq<string>, s: Snapshot)
    requires Consistent(s) && ChainCommand(args)
    ensures RunOn(sha, json, root, args, s).code == 0 <==> ValidProject(sha, json, s.files)
  {
    PassesExactly(sha, json, s);
    ExitZero(sha, root, args, s, ReadMachine(json, s.files));
    ModesDiffer();
  }

  lemma PreCommitCode(sha: Digest, json: Json, root: seq<string>, args: seq<string>, s: Snapshot)
    requires Consistent(s) && PreCommitCommand(args)
    ensures RunOn(sha, json, root, args, s).code == 0 <==>
            ValidProject(sha, json, s.files) && ContractRight(sha, json, s.files)
  {
    PreCommitExactly(sha, json, root, args, s);
    ChainCode(sha, json, root, ["--bundle"], s);
    if ValidProject(sha, json, s.files) {
      ValidCoversContract(sha, json, s);
    }
  }

  lemma ValidCoversContract(sha: Digest, json: Json, s: Snapshot)
    requires Consistent(s) && ValidProject(sha, json, s.files)
    ensures !NothingStored(json, s.files) && "contract.yaml" !in s.dirs
  {
  }

  /** Every way to exit with 0, in terms of characters, files and what the machine file parses to. */
  lemma ExitZeroExactly(sha: Digest, json: Json, root: seq<string>, args: seq<string>, s: Snapshot)
    requires Consistent(s)
    ensures RunOn(sha, json, root, args, s).code == 0 <==>
            || (HashCommand(args) && Locate(root, args[1]) !in s.dirs)
            || (ChainCommand(args) && ValidProject(sha, json, s.files))
            || (PreCommitCommand(args) && ValidProject(sha, json, s.files) && ContractRight(sha, json, s.files))
  {
    Modes(args);
    ModesDiffer();
    if HashCommand(args) {
      HashExactly(sha, json, root, args, s);
    } else if ChainCommand(args) {
      ChainCode(sha, json, root, args, s);
    } else if PreCommitCommand(args) {
      PreCommitCode(sha, json, root, args, s);
    } else {
      ModeOutcome(sha, root, args, s, ReadMachine(json, s.files));
    }
  }
}
