/** The contract check and the exit code of every command-line mode. */
module Cli {
  import opened Bundle
  import opened BundleProperties
  import opened Chain
  import opened ChainProperties
  import opened Edits
  import opened FileHash
  import opened Header
  import opened Lines
  import opened Resolution
  import opened Tables
  import opened Wrappers

  /** `validateContract`: one stored hash, compared without a separate test for a missing file. */
  predicate ValidateContract(sha: Digest, files: Files, machine: MachineFile) {
    match StoredHashes(machine)
    case None => false
    case Some(stored) =>
      var storedHash := Lookup(stored, CONTRACT);
      var computedHash := ComputeFileHash(sha, files, CONTRACT);
      if !Truthy(storedHash) then false
      else if computedHash != storedHash.value then false
      else true
  }

  /** `--bundle` and `--ci` print the summary, `--audit` prints JSON. */
  datatype Form = Summary | JsonText

  /**
   * `Crash`: reading a directory as a file, or listing a file as a directory, throws; nothing catches it, and the
   * process ends with code 1.
   */
  datatype Output =
    HashLine(hash: string) | ChainOutput(form: Form, report: Report) | ContractFailure | Usage | Crash

  datatype Outcome = Exit(code: nat, output: Output)

  /** A mode that validates the chain; the chain is only built when there are stored hashes. */
  function ChainOutcome(sha: Digest, s: Snapshot, machine: MachineFile, form: Form): Outcome {
    if StoredHashes(machine).Some? && CannotBuild(s) then Exit(1, Crash)
    else
      var report := BundleReport(sha, s, machine);
      Exit(if report.passed then 0 else 1, ChainOutput(form, report))
  }

  /** `--hash <file>`. */
  function HashOutcome(sha: Digest, root: seq<string>, s: Snapshot, path: string): Outcome {
    if Locate(root, path) in s.dirs then Exit(1, Crash)
    else Exit(0, HashLine(HashWritten(sha, root, s.files, path)))
  }

  /** `--pre-commit`: the contract first, then the chain. */
  function PreCommitOutcome(sha: Digest, s: Snapshot, machine: MachineFile): Outcome {
    if StoredHashes(machine).Some? && CONTRACT in s.dirs then Exit(1, Crash)
    else if !ValidateContract(sha, s.files, machine) then Exit(1, ContractFailure)
    else ChainOutcome(sha, s, machine, Summary)
  }

  /** `--hash` is a mode only with a non-empty second argument. */
  predicate AsksForHash(args: seq<string>) {
    |args| > 1 && args[0] == "--hash" && args[1] != ""
  }

  /** `cliMain`: the first argument selects the mode; `root` is where the project lies. */
  function Run(sha: Digest, root: seq<string>, args: seq<string>, s: Snapshot, machine: MachineFile): Outcome {
    var mode := if |args| > 0 then Some(args[0]) else None;
    if AsksForHash(args) then HashOutcome(sha, root, s, args[1])
    else if mode == Some("--bundle") then ChainOutcome(sha, s, machine, Summary)
    else if mode == Some("--ci") then ChainOutcome(sha, s, machine, Summary)
    else if mode == Some("--audit") then ChainOutcome(sha, s, machine, JsonText)
    else if mode == Some("--pre-commit") then PreCommitOutcome(sha, s, machine)
    else Exit(1, Usage)
  }

  /** The command on a project whose machine file is read from the same snapshot. */
  function RunOn(sha: Digest, json: Json, root: seq<string>, args: seq<string>, s: Snapshot): Outcome {
    Run(sha, root, args, s, ReadMachine(json, s.files))
  }

  lemma ModesDiffer()
    ensures "--hash" != "--bundle" && "--hash" != "--ci" && "--hash" != "--audit" && "--hash" != "--pre-commit"
    ensures "--bundle" != "--audit" && "--ci" != "--audit"
    ensures "--bundle" != "--pre-commit" && "--ci" != "--pre-commit" && "--audit" != "--pre-commit"
  {
    assert "--hash"[2] == 'h' && "--bundle"[2] == 'b' && "--ci"[2] == 'c';
    assert "--audit"[2] == 'a' && "--pre-commit"[2] == 'p';
  }

  predicate IsChainMode(args: seq<string>) {
    args != [] && args[0] in {"--bundle", "--ci", "--audit"}
  }

  predicate IsPreCommit(args: seq<string>) {
    args != [] && args[0] == "--pre-commit"
  }

  /** The outcome of a validating mode, whatever further arguments follow. */
  lemma ModeOutcome(sha: Digest, root: seq<string>, args: seq<string>, s: Snapshot, machine: MachineFile)
    ensures IsChainMode(args) ==>
              Run(sha, root, args, s, machine) ==
              ChainOutcome(sha, s, machine, if args[0] == "--audit" then JsonText else Summary)
    ensures IsPreCommit(args) ==> Run(sha, root, args, s, machine) == PreCommitOutcome(sha, s, machine)
    ensures !AsksForHash(args) && !IsChainMode(args) && !IsPreCommit(args) ==>
              Run(sha, root, args, s, machine) == Exit(1, Usage)
  {
    ModesDiffer();
  }

  // ---------- The contract check beside the chain check ----------

  /** Alone, the contract check accepts an absent `contract.yaml` exactly when the stored hash reads MISSING. */
  lemma ContractAloneAcceptsMissing(sha: Digest, files: Files, machine: MachineFile)
    requires CONTRACT !in files
    ensures ValidateContract(sha, files, machine) <==>
            StoredHashes(machine).Some? && Lookup(StoredHashes(machine).value, CONTRACT) == Some(MISSING)
  {
  }

  /** A passing chain leaves the contract check one thing to say: whether the contract has a stored hash at all. */
  lemma ContractUnderPassingChain(sha: Digest, s: Snapshot, stored: Table)
    requires BundleReport(sha, s, Parsed(Some(stored))).passed
    ensures ValidateContract(sha, s.files, Parsed(Some(stored))) <==> Truthy(Lookup(stored, CONTRACT))
  {
    VerdictOnPaths(sha, s.files, TargetPaths(s), stored);
    SoundContract(sha, s.files, TargetPaths(s), stored);
  }

  lemma SoundContract(sha: Digest, files: Files, paths: seq<string>, stored: Table)
    requires Sound(sha, files, paths, stored)
    ensures Truthy(Lookup(stored, CONTRACT)) ==> Lookup(stored, CONTRACT) == Some(ComputeFileHash(sha, files, CONTRACT))
  {
    if Has(stored, CONTRACT) {
      var e := Entry(CONTRACT, Lookup(stored, CONTRACT).value);
      LookupIffEntry(stored, CONTRACT, e.hash);
      assert e in stored;
    }
  }

  /** The contract has a non-empty stored hash. */
  predicate ContractRecorded(machine: MachineFile) {
    var hashes := StoredHashes(machine);
    hashes.Some? && Truthy(Lookup(hashes.value, CONTRACT))
  }

  lemma ContractCheckUnderPassingChain(sha: Digest, s: Snapshot, machine: MachineFile)
    requires BundleReport(sha, s, machine).passed
    ensures ValidateContract(sha, s.files, machine) <==> ContractRecorded(machine)
  {
    assert machine.Parsed?;
    ContractUnderPassingChain(sha, s, StoredHashes(machine).value);
  }

  /** `--pre-commit` exits 0 exactly when the chain modes do and the contract has a non-empty stored hash. */
  lemma PreCommitEquivalence(sha: Digest, s: Snapshot, machine: MachineFile)
    ensures PreCommitOutcome(sha, s, machine).code == 0 <==>
            BundleReport(sha, s, machine).passed && !CannotBuild(s) && ContractRecorded(machine)
  {
    FixedAreTargets(s, CONTRACT);
    if BundleReport(sha, s, machine).passed {
      ContractCheckUnderPassingChain(sha, s, machine);
    }
  }

  /** A clean `--pre-commit` on a consistent snapshot, in terms of files and stored entries only. */
  lemma PreCommitOnFiles(sha: Digest, s: Snapshot, stored: Table)
    requires Consistent(s)
    ensures PreCommitOutcome(sha, s, Parsed(Some(stored))).code == 0 <==>
            && AllFixedPresent(s.files)
            && AllAccepted(sha, s.files, stored)
            && Lookup(stored, CONTRACT) == Some(ComputeFileHash(sha, s.files, CONTRACT))
            && ListingsReadable(s.files)
  {
    PreCommitEquivalence(sha, s, Parsed(Some(stored)));
    FileVerdict(sha, s, stored);
    if BundleReport(sha, s, Parsed(Some(stored))).passed {
      PassingCoversFiles(sha, s, Parsed(Some(stored)));
      AcceptedContract(sha, s.files, stored);
    }
    MissingIffAbsent(Validator, sha, s.files, CONTRACT);
  }

  lemma AcceptedContract(sha: Digest, files: Files, stored: Table)
    requires AllAccepted(sha, files, stored)
    ensures Truthy(Lookup(stored, CONTRACT)) ==> Lookup(stored, CONTRACT) == Some(ComputeFileHash(sha, files, CONTRACT))
  {
    if Has(stored, CONTRACT) {
      var e := Entry(CONTRACT, Lookup(stored, CONTRACT).value);
      LookupIffEntry(stored, CONTRACT, e.hash);
      assert Accepted(sha, files, e);
    }
  }

  // ---------- Exit codes ----------

  /** The exit code of the three chain modes is one and the same, and `--pre-commit` is 0 only where it is 0. */
  lemma ModeAgreement(sha: Digest, root: seq<string>, a: seq<string>, b: seq<string>, s: Snapshot,
                      machine: MachineFile)
    requires IsChainMode(a) && (IsChainMode(b) || IsPreCommit(b))
    ensures IsChainMode(b) ==> Run(sha, root, a, s, machine).code == Run(sha, root, b, s, machine).code
    ensures Run(sha, root, b, s, machine).code == 0 ==> Run(sha, root, a, s, machine).code == 0
  {
    ModeOutcome(sha, root, a, s, machine);
    ModeOutcome(sha, root, b, s, machine);
  }

  /** Every exit with 0, over all argument lists, project directories, snapshots and machine files. */
  lemma ExitZero(sha: Digest, root: seq<string>, args: seq<string>, s: Snapshot, machine: MachineFile)
    ensures Run(sha, root, args, s, machine).code in {0, 1}
    ensures Run(sha, root, args, s, machine).code == 0 <==>
            || (AsksForHash(args) && Locate(root, args[1]) !in s.dirs)
            || (IsChainMode(args) && BundleReport(sha, s, machine).passed && !CannotBuild(s))
            || (IsPreCommit(args) && BundleReport(sha, s, machine).passed && !CannotBuild(s)
                && ContractRecorded(machine))
  {
    ModesDiffer();
    ModeOutcome(sha, root, args, s, machine);
    PreCommitEquivalence(sha, s, machine);
  }

  /** `--hash .` asks for the hash of the project directory itself, and crashes. */
  lemma HashOfProjectCrashes(sha: Digest, root: seq<string>, s: Snapshot, machine: MachineFile)
    requires "" in s.dirs
    ensures Run(sha, root, ["--hash", "."], s, machine) == Exit(1, Crash)
  {
    SplitSinglePiece('/', ".");
    assert Walk(root, ["."]) == Walk(root, []);
    assert root[|root|..] == [];
    assert Locate(root, ".") == "";
  }

  // ---------- Recording the printed hash ----------

  /** The text of `contract.yaml` with the hash that `--hash contract.yaml` prints for it in its header line. */
  function Stamped(sha: Digest, s: Snapshot): Snapshot
    requires CONTRACT in s.files
  {
    Edited(s, CONTRACT, Stamp(sha, s.files[CONTRACT]))
  }

  /** The command asks for the hash of `contract.yaml` under a spelling that does not look like YAML. */
  predicate MisspellsContract(root: seq<string>, args: seq<string>) {
    AsksForHash(args) && Locate(root, args[1]) == CONTRACT && !IsYaml(args[1])
  }

  /**
   * `--hash contract.yaml` prints a hash; writing it into the header of `contract.yaml` changes no later command.
   * The one exception are spellings that resolve to `contract.yaml` without looking like YAML: for them the header
   * counts as content, and the printed hash changes exactly when the hashes of the two whole texts differ.
   */
  lemma RecordingThePrintedHash(sha: Digest, root: seq<string>, args: seq<string>, s: Snapshot, machine: MachineFile)
    requires HexDigest(sha) && CONTRACT in s.files && CONTRACT !in s.dirs
    ensures Run(sha, root, args, Stamped(sha, s), machine) == Run(sha, root, args, s, machine) <==>
            (MisspellsContract(root, args) ==> sha(Stamp(sha, s.files[CONTRACT])) == sha(s.files[CONTRACT]))
  {
    StampIsRestamping(sha, s.files[CONTRACT]);
    RestampingIsInvisible(sha, s, HeaderFor(HashOfText(sha, CanonicalText(true, s.files[CONTRACT]))), machine);
    if AsksForHash(args) {
      HashAfterStamping(sha, root, args[1], s);
    } else {
      RunDependsOnHashes(sha, root, args, s, Stamped(sha, s), machine);
    }
  }

  /** What is printed is what the header then records. */
  lemma PrintedHashIsRecorded(sha: Digest, root: seq<string>, s: Snapshot, machine: MachineFile)
    requires HexDigest(sha) && CONTRACT in s.files && CONTRACT !in s.dirs
    ensures var printed := Run(sha, root, ["--hash", CONTRACT], s, machine).output;
            && printed == HashLine(ComputeFileHash(sha, s.files, CONTRACT))
            && FirstLine(Stamped(sha, s).files[CONTRACT]) == HeaderFor(printed.hash)
  {
    ContractIsYaml();
    TrackedHashAsWritten(sha, root, s.files, CONTRACT);
    TrackedIsItself(root, CONTRACT);
    StampCertifiesItself(sha, s.files[CONTRACT]);
  }

  lemma HashAfterStamping(sha: Digest, root: seq<string>, path: string, s: Snapshot)
    requires HexDigest(sha) && CONTRACT in s.files && CONTRACT !in s.dirs
    ensures HashOutcome(sha, root, Stamped(sha, s), path) == HashOutcome(sha, root, s, path) <==>
            (Locate(root, path) == CONTRACT && !IsYaml(path) ==>
               sha(Stamp(sha, s.files[CONTRACT])) == sha(s.files[CONTRACT]))
  {
    var text, stamp := s.files[CONTRACT], Stamp(sha, s.files[CONTRACT]);
    if Locate(root, path) == CONTRACT {
      StampIsRestamping(sha, text);
      HeaderIsInvisible(HeaderFor(HashOfText(sha, CanonicalText(true, text))), CanonicalText(true, text));
      CanonicalTextIs(IsYaml(path), text);
      CanonicalTextIs(IsYaml(path), stamp);
      HashOfTextInjective(sha, CanonicalText(IsYaml(path), text), CanonicalText(IsYaml(path), stamp));
    }
  }

  /** The two snapshots look alike to every mode but `--hash`. */
  ghost predicate LookAlike(sha: Digest, s: Snapshot, s': Snapshot, machine: MachineFile) {
    && s.dirs == s'.dirs
    && (CannotBuild(s) <==> CannotBuild(s'))
    && BundleReport(sha, s, machine) == BundleReport(sha, s', machine)
    && ComputeFileHash(sha, s.files, CONTRACT) == ComputeFileHash(sha, s'.files, CONTRACT)
  }

  lemma SameChainOutcome(sha: Digest, s: Snapshot, s': Snapshot, machine: MachineFile, form: Form)
    requires LookAlike(sha, s, s', machine)
    ensures ChainOutcome(sha, s, machine, form) == ChainOutcome(sha, s', machine, form)
  {
  }

  lemma SamePreCommitOutcome(sha: Digest, s: Snapshot, s': Snapshot, machine: MachineFile)
    requires LookAlike(sha, s, s', machine)
    ensures PreCommitOutcome(sha, s, machine) == PreCommitOutcome(sha, s', machine)
  {
    SameChainOutcome(sha, s, s', machine, Summary);
  }

  /** All modes but `--hash` see the files through the report and through the hash of the contract only. */
  lemma RunDependsOnHashes(sha: Digest, root: seq<string>, args: seq<string>, s: Snapshot, s': Snapshot,
                           machine: MachineFile)
    requires !AsksForHash(args) && LookAlike(sha, s, s', machine)
    ensures Run(sha, root, args, s, machine) == Run(sha, root, args, s', machine)
  {
    ModeOutcome(sha, root, args, s, machine);
    ModeOutcome(sha, root, args, s', machine);
    if IsChainMode(args) {
      SameChainOutcome(sha, s, s', machine, if args[0] == "--audit" then JsonText else Summary);
    } else if IsPreCommit(args) {
      SamePreCommitOutcome(sha, s, s', machine);
    }
  }

  lemma StampIsRestamping(sha: Digest, text: string)
    requires HexDigest(sha)
    ensures var header := HeaderFor(HashOfText(sha, CanonicalText(true, text)));
            && IsLine(header) && IsHeader(header)
            && Stamp(sha, text) == header + "\n" + CanonicalText(true, text)
  {
    HeaderForIsHeader(HashOfText(sha, CanonicalText(true, text)));
    assert IsHex(sha(CanonicalText(true, text)));
  }

  /** Such a spelling exists: `contract.yaml/.` is the contract and has no extension. */
  lemma SecondSpelling(root: seq<string>)
    ensures MisspellsContract(root, ["--hash", CONTRACT + "/."])
  {
    TopLevelNamesArePlain();
    DotSpelling(root, CONTRACT);
    DotHasNoExtension(CONTRACT);
  }

  lemma DotSpelling(root: seq<string>, name: string)
    requires Plain(name)
    ensures Locate(root, name + "/.") == name
  {
    var path, segments := name + "/.", [name, "."];
    assert Lacks('/', ".");
    JoinTwo(name, ".");
    assert path == name + "/" + ".";
    SplitJoin('/', segments);
    assert path[0] == name[0];
    assert segments[1..] == ["."] && ["."][1..] == [];
    assert Walk(root, segments) == Walk(root + [name], ["."]);
    assert Walk(root + [name], ["."]) == Walk(root + [name], []);
    assert (root + [name])[|root|..] == [name];
  }

  lemma DotHasNoExtension(name: string)
    ensures !IsYaml(name + "/.")
  {
    var path := name + "/.";
    BaseNameAt(path, |name| + 1);
    assert BaseName(path) == ".";
    assert Extension(path) == "";
  }
}
