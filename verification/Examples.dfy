/** Concrete projects on which the validator does less than its documentation says. */
module Examples {
  import opened Baseline
  import opened Bundle
  import opened BundleProperties
  import opened Chain
  import opened ChainProperties
  import opened Cli
  import opened FileHash
  import opened Header
  import opened Lines
  import opened Removal
  import opened Tables
  import opened Wrappers

  /** The nine fixed documents, all empty but for the text of `AGENTS.md`. */
  function NineDocs(agents: string): Files {
    map p | p in TargetPaths(Snapshot(map[], {}, None, None)) :: if p == AGENTS_DOC then agents else ""
  }

  lemma NineDocsAreFixed(agents: string)
    ensures forall p :: p in NineDocs(agents) <==> Fixed(p)
    ensures AGENTS_DOC in NineDocs(agents) && NineDocs(agents)[AGENTS_DOC] == agents
  {
    var bare := Snapshot(map[], {}, None, None);
    forall p ensures p in NineDocs(agents) <==> Fixed(p) {
      assert Consistent(bare);
      TargetsAre(bare, p);
    }
    assert Fixed(AGENTS_DOC);
  }

  /** Without rules and agents among the files, empty listings are right. */
  lemma EmptyListingMirrors(files: Files, dir: string, listing: Option<seq<string>>)
    requires dir == RULES_DIR || dir == AGENTS_DIR
    requires Listed(listing) == [] && forall p :: p in files ==> Fixed(p) || p == MACHINE_PATH
    ensures Mirrors(files, dir, listing)
  {
    MachineIsNotTracked();
    forall p | DocIn(dir, p) ensures p !in files {
      DirectoryDocIsNotFixed(dir, p);
    }
  }

  lemma FixedOnlyIsConsistent(files: Files, rules: Option<seq<string>>)
    requires Listed(rules) == [] && forall p :: p in files ==> Fixed(p) || p == MACHINE_PATH
    ensures Consistent(Snapshot(files, {}, rules, None))
  {
    EmptyListingMirrors(files, RULES_DIR, rules);
    EmptyListingMirrors(files, AGENTS_DIR, None);
  }

  // ---------- Re-bundling cannot repair the chain ----------

  /** `AGENTS.md` is a single header line. */
  function HeadedAgentsDoc(): Snapshot {
    Snapshot(NineDocs(HeaderFor("")), {}, None, None)
  }

  lemma HeaderAlone(header: string)
    requires IsLine(header) && IsHeader(header)
    ensures HasHeader(header) && AfterFirstLine(header) == ""
  {
    SplitSinglePiece('\n', header);
    DropFirstLine(header);
  }

  lemma HeaderForIsLine(hash: string)
    requires IsLine(hash)
    ensures IsLine(HeaderFor(hash))
  {
    assert IsLine(TAG);
  }

  lemma HeaderForAlone(hash: string)
    requires IsLine(hash)
    ensures HasHeader(HeaderFor(hash)) && AfterFirstLine(HeaderFor(hash)) == ""
  {
    HeaderForIsHeader(hash);
    HeaderForIsLine(hash);
    HeaderAlone(HeaderFor(hash));
  }

  lemma HeadedDocBreaksTheChain(sha: Digest, s: Snapshot, path: string)
    requires Consistent(s) && StripsDifferently(s.files, path)
    requires sha(AfterFirstLine(s.files[path])) != sha(s.files[path])
    ensures !PassesAgainst(Bundler, sha, s, s)
  {
    BundleThenValidate(sha, s);
  }

  /** Nothing is missing, the baseline is fresh, and validation still fails. */
  lemma RebundlingCannotRepair(sha: Digest)
    requires sha("") != sha(HeaderFor(""))
    ensures var s := HeadedAgentsDoc();
            Consistent(s) && AllFixedPresent(s.files) && !PassesAgainst(Bundler, sha, s, s)
  {
    NineDocsAreFixed(HeaderFor(""));
    FixedOnlyIsConsistent(NineDocs(HeaderFor("")), None);
    HeaderForAlone("");
    assert AGENTS_DOC != CONTRACT;
    HeadedDocBreaksTheChain(sha, HeadedAgentsDoc(), AGENTS_DOC);
  }

  // ---------- A deletion that goes unnoticed ----------

  const RULE := RULES_DIR + "a.md"

  /** A machine file whose object of stored hashes is empty, but present. */
  const EMPTY_STORE := "{\"keystone_hashes\":{}}"

  function EmptyMachine(): Files {
    NineDocs("")[MACHINE_PATH := EMPTY_STORE]
  }

  function WithRule(): Snapshot {
    Snapshot(EmptyMachine()[RULE := ""], {}, Some(["a.md"]), None)
  }

  function WithoutRule(): Snapshot {
    Snapshot(EmptyMachine(), {}, Some([]), None)
  }

  lemma RuleIsDoc()
    ensures RULE[|RULES_DIR|..] == "a.md" && DocIn(RULES_DIR, RULE) && Tracked(RULE)
  {
    assert RULE[..|RULES_DIR|] == RULES_DIR;
    assert IsMarkdown("a.md");
  }

  lemma RuleIsNew()
    ensures !Fixed(RULE) && RULE != MACHINE_PATH && RULE !in EmptyMachine() && !DocIn(AGENTS_DIR, RULE)
  {
    RuleIsDoc();
    DirectoryMarks();
    DirectoryDocIsNotFixed(RULES_DIR, RULE);
    MachineIsNotTracked();
    NineDocsAreFixed("");
    if DocIn(AGENTS_DIR, RULE) {
      DirectoryDocIsNotFixed(AGENTS_DIR, RULE);
    }
  }

  lemma DirectoryDocName(files: Files, dir: string, name: string, path: string)
    requires dir == RULES_DIR || dir == AGENTS_DIR
    requires forall p :: p in files ==> Fixed(p) || p == MACHINE_PATH || p == dir + name
    requires dir + name in files && DocIn(dir, path)
    ensures path in files <==> path[|dir|..] == name
  {
    MachineIsNotTracked();
    DirectoryDocIsNotFixed(dir, path);
    assert path == dir + path[|dir|..];
    assert (dir + name)[|dir|..] == name;
  }

  /** One document beside the fixed ones, and it is listed. */
  lemma OneDocMirrors(files: Files, dir: string, name: string)
    requires dir == RULES_DIR || dir == AGENTS_DIR
    requires '/' !in name && dir + name in files
    requires forall p :: p in files ==> Fixed(p) || p == MACHINE_PATH || p == dir + name
    ensures Mirrors(files, dir, Some([name]))
  {
    forall p | DocIn(dir, p) ensures p in files <==> p[|dir|..] in [name] {
      DirectoryDocName(files, dir, name, p);
    }
  }

  lemma OtherDirectoryMirrors(files: Files, name: string)
    requires !DocIn(AGENTS_DIR, RULES_DIR + name)
    requires forall p :: p in files ==> Fixed(p) || p == MACHINE_PATH || p == RULES_DIR + name
    ensures Mirrors(files, AGENTS_DIR, None)
  {
    MachineIsNotTracked();
    forall p | DocIn(AGENTS_DIR, p) ensures p !in files {
      DirectoryDocIsNotFixed(AGENTS_DIR, p);
    }
  }

  lemma RuleFiles()
    ensures forall p :: p in EmptyMachine() <==> Fixed(p) || p == MACHINE_PATH
    ensures forall p :: p in WithRule().files <==> Fixed(p) || p == MACHINE_PATH || p == RULE
    ensures EmptyMachine() == WithRule().files - {RULE}
  {
    NineDocsAreFixed("");
    RuleIsNew();
  }

  lemma WithRuleIsConsistent()
    ensures Consistent(WithRule())
  {
    RuleFiles();
    RuleIsNew();
    OneDocMirrors(WithRule().files, RULES_DIR, "a.md");
    OtherDirectoryMirrors(WithRule().files, "a.md");
  }

  lemma WithoutRuleIsConsistent()
    ensures Consistent(WithoutRule())
  {
    RuleFiles();
    FixedOnlyIsConsistent(EmptyMachine(), Some([]));
  }

  lemma MachineText()
    ensures MACHINE_PATH in EmptyMachine() && EmptyMachine()[MACHINE_PATH] == EMPTY_STORE
    ensures MACHINE_PATH in WithRule().files && WithRule().files[MACHINE_PATH] == EMPTY_STORE
  {
    RuleIsNew();
  }

  lemma EmptyStoreExample(sha: Digest, json: Json, s: Snapshot)
    requires Consistent(s) && ReadMachine(json, s.files) == Parsed(Some([]))
    requires AllFixedPresent(s.files) && ListingsReadable(s.files)
    ensures Passes(sha, json, s)
  {
    PassesOnFiles(sha, json, s);
  }

  lemma FoldersAreNotFixed()
    ensures !Fixed(RULES_FOLDER) && !Fixed(AGENTS_FOLDER)
  {
    FolderMarks();
    DirectoryMarks();
    MarkInDirectory(REQUIREMENTS_DIR, CORE_REQUIREMENT_DOCS);
  }

  lemma ExampleListingsReadable()
    ensures ListingsReadable(WithRule().files) && ListingsReadable(WithoutRule().files)
  {
    RuleFiles();
    RuleIsDoc();
    FoldersAreNotFixed();
    FolderMarks();
    MachineMark();
    TrackedIsNoFolder(RULE);
  }

  lemma ExampleMachine(json: Json)
    requires json(EMPTY_STORE) == Some(Some([]))
    ensures ReadMachine(json, WithRule().files) == ReadMachine(json, WithoutRule().files) == Parsed(Some([]))
  {
    MachineText();
  }

  /** A tracked rule file without stored hash is deleted from a passing project, and the project still passes. */
  lemma UnnoticedDeletion(sha: Digest, json: Json)
    requires json(EMPTY_STORE) == Some(Some([]))
    ensures var s, s' := WithRule(), WithoutRule();
            && Consistent(s) && Consistent(s') && s'.files == s.files - {RULE}
            && Tracked(RULE) && RULE in s.files
            && Passes(sha, json, s) && Passes(sha, json, s')
  {
    WithRuleIsConsistent();
    WithoutRuleIsConsistent();
    RuleFiles();
    RuleIsDoc();
    ExampleListingsReadable();
    ExampleMachine(json);
    EmptyStoreExample(sha, json, WithRule());
    EmptyStoreExample(sha, json, WithoutRule());
  }

  // ---------- An absent contract that the contract check accepts ----------

  /** No `contract.yaml`, and the stored hash of `contract.yaml` reads MISSING. */
  function NoContract(): Snapshot {
    Snapshot(NineDocs("") - {CONTRACT}, {}, None, None)
  }

  const MISSING_STORED: Table := [Entry(CONTRACT, MISSING)]

  lemma MissingContractIsRejected(sha: Digest, s: Snapshot, stored: Table)
    requires CONTRACT !in s.files
    ensures !BundleReport(sha, s, Parsed(Some(stored))).passed
    ensures PreCommitOutcome(sha, s, Parsed(Some(stored))).code == 1
  {
    VerdictOnPaths(sha, s.files, TargetPaths(s), stored);
    FixedAreTargets(s, CONTRACT);
  }

  lemma NoContractIsConsistent()
    ensures Consistent(NoContract()) && CONTRACT !in NoContract().files
  {
    NineDocsAreFixed("");
    FixedOnlyIsConsistent(NoContract().files, None);
  }

  /** The contract check accepts, the chain check rejects, and `--pre-commit` fails. */
  lemma ContractCheckAcceptsNothing(sha: Digest)
    ensures var s, machine := NoContract(), Parsed(Some(MISSING_STORED));
            && Consistent(s) && CONTRACT !in s.files
            && ValidateContract(sha, s.files, machine)
            && !BundleReport(sha, s, machine).passed
            && PreCommitOutcome(sha, s, machine).code == 1
  {
    NoContractIsConsistent();
    assert Lookup(MISSING_STORED, CONTRACT) == Some(MISSING);
    ContractAloneAcceptsMissing(sha, NoContract().files, Parsed(Some(MISSING_STORED)));
    MissingContractIsRejected(sha, NoContract(), MISSING_STORED);
  }
}
