/** The model, which follows the code, agrees with the specification written on characters and literal paths. */
module Conformance {
  import opened Baseline
  import opened BundleProperties
  import opened Chain
  import opened ChainProperties
  import opened FileHash
  import opened Header
  import opened Lines
  import opened Resolution
  import opened Specification
  import opened StringOrder
  import opened Tables
  import opened Wrappers

  // ---------- Header lines ----------

  lemma SpaceByCode(c: char)
    ensures IsSpace(c) <==> WhiteSpace(c)
  {
  }

  lemma TagAt(line: string, k: nat)
    requires k <= |line|
    ensures StartsWith(line[k..], TAG) <==> k + 22 <= |line| && line[k..k + 22] == "x-keystone-state-hash:"
  {
    assert |TAG| == 22;
    if k + 22 <= |line| {
      assert line[k..][..22] == line[k..k + 22];
    }
  }

  lemma MatchesAtByCharacters(line: string, k: nat)
    ensures MatchesAt(line, k) <==> HeaderWithTagAt(line, k)
  {
    if k <= |line| {
      TagAt(line, k);
    }
    forall i | 1 <= i < k && i < |line| ensures IsSpace(line[i]) <==> WhiteSpace(line[i]) {
      SpaceByCode(line[i]);
    }
  }

  /** The scan accepts exactly the lines that the pattern describes, character by character. */
  lemma HeaderOnCharacters(line: string)
    ensures IsHeader(line) <==> HeaderLine(line)
  {
    RecogniserCorrect(line);
    if k: nat :| MatchesAt(line, k) {
      MatchesAtByCharacters(line, k);
    }
    if k :| HeaderWithTagAt(line, k) {
      MatchesAtByCharacters(line, k);
    }
  }

  lemma HeaderForSpelling(hash: string)
    ensures HeaderFor(hash) == "# x-keystone-state-hash: " + hash
  {
    assert "# " + TAG + " " == "# x-keystone-state-hash: ";
  }

  lemma TagFollows(start: string, rest: string)
    requires |start| >= 1 && start[0] == '#' && forall i :: 1 <= i < |start| ==> WhiteSpace(start[i])
    ensures HeaderLine(start + "x-keystone-state-hash:" + rest)
  {
    var line := start + "x-keystone-state-hash:" + rest;
    assert line[|start|..|start| + 22] == "x-keystone-state-hash:";
    assert HeaderWithTagAt(line, |start|);
  }

  /** The tag after a blank, as in the project's own contract, after a tab, and right after the number sign. */
  lemma HeadersAccepted(rest: string)
    ensures HeaderLine("# " + "x-keystone-state-hash:" + rest)
    ensures HeaderLine("#\t" + "x-keystone-state-hash:" + rest)
    ensures HeaderLine("#" + "x-keystone-state-hash:" + rest)
  {
    TagFollows("# ", rest);
    TagFollows("#\t", rest);
    TagFollows("#", rest);
  }

  lemma HeaderStarts(line: string, k: int)
    requires HeaderWithTagAt(line, k)
    ensures line[0] == '#' && line[k] == 'x' && line[k + 2] == 'k'
    ensures forall i :: 1 <= i < k ==> WhiteSpace(line[i])
  {
    assert line[k..k + 22][0] == 'x' && line[k..k + 22][2] == 'k';
  }

  /** Another comment is no header, nor is a line that does not start with the number sign. */
  lemma HeadersRejected(rest: string)
    ensures !HeaderLine("# x-api-version: 1" + rest)
    ensures !HeaderLine(" # x-keystone-state-hash:" + rest)
  {
    var line, indented := "# x-api-version: 1" + rest, " # x-keystone-state-hash:" + rest;
    assert line[1] == ' ' && line[2] == 'x' && line[4] == 'a' && indented[0] == ' ';
    if k :| HeaderWithTagAt(line, k) {
      HeaderStarts(line, k);
    }
    if k :| HeaderWithTagAt(indented, k) {
      HeaderStarts(indented, k);
    }
  }

  // ---------- Hashes ----------

  /** The header is read off characters, for every text. */
  lemma ContentOnCharacters(mayStrip: bool, text: string)
    ensures CanonicalText(mayStrip, text) == Content(mayStrip, text)
  {
    CanonicalTextIs(mayStrip, text);
    HeaderOnCharacters(FirstLine(text));
  }

  // ---------- YAML paths ----------

  lemma YamlNameOnCharacters(name: string)
    ensures YamlName(name) <==>
            || (5 < |name| && EndsWith(ToLower(name), ".yaml"))
            || (4 < |name| && EndsWith(ToLower(name), ".yml"))
  {
    var lower := ToLower(name);
    var n := |name|;
    if 5 < n {
      assert lower[n - 5..] == [lower[n - 5], lower[n - 4], lower[n - 3], lower[n - 2], lower[n - 1]];
    }
    if 4 < n {
      assert lower[n - 4..] == [lower[n - 4], lower[n - 3], lower[n - 2], lower[n - 1]];
    }
  }

  lemma {:induction false} TrimSlashesTo(path: string, end: nat)
    requires end <= |path| && (end > 0 ==> path[end - 1] != '/')
    requires forall i :: end <= i < |path| ==> path[i] == '/'
    ensures TrimSlashes(path) == path[..end]
    decreases |path|
  {
    if end == |path| {
      assert path[..end] == path;
    } else {
      TrimSlashesTo(path[..|path| - 1], end);
      assert path[..|path| - 1][..end] == path[..end];
    }
  }

  lemma BaseNameIsBetween(path: string, start: int, end: int)
    requires BaseNameBetween(path, start, end) && start < end
    ensures BaseName(path) == path[start..end]
  {
    TrimSlashesTo(path, end);
    var p := path[..end];
    assert LastIndexOf(p, '/') == start - 1;
  }

  lemma SomeBaseName(path: string) returns (start: int, end: int)
    requires BaseName(path) != ""
    ensures BaseNameBetween(path, start, end) && start < end && BaseName(path) == path[start..end]
  {
    end := TrimmedLength(path);
    var p := path[..end];
    start := LastIndexOf(p, '/') + 1;
    assert BaseNameBetween(path, start, end);
  }

  lemma {:induction false} TrimmedLength(path: string) returns (end: nat)
    ensures end <= |path| && TrimSlashes(path) == path[..end]
    ensures forall i :: end <= i < |path| ==> path[i] == '/'
    decreases |path|
  {
    if path != "" && path[|path| - 1] == '/' {
      end := TrimmedLength(path[..|path| - 1]);
      assert path[..|path| - 1][..end] == path[..end];
      assert forall i :: 0 <= i < |path| - 1 ==> path[i] == path[..|path| - 1][i];
    } else {
      end := |path|;
      assert path[..end] == path;
    }
  }

  /** Which paths count as YAML, for every path: trailing slashes and upper case included. */
  lemma YamlOnCharacters(path: string)
    ensures IsYaml(path) <==> YamlPath(path)
  {
    YamlIsASuffixTest(path);
    YamlNameOnCharacters(BaseName(path));
    if IsYaml(path) {
      var start, end := SomeBaseName(path);
    }
    if start, end :| BaseNameBetween(path, start, end) && YamlName(path[start..end]) {
      BaseNameIsBetween(path, start, end);
    }
  }

  lemma PlainName(name: string)
    requires YamlName(name) && '/' !in name
    ensures YamlPath(name)
  {
    assert BaseNameBetween(name, 0, |name|);
    assert name[0..|name|] == name;
  }

  /** Upper case counts too. */
  lemma UpperCaseYaml(stem: string)
    requires stem != "" && '/' !in stem
    ensures IsYaml(stem + ".YML")
  {
    PlainName(stem + ".YML");
    YamlOnCharacters(stem + ".YML");
  }

  // ---------- Covered paths ----------

  lemma RequirementSpelling(i: nat)
    requires i < 6
    ensures REQUIREMENTS_DIR + CORE_REQUIREMENT_DOCS[i] == NINE[i + 1]
  {
  }

  lemma FixedInNine(path: string)
    requires Fixed(path)
    ensures path in NINE
  {
    if path in RequirementPaths() {
      var i :| 0 <= i < |CORE_REQUIREMENT_DOCS| && path == RequirementPaths()[i];
      RequirementSpelling(i);
    } else {
      assert NINE[0] == CONTRACT && NINE[7] == AGENTS_DOC && NINE[8] == REFERENCE_DOC;
    }
  }

  lemma NineAreFixed(path: string)
    requires path in NINE
    ensures Fixed(path)
  {
    var i :| 0 <= i < |NINE| && path == NINE[i];
    if 1 <= i <= 6 {
      RequirementSpelling(i - 1);
      assert RequirementPaths()[i - 1] == path;
    }
  }

  /** The fixed documents are nine literal paths. */
  lemma FixedIsNine(path: string)
    ensures Fixed(path) <==> path in NINE
  {
    if Fixed(path) {
      FixedInNine(path);
    }
    if path in NINE {
      NineAreFixed(path);
    }
  }

  lemma DocNameIsMarkdown(name: string)
    ensures IsMarkdown(name) <==> DocName(name)
  {
    if |name| >= 3 {
      assert name[|name| - 3..] == [name[|name| - 3], name[|name| - 2], name[|name| - 1]];
    }
  }

  lemma DocInByName(dir: string, path: string)
    ensures DocIn(dir, path) <==> exists name :: DocName(name) && '/' !in name && path == dir + name
  {
    if DocIn(dir, path) {
      DocNameIsMarkdown(path[|dir|..]);
      assert path == dir + path[|dir|..];
    }
    if name :| DocName(name) && '/' !in name && path == dir + name {
      DocNameIsMarkdown(name);
      assert path[|dir|..] == name;
    }
  }

  lemma DocInDirectory(dir: string, name: string)
    requires '/' !in name
    ensures DocIn(dir, dir + name) <==> DocName(name)
  {
    DocNameIsMarkdown(name);
    assert (dir + name)[|dir|..] == name;
  }

  lemma DirectoriesSpelled()
    ensures RULES_DIR == ".opencode/rules/" && AGENTS_DIR == ".opencode/agents/"
    ensures RULES_FOLDER == ".opencode/rules" && AGENTS_FOLDER == ".opencode/agents"
    ensures CONTRACT == "contract.yaml" && MACHINE_PATH == ".opencode/state/machine.json" && MISSING == "MISSING"
  {
  }

  lemma RuleOrAgentIsDoc(path: string)
    ensures RuleOrAgent(path) <==> DocIn(RULES_DIR, path) || DocIn(AGENTS_DIR, path)
  {
    DirectoriesSpelled();
    DocInByName(RULES_DIR, path);
    DocInByName(AGENTS_DIR, path);
  }

  lemma TrackedOnCharacters(path: string)
    ensures Tracked(path) <==> path in NINE || RuleOrAgent(path)
  {
    FixedIsNine(path);
    RuleOrAgentIsDoc(path);
  }

  /** The chain of a consistent snapshot covers the nine literal paths and the existing rule and agent documents. */
  lemma CoveredOnCharacters(s: Snapshot, path: string)
    requires Consistent(s)
    ensures path in TargetPaths(s) <==> Covered(s.files, path)
  {
    TargetsAre(s, path);
    FixedIsNine(path);
    TrackedOnCharacters(path);
  }

  /** A directory's share, name by name. */
  lemma DocumentsOnCharacters(s: Snapshot, name: string)
    requires Consistent(s) && '/' !in name
    ensures ".opencode/rules/" + name in TargetPaths(s) <==> DocName(name) && ".opencode/rules/" + name in s.files
    ensures ".opencode/agents/" + name in TargetPaths(s) <==> DocName(name) && ".opencode/agents/" + name in s.files
  {
    DirectoriesSpelled();
    DocumentIn(s, RULES_DIR, name);
    DocumentIn(s, AGENTS_DIR, name);
  }

  lemma DocumentIn(s: Snapshot, dir: string, name: string)
    requires Consistent(s) && '/' !in name && (dir == RULES_DIR || dir == AGENTS_DIR)
    ensures dir + name in TargetPaths(s) <==> DocName(name) && dir + name in s.files
  {
    DocInDirectory(dir, name);
    TargetsAre(s, dir + name);
    OtherDirectory(dir, name);
  }

  lemma NamedMark(dir: string, name: string)
    requires dir == RULES_DIR || dir == AGENTS_DIR
    ensures Mark(dir + name) == (true, dir[10])
  {
    DirectoryMarks();
    assert (dir + name)[10] == dir[10];
  }

  lemma FixedHasOtherMark(path: string)
    requires Fixed(path)
    ensures Mark(path) != (true, 'r') && Mark(path) != (true, 'a')
  {
    DirectoryMarks();
    MarkInDirectory(REQUIREMENTS_DIR, CORE_REQUIREMENT_DOCS);
  }

  /** A path in one document directory is neither fixed nor in the other one. */
  lemma OtherDirectory(dir: string, name: string)
    requires dir == RULES_DIR || dir == AGENTS_DIR
    ensures !Fixed(dir + name)
    ensures Tracked(dir + name) ==> DocIn(dir, dir + name)
  {
    var path := dir + name;
    DirectoryMarks();
    NamedMark(dir, name);
    if Fixed(path) {
      FixedHasOtherMark(path);
    } else if DocIn(RULES_DIR, path) {
      DirectoryDocIsNotFixed(RULES_DIR, path);
    } else if DocIn(AGENTS_DIR, path) {
      DirectoryDocIsNotFixed(AGENTS_DIR, path);
    }
  }

  lemma MirrorsByName(files: Files, dir: string, listing: Option<seq<string>>)
    ensures Mirrors(files, dir, listing) <==> Lists(files, dir, Names(listing))
  {
    assert Names(listing) == Listed(listing);
    if Mirrors(files, dir, listing) {
      forall name | DocName(name) && '/' !in name ensures dir + name in files <==> name in Listed(listing) {
        DocInDirectory(dir, name);
        assert (dir + name)[|dir|..] == name;
      }
    }
    if Lists(files, dir, Names(listing)) {
      forall path | DocIn(dir, path) ensures path in files <==> path[|dir|..] in Listed(listing) {
        DocNameIsMarkdown(path[|dir|..]);
        assert path == dir + path[|dir|..];
      }
    }
  }

  /** What consistency asks of a snapshot, on characters. */
  lemma ConsistentOnCharacters(s: Snapshot)
    ensures Consistent(s) <==>
            && Lists(s.files, ".opencode/rules/", Names(s.rules))
            && Lists(s.files, ".opencode/agents/", Names(s.agents))
            && forall path :: path in s.files ==> path !in s.dirs
  {
    DirectoriesSpelled();
    MirrorsByName(s.files, RULES_DIR, s.rules);
    MirrorsByName(s.files, AGENTS_DIR, s.agents);
  }

  lemma NineInOrder()
    ensures [CONTRACT] + RequirementPaths() == NINE[..7] && [AGENTS_DOC, REFERENCE_DOC] == NINE[7..]
  {
    var first, last := NINE[..7], NINE[7..];
    assert first[0] == CONTRACT;
    forall i | 0 <= i < 6 ensures RequirementPaths()[i] == first[i + 1] {
      RequirementSpelling(i);
    }
    assert last[0] == AGENTS_DOC && last[1] == REFERENCE_DOC;
  }

  /** The sorted names of the listed documents. */
  ghost predicate SortedDocs(names: seq<string>, docs: seq<string>) {
    StrictlyAscending(docs) && forall name :: name in docs <==> name in names && DocName(name)
  }

  lemma DocNamesAreSortedDocs(listing: Option<seq<string>>)
    requires Distinct(Listed(listing))
    ensures SortedDocs(Names(listing), DocNames(listing))
  {
    DocNamesDistinct(listing);
    forall name ensures name in DocNames(listing) <==> name in Names(listing) && DocName(name) {
      DocNamesMember(listing, name);
      DocNameIsMarkdown(name);
    }
  }

  /** The chain in order, on literal paths. */
  lemma ChainInOrder(sha: Digest, s: Snapshot)
    requires Consistent(s)
    ensures var rules, agents := DocNames(s.rules), DocNames(s.agents);
            && SortedDocs(Names(s.rules), rules) && SortedDocs(Names(s.agents), agents)
            && Paths(ChainOf(sha, s)) ==
               NINE[..7] + InDirectory(".opencode/rules/", rules) + InDirectory(".opencode/agents/", agents) + NINE[7..]
  {
    ChainShape(sha, s);
    NineInOrder();
    DirectoriesSpelled();
    DocNamesAreSortedDocs(s.rules);
    DocNamesAreSortedDocs(s.agents);
  }

  // ---------- Hashes of files ----------

  lemma ContractFlag(path: string)
    requires Tracked(path)
    ensures IsYaml(path) <==> path == "contract.yaml"
  {
    DirectoriesSpelled();
    OnlyContractIsYaml(path);
  }

  /** The hash of a tracked path. */
  lemma TrackedHash(sha: Digest, files: Files, path: string)
    requires Tracked(path)
    ensures ComputeFileHash(sha, files, path) == Expected(sha, files, path)
  {
    ContractFlag(path);
    if path in files {
      ContentOnCharacters(path == "contract.yaml", files[path]);
    }
  }

  lemma ContractHash(sha: Digest, files: Files)
    ensures ComputeFileHash(sha, files, CONTRACT) == Expected(sha, files, "contract.yaml")
  {
    DirectoriesSpelled();
    TrackedHash(sha, files, CONTRACT);
  }

  /** What `computeFileHash` returns for a path as written, for every path and every place of the project. */
  lemma WrittenHash(sha: Digest, root: seq<string>, files: Files, path: string)
    ensures var place := Locate(root, path);
            HashWritten(sha, root, files, path) ==
            if place in files then HashAs(sha, path, files[place]) else "MISSING"
  {
    YamlOnCharacters(path);
    if Locate(root, path) in files {
      ContentOnCharacters(IsYaml(path), files[Locate(root, path)]);
    }
  }

  /** The entries of the chain. */
  lemma ChainEntries(sha: Digest, s: Snapshot, e: Entry)
    requires Consistent(s)
    ensures e in ChainOf(sha, s) <==> Covered(s.files, e.path) && e.hash == Expected(sha, s.files, e.path)
  {
    ChainEntry(Validator, sha, s.files, TargetPaths(s), e);
    CoveredOnCharacters(s, e.path);
    if Covered(s.files, e.path) {
      TrackedOnCharacters(e.path);
      TrackedHash(sha, s.files, e.path);
    }
  }

  /** The entries of the baseline that the bundler writes: every file without its header. */
  lemma BaselineEntries(sha: Digest, s: Snapshot, e: Entry)
    requires Consistent(s)
    ensures e in BaselineOf(Bundler, sha, s) <==>
            && Covered(s.files, e.path)
            && e.hash == if e.path in s.files then "sha256-" + sha(Content(true, s.files[e.path])) else "MISSING"
  {
    ChainEntry(Bundler, sha, s.files, TargetPaths(s), e);
    CoveredOnCharacters(s, e.path);
    if e.path in s.files {
      ContentOnCharacters(true, s.files[e.path]);
    }
  }
}
