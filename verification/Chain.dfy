/** The integrity chain: which files it covers, in which order, and the loops that build it. */
module Chain {
  import opened FileHash
  import opened StringOrder
  import opened Tables
  import opened Wrappers

  /**
   * One immutable view of the project: the files and the directories by path, and what reading the two document
   * directories returns.
   */
  datatype Snapshot =
    Snapshot(files: Files, dirs: set<string>, rules: Option<seq<string>>, agents: Option<seq<string>>)

  // ---------- Covered paths ----------

  const CONTRACT := "contract.yaml"
  const AGENTS_DOC := "AGENTS.md"
  const REFERENCE_DOC := "PROJECT_REFERENCE.md"
  const REQUIREMENTS_DIR := ".opencode/context/requirements/"
  const RULES_DIR := ".opencode/rules/"
  const AGENTS_DIR := ".opencode/agents/"
  const RULES_FOLDER := ".opencode/rules"
  const AGENTS_FOLDER := ".opencode/agents"
  const MACHINE_PATH := ".opencode/state/machine.json"

  const CORE_REQUIREMENT_DOCS := [
    "系统架构设计文档（SAD）.md",
    "接口设计规范文档.md",
    "数据架构设计文档.md",
    "安全架构设计文档.md",
    "测试策略与计划.md",
    "运维与部署设计文档.md"
  ]

  function InDirectory(dir: string, names: seq<string>): (paths: seq<string>)
    ensures |paths| == |names|
  {
    seq(|names|, i requires 0 <= i < |names| => dir + names[i])
  }

  function RequirementPaths(): seq<string> {
    InDirectory(REQUIREMENTS_DIR, CORE_REQUIREMENT_DOCS)
  }

  predicate IsMarkdown(name: string) {
    EndsWith(name, ".md")
  }

  /** `names.filter(f => f.endsWith(".md"))`. */
  function MarkdownOnly(names: seq<string>): seq<string> {
    if names == [] then []
    else (if IsMarkdown(names[0]) then [names[0]] else []) + MarkdownOnly(names[1..])
  }

  /** The names one directory contributes; none when the directory does not exist. */
  function DocNames(listing: Option<seq<string>>): seq<string> {
    match listing
    case None => []
    case Some(names) => SortNames(MarkdownOnly(names))
  }

  /** Every path the chain covers, in the order it is visited. */
  function TargetPaths(s: Snapshot): seq<string> {
    InDirectory("", [CONTRACT])
    + RequirementPaths()
    + InDirectory(RULES_DIR, DocNames(s.rules))
    + InDirectory(AGENTS_DIR, DocNames(s.agents))
    + InDirectory("", [AGENTS_DOC, REFERENCE_DOC])
  }

  /** Some covered path is a directory; reading it as a file would throw. */
  predicate CoversDirectory(s: Snapshot) {
    exists p :: p in TargetPaths(s) && p in s.dirs
  }

  /** Neither document directory is a regular file; listing one would throw. */
  predicate ListingsReadable(files: Files) {
    RULES_FOLDER !in files && AGENTS_FOLDER !in files
  }

  /** Building the chain throws. */
  predicate CannotBuild(s: Snapshot) {
    CoversDirectory(s) || !ListingsReadable(s.files)
  }

  // ---------- The table of hashes ----------

  /** The table left by setting each path in turn to its hash. */
  function Fill(hasher: Hasher, sha: Digest, files: Files, paths: seq<string>): Table {
    if paths == [] then []
    else
      var last := paths[|paths| - 1];
      Put(Fill(hasher, sha, files, paths[..|paths| - 1]), last, HashBy(hasher, sha, files, last))
  }

  function ChainOf(sha: Digest, s: Snapshot): Table {
    Fill(Validator, sha, s.files, TargetPaths(s))
  }

  lemma FillNext(hasher: Hasher, sha: Digest, files: Files, paths: seq<string>, path: string)
    ensures Fill(hasher, sha, files, paths + [path]) ==
            Put(Fill(hasher, sha, files, paths), path, HashBy(hasher, sha, files, path))
  {
    assert (paths + [path])[..|paths|] == paths;
  }

  /** A look-up in the table depends on the covered paths and on that one file, for every list of paths. */
  lemma {:induction false} FillLookup(hasher: Hasher, sha: Digest, files: Files, paths: seq<string>, q: string)
    ensures Lookup(Fill(hasher, sha, files, paths), q) ==
            if q in paths then Some(HashBy(hasher, sha, files, q)) else None
  {
    if paths == [] {
    } else {
      var init, last := paths[..|paths| - 1], paths[|paths| - 1];
      assert paths == init + [last];
      FillLookup(hasher, sha, files, init, q);
      PutLaws(Fill(hasher, sha, files, init), last, HashBy(hasher, sha, files, last), q);
    }
  }

  /** Setting a path that is not in the list yet appends it. */
  lemma FillAppends(hasher: Hasher, sha: Digest, files: Files, paths: seq<string>, path: string)
    requires path !in paths
    ensures Fill(hasher, sha, files, paths + [path]) ==
            Fill(hasher, sha, files, paths) + [Entry(path, HashBy(hasher, sha, files, path))]
  {
    FillNext(hasher, sha, files, paths, path);
    FillLookup(hasher, sha, files, paths, path);
  }

  predicate InOrder(hasher: Hasher, sha: Digest, files: Files, paths: seq<string>, table: seq<Entry>) {
    && |table| == |paths|
    && forall i :: 0 <= i < |paths| ==> table[i] == Entry(paths[i], HashBy(hasher, sha, files, paths[i]))
  }

  /** When no path repeats, no `set` overwrites: the table lists the paths in order. */
  lemma {:induction false} FillInOrder(hasher: Hasher, sha: Digest, files: Files, paths: seq<string>)
    requires Distinct(paths)
    ensures InOrder(hasher, sha, files, paths, Fill(hasher, sha, files, paths))
  {
    if paths == [] {
    } else {
      var init, last := paths[..|paths| - 1], paths[|paths| - 1];
      assert paths == init + [last];
      FillInOrder(hasher, sha, files, init);
      FillAppends(hasher, sha, files, init, last);
    }
  }

  // ---------- Construction ----------

  /** `buildIntegrityChain`. */
  method BuildIntegrityChain(sha: Digest, s: Snapshot) returns (chain: Table)
    ensures chain == ChainOf(sha, s)
  {
    chain := HashTargets(Validator, sha, s);
  }

  /** The five steps that validator and bundler share, each with its own hash. */
  method HashTargets(hasher: Hasher, sha: Digest, s: Snapshot) returns (table: Table)
    ensures table == Fill(hasher, sha, s.files, TargetPaths(s))
  {
    table := SetHashes(hasher, sha, s.files, "", [CONTRACT], [], []);
    ghost var contract := InDirectory("", [CONTRACT]);
    assert [] + contract == contract;
    table := SetHashes(hasher, sha, s.files, REQUIREMENTS_DIR, CORE_REQUIREMENT_DOCS, table, contract);
    ghost var upToDocs := contract + RequirementPaths();
    table := AddDirectory(hasher, sha, s.files, RULES_DIR, s.rules, table, upToDocs);
    ghost var upToRules := upToDocs + InDirectory(RULES_DIR, DocNames(s.rules));
    table := AddDirectory(hasher, sha, s.files, AGENTS_DIR, s.agents, table, upToRules);
    ghost var upToAgents := upToRules + InDirectory(AGENTS_DIR, DocNames(s.agents));
    table := SetHashes(hasher, sha, s.files, "", [AGENTS_DOC, REFERENCE_DOC], table, upToAgents);
  }

  /** Filters the listing of a directory, sorts it in place and adds each file; nothing without the directory. */
  method AddDirectory(hasher: Hasher, sha: Digest, files: Files, dir: string, listing: Option<seq<string>>,
                      start: Table, ghost done: seq<string>)
    returns (table: Table)
    requires start == Fill(hasher, sha, files, done)
    ensures table == Fill(hasher, sha, files, done + InDirectory(dir, DocNames(listing)))
  {
    if listing == None {
      table := start;
      assert done + InDirectory(dir, DocNames(listing)) == done;
    } else {
      var docs := MarkdownOnly(listing.value);
      var names := new string[|docs|](i requires 0 <= i < |docs| => docs[i]);
      assert names[..] == docs;
      SortInPlace(names);
      table := SetHashes(hasher, sha, files, dir, names[..], start, done);
    }
  }

  lemma FillStep(hasher: Hasher, sha: Digest, files: Files, done: seq<string>, paths: seq<string>, i: nat)
    requires i < |paths|
    ensures Fill(hasher, sha, files, done + paths[..i + 1]) ==
            Put(Fill(hasher, sha, files, done + paths[..i]), paths[i], HashBy(hasher, sha, files, paths[i]))
  {
    var before := done + paths[..i];
    assert done + paths[..i + 1] == before + [paths[i]];
    FillNext(hasher, sha, files, before, paths[i]);
  }

  /** One `chain.set(relPath, computeFileHash(relPath))` for each name, in order. */
  method SetHashes(hasher: Hasher, sha: Digest, files: Files, dir: string, names: seq<string>,
                   start: Table, ghost done: seq<string>)
    returns (table: Table)
    requires start == Fill(hasher, sha, files, done)
    ensures table == Fill(hasher, sha, files, done + InDirectory(dir, names))
  {
    table := start;
    ghost var paths := InDirectory(dir, names);
    assert done + paths[..0] == done;
    for i := 0 to |names|
      invariant table == Fill(hasher, sha, files, done + paths[..i])
    {
      var relPath := dir + names[i];
      FillStep(hasher, sha, files, done, paths, i);
      table := Put(table, relPath, HashBy(hasher, sha, files, relPath));
    }
    assert paths[..|names|] == paths;
  }
}
