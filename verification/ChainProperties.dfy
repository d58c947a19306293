/** What the chain covers, in which order, and why no listing order and no `set` can change it. */
module ChainProperties {
  import opened Chain
  import opened FileHash
  import opened Lines
  import opened Resolution
  import opened StringOrder
  import opened Tables
  import opened Wrappers

  function Listed(listing: Option<seq<string>>): seq<string> {
    if listing == None then [] else listing.value
  }

  // ---------- Filtering and sorting a listing ----------

  lemma {:induction false} MarkdownOnlyCount(names: seq<string>, x: string)
    ensures multiset(MarkdownOnly(names))[x] == if IsMarkdown(x) then multiset(names)[x] else 0
  {
    if names == [] {
    } else {
      MarkdownOnlyCount(names[1..], x);
      assert names == [names[0]] + names[1..];
    }
  }

  lemma DocNamesMember(listing: Option<seq<string>>, x: string)
    ensures x in DocNames(listing) <==> x in Listed(listing) && IsMarkdown(x)
  {
    if listing.Some? {
      MarkdownOnlyCount(listing.value, x);
      assert x in DocNames(listing) <==> x in multiset(DocNames(listing));
      assert x in listing.value <==> x in multiset(listing.value);
    }
  }

  /** Filtering and sorting any two permutations of a listing gives the same names in the same order. */
  lemma DocNamesIgnoreOrder(a: Option<seq<string>>, b: Option<seq<string>>)
    requires multiset(Listed(a)) == multiset(Listed(b))
    ensures DocNames(a) == DocNames(b)
  {
    var keptA, keptB := MarkdownOnly(Listed(a)), MarkdownOnly(Listed(b));
    forall x ensures multiset(keptA)[x] == multiset(keptB)[x] {
      MarkdownOnlyCount(Listed(a), x);
      MarkdownOnlyCount(Listed(b), x);
    }
    assert multiset(keptA) == multiset(keptB);
    SortedPermutationUnique(SortNames(keptA), SortNames(keptB));
    assert DocNames(a) == SortNames(keptA) && DocNames(b) == SortNames(keptB);
  }

  function MarkdownSet(names: seq<string>): set<string> {
    set f | f in names && IsMarkdown(f)
  }

  lemma MarkdownSetNext(first: string, rest: seq<string>)
    requires first !in rest
    ensures MarkdownSet([first] + rest) == MarkdownSet(rest) + if IsMarkdown(first) then {first} else {}
    ensures first !in MarkdownSet(rest)
    ensures first !in MarkdownOnly(rest)
  {
    MarkdownOnlyCount(rest, first);
    assert first !in multiset(rest);
    assert first !in multiset(MarkdownOnly(rest));
    forall f ensures f in [first] + rest <==> f == first || f in rest {
    }
  }

  lemma {:induction false} MarkdownOnlyDistinct(names: seq<string>)
    requires Distinct(names)
    ensures Distinct(MarkdownOnly(names))
    ensures |MarkdownOnly(names)| == |MarkdownSet(names)|
  {
    if names == [] {
      assert MarkdownSet(names) == {};
    } else {
      var first, rest := names[0], names[1..];
      assert names == [first] + rest;
      assert first !in rest;
      MarkdownOnlyDistinct(rest);
      MarkdownSetNext(first, rest);
    }
  }

  lemma DocNamesDistinct(listing: Option<seq<string>>)
    requires Distinct(Listed(listing))
    ensures Distinct(DocNames(listing)) && StrictlyAscending(DocNames(listing))
    ensures |DocNames(listing)| == |MarkdownSet(Listed(listing))|
  {
    MarkdownOnlyDistinct(Listed(listing));
    if listing.Some? {
      var kept := MarkdownOnly(listing.value);
      DistinctByMultiset(kept, SortNames(kept));
      SortedDistinctAscends(SortNames(kept));
      assert |multiset(kept)| == |multiset(SortNames(kept))|;
    } else {
      assert MarkdownSet(Listed(listing)) == {};
    }
  }

  // ---------- Disjoint groups of paths ----------

  /** The character that tells the five groups of covered paths apart. */
  function Mark(path: string): (bool, char) {
    if path == "" then (false, ' ')
    else if path[0] != '.' || |path| <= 10 then (false, path[0])
    else (true, path[10])
  }

  lemma MarkInDirectory(dir: string, names: seq<string>)
    requires |dir| > 10 && dir[0] == '.'
    ensures forall p :: p in InDirectory(dir, names) ==> Mark(p) == (true, dir[10])
  {
    forall p | p in InDirectory(dir, names) ensures Mark(p) == (true, dir[10]) {
      var i :| 0 <= i < |names| && p == dir + names[i];
    }
  }

  lemma TopLevel(names: seq<string>)
    ensures InDirectory("", names) == names
  {
    forall i | 0 <= i < |names| ensures "" + names[i] == names[i] {
    }
  }

  lemma InDirectoryDistinct(dir: string, names: seq<string>)
    requires Distinct(names)
    ensures Distinct(InDirectory(dir, names))
  {
    forall i, j | 0 <= i < j < |names| ensures dir + names[i] != dir + names[j] {
      assert (dir + names[i])[|dir|..] == names[i];
      assert (dir + names[j])[|dir|..] == names[j];
    }
  }

  lemma DistinctConcat(a: seq<string>, b: seq<string>)
    requires Distinct(a) && Distinct(b)
    requires forall x, y :: x in a && y in b ==> x != y
    ensures Distinct(a + b)
  {
    forall i, j | 0 <= i < j < |a + b| ensures (a + b)[i] != (a + b)[j] {
      if i < |a| <= j {
        assert (a + b)[i] in a && (a + b)[j] in b;
      }
    }
  }

  lemma RequirementDocsDistinct()
    ensures Distinct(CORE_REQUIREMENT_DOCS)
  {
    var firsts := seq(6, i requires 0 <= i < 6 => CORE_REQUIREMENT_DOCS[i][0]);
    assert firsts == ['系', '接', '数', '安', '测', '运'];
    forall i, j | 0 <= i < j < 6 ensures CORE_REQUIREMENT_DOCS[i] != CORE_REQUIREMENT_DOCS[j] {
      assert firsts[i] != firsts[j];
    }
  }

  lemma DirectoryMarks()
    ensures |REQUIREMENTS_DIR| > 10 && REQUIREMENTS_DIR[0] == '.' && REQUIREMENTS_DIR[10] == 'c'
    ensures |RULES_DIR| > 10 && RULES_DIR[0] == '.' && RULES_DIR[10] == 'r'
    ensures |AGENTS_DIR| > 10 && AGENTS_DIR[0] == '.' && AGENTS_DIR[10] == 'a'
  {
  }

  lemma FixedMarks()
    ensures forall p :: p in InDirectory("", [CONTRACT]) ==> Mark(p) == (false, 'c')
    ensures forall p :: p in InDirectory("", [AGENTS_DOC, REFERENCE_DOC]) ==> Mark(p) in {(false, 'A'), (false, 'P')}
    ensures Distinct(InDirectory("", [CONTRACT])) && Distinct(InDirectory("", [AGENTS_DOC, REFERENCE_DOC]))
  {
    TopLevel([CONTRACT]);
    TopLevel([AGENTS_DOC, REFERENCE_DOC]);
  }

  lemma MarkedGroupsDistinct(a: seq<string>, b: seq<string>, c: seq<string>, d: seq<string>, e: seq<string>)
    requires Distinct(a) && Distinct(b) && Distinct(c) && Distinct(d) && Distinct(e)
    requires forall p :: p in a ==> Mark(p) == (false, 'c')
    requires forall p :: p in b ==> Mark(p) == (true, 'c')
    requires forall p :: p in c ==> Mark(p) == (true, 'r')
    requires forall p :: p in d ==> Mark(p) == (true, 'a')
    requires forall p :: p in e ==> Mark(p) in {(false, 'A'), (false, 'P')}
    ensures Distinct(a + b + c + d + e)
  {
    DistinctConcat(a, b);
    DistinctConcat(a + b, c);
    DistinctConcat(a + b + c, d);
    DistinctConcat(a + b + c + d, e);
  }

  /** For duplicate-free listings no covered path occurs twice, so no `chain.set` overwrites an earlier key. */
  lemma TargetsDistinct(s: Snapshot)
    requires Distinct(Listed(s.rules)) && Distinct(Listed(s.agents))
    ensures Distinct(TargetPaths(s))
  {
    var rules, agents := DocNames(s.rules), DocNames(s.agents);
    DocNamesDistinct(s.rules);
    DocNamesDistinct(s.agents);
    DirectoryMarks();
    MarkInDirectory(REQUIREMENTS_DIR, CORE_REQUIREMENT_DOCS);
    MarkInDirectory(RULES_DIR, rules);
    MarkInDirectory(AGENTS_DIR, agents);
    RequirementDocsDistinct();
    InDirectoryDistinct(REQUIREMENTS_DIR, CORE_REQUIREMENT_DOCS);
    InDirectoryDistinct(RULES_DIR, rules);
    InDirectoryDistinct(AGENTS_DIR, agents);
    FixedMarks();
    MarkedGroupsDistinct(InDirectory("", [CONTRACT]), RequirementPaths(), InDirectory(RULES_DIR, rules),
                         InDirectory(AGENTS_DIR, agents), InDirectory("", [AGENTS_DOC, REFERENCE_DOC]));
  }

  // ---------- The chain ----------

  /**
   * Shape of the chain for duplicate-free listings: contract, the requirement docs in declared order, the rules
   * and then the agents in strictly ascending order, the two project documents; nine entries and one for each
   * Markdown name, each with the hash of its own file.
   */
  lemma ChainShape(sha: Digest, s: Snapshot)
    requires Distinct(Listed(s.rules)) && Distinct(Listed(s.agents))
    ensures var chain, rules, agents := ChainOf(sha, s), DocNames(s.rules), DocNames(s.agents);
            && Paths(chain) == [CONTRACT] + RequirementPaths() + InDirectory(RULES_DIR, rules)
                               + InDirectory(AGENTS_DIR, agents) + [AGENTS_DOC, REFERENCE_DOC]
            && StrictlyAscending(rules) && StrictlyAscending(agents)
            && |chain| == 9 + |MarkdownSet(Listed(s.rules))| + |MarkdownSet(Listed(s.agents))|
            && forall e :: e in chain ==> e.hash == ComputeFileHash(sha, s.files, e.path)
  {
    TargetsDistinct(s);
    FillInOrder(Validator, sha, s.files, TargetPaths(s));
    FillPaths(Validator, sha, s.files, TargetPaths(s));
    DocNamesDistinct(s.rules);
    DocNamesDistinct(s.agents);
    TopLevel([CONTRACT]);
    TopLevel([AGENTS_DOC, REFERENCE_DOC]);
  }

  lemma FillPaths(hasher: Hasher, sha: Digest, files: Files, paths: seq<string>)
    requires Distinct(paths)
    ensures Paths(Fill(hasher, sha, files, paths)) == paths
    ensures forall e :: e in Fill(hasher, sha, files, paths) ==> e.hash == HashBy(hasher, sha, files, e.path)
  {
    FillInOrder(hasher, sha, files, paths);
  }

  /** Directory order is irrelevant: permuted listings give the same paths in the same order, hence the same chain. */
  lemma ListingOrderIrrelevant(sha: Digest, s: Snapshot, s': Snapshot)
    requires s.files == s'.files
    requires multiset(Listed(s.rules)) == multiset(Listed(s'.rules))
    requires multiset(Listed(s.agents)) == multiset(Listed(s'.agents))
    ensures TargetPaths(s) == TargetPaths(s') && ChainOf(sha, s) == ChainOf(sha, s')
  {
    DocNamesIgnoreOrder(s.rules, s'.rules);
    DocNamesIgnoreOrder(s.agents, s'.agents);
  }

  // ---------- Covered paths as a property of the path ----------

  /** The nine paths that are covered whether or not the file exists. */
  predicate Fixed(path: string) {
    path == CONTRACT || path in RequirementPaths() || path == AGENTS_DOC || path == REFERENCE_DOC
  }

  predicate DocIn(dir: string, path: string) {
    && |dir| <= |path| && path[..|dir|] == dir
    && '/' !in path[|dir|..]
    && IsMarkdown(path[|dir|..])
  }

  /** The paths the chain may ever cover. */
  predicate Tracked(path: string) {
    Fixed(path) || DocIn(RULES_DIR, path) || DocIn(AGENTS_DIR, path)
  }

  /** A listing agrees with the files: distinct slash-free names, and a document is listed exactly when it exists. */
  ghost predicate Mirrors(files: Files, dir: string, listing: Option<seq<string>>) {
    && Distinct(Listed(listing))
    && (forall f :: f in Listed(listing) ==> '/' !in f)
    && (forall path :: DocIn(dir, path) ==> (path in files <==> path[|dir|..] in Listed(listing)))
  }

  /** What a file system guarantees of one snapshot: matching listings, and no path both a file and a directory. */
  ghost predicate Consistent(s: Snapshot) {
    && Mirrors(s.files, RULES_DIR, s.rules)
    && Mirrors(s.files, AGENTS_DIR, s.agents)
    && forall path :: path in s.files ==> path !in s.dirs
  }

  lemma DirectoryTargets(files: Files, dir: string, listing: Option<seq<string>>, path: string)
    requires Mirrors(files, dir, listing)
    ensures path in InDirectory(dir, DocNames(listing)) <==> DocIn(dir, path) && path in files
  {
    var names := DocNames(listing);
    if path in InDirectory(dir, names) {
      var i :| 0 <= i < |names| && path == dir + names[i];
      DocNamesMember(listing, names[i]);
      assert path[|dir|..] == names[i];
    }
    if DocIn(dir, path) && path in files {
      DocNamesMember(listing, path[|dir|..]);
      var i :| 0 <= i < |names| && names[i] == path[|dir|..];
      assert path == dir + names[i] == InDirectory(dir, names)[i];
    }
  }

  /** On a consistent snapshot the chain covers the nine fixed paths and every tracked file that exists. */
  lemma TargetsAre(s: Snapshot, path: string)
    requires Consistent(s)
    ensures path in TargetPaths(s) <==> Fixed(path) || (Tracked(path) && path in s.files)
  {
    TopLevel([CONTRACT]);
    TopLevel([AGENTS_DOC, REFERENCE_DOC]);
    DirectoryTargets(s.files, RULES_DIR, s.rules, path);
    DirectoryTargets(s.files, AGENTS_DIR, s.agents, path);
  }

  /** Without any assumption on the listings, the fixed paths are covered and every listed document is. */
  lemma FixedAreTargets(s: Snapshot, path: string)
    requires Fixed(path)
    ensures path in TargetPaths(s)
  {
    TopLevel([CONTRACT]);
    TopLevel([AGENTS_DOC, REFERENCE_DOC]);
    var paths := TargetPaths(s);
    assert paths[0] == CONTRACT;
    assert paths[|paths| - 2] == AGENTS_DOC && paths[|paths| - 1] == REFERENCE_DOC;
  }

  /** A chain entry reads MISSING exactly when its file is absent; on a consistent snapshot only a fixed path can. */
  lemma MissingOnlyFixed(sha: Digest, s: Snapshot, path: string)
    requires Consistent(s)
    ensures Lookup(ChainOf(sha, s), path) == Some(MISSING) <==> Fixed(path) && path !in s.files
  {
    FillLookup(Validator, sha, s.files, TargetPaths(s), path);
    MissingIffAbsent(Validator, sha, s.files, path);
    TargetsAre(s, path);
  }

  // ---------- YAML among the covered paths ----------

  lemma YamlFile(path: string, dot: nat)
    requires 0 < dot < |path| && path[dot..] == ".yaml"
    requires '/' !in path
    ensures IsYaml(path)
  {
    BaseNameAt(path, 0);
    assert path[..] == path;
    var name := ToLower(path);
    forall i | dot <= i < |path| ensures name[i] == path[i] {
      assert path[i] == ".yaml"[i - dot];
    }
    assert name[dot..] == path[dot..];
    ExtensionIs(path, ".yaml");
  }

  lemma ContractSpelling()
    ensures |CONTRACT| == 13 && CONTRACT[8..] == ".yaml" && '/' !in CONTRACT
  {
  }

  lemma ContractIsYaml()
    ensures IsYaml(CONTRACT)
  {
    ContractSpelling();
    YamlFile(CONTRACT, 8);
  }

  lemma SuffixEndsWith(dir: string, name: string)
    requires IsMarkdown(name)
    ensures IsMarkdown(dir + name)
  {
    assert (dir + name)[|dir| + |name| - 3..] == name[|name| - 3..];
  }

  /** Of all covered paths only the contract may lose a header line. */
  lemma OnlyContractIsYaml(path: string)
    requires Tracked(path)
    ensures IsYaml(path) <==> path == CONTRACT
  {
    if path == CONTRACT {
      ContractIsYaml();
    } else {
      if path in RequirementPaths() {
        var i :| 0 <= i < |CORE_REQUIREMENT_DOCS| && path == REQUIREMENTS_DIR + CORE_REQUIREMENT_DOCS[i];
        assert IsMarkdown(CORE_REQUIREMENT_DOCS[i]);
        SuffixEndsWith(REQUIREMENTS_DIR, CORE_REQUIREMENT_DOCS[i]);
      } else if DocIn(RULES_DIR, path) {
        SuffixEndsWith(RULES_DIR, path[|RULES_DIR|..]);
        assert path == RULES_DIR + path[|RULES_DIR|..];
      } else if DocIn(AGENTS_DIR, path) {
        SuffixEndsWith(AGENTS_DIR, path[|AGENTS_DIR|..]);
        assert path == AGENTS_DIR + path[|AGENTS_DIR|..];
      }
      assert IsMarkdown(path);
      MarkdownIsNotYaml(path);
    }
  }

  // ---------- Covered paths are written as they resolve ----------

  lemma MarkdownIsPlain(name: string)
    requires IsMarkdown(name) && Lacks('/', name)
    ensures Plain(name)
  {
  }

  lemma RequirementDocsArePlain(i: nat)
    requires i < 6
    ensures Plain(CORE_REQUIREMENT_DOCS[i])
  {
    assert IsMarkdown(CORE_REQUIREMENT_DOCS[i]);
    assert Lacks('/', CORE_REQUIREMENT_DOCS[i]);
    MarkdownIsPlain(CORE_REQUIREMENT_DOCS[i]);
  }

  lemma DirectorySpelling(name: string)
    ensures Join('/', [".opencode", "rules", name]) == RULES_DIR + name
    ensures Join('/', [".opencode", "agents", name]) == AGENTS_DIR + name
    ensures Join('/', [".opencode", "context", "requirements", name]) == REQUIREMENTS_DIR + name
  {
    JoinThree(".opencode", "rules", name);
    JoinThree(".opencode", "agents", name);
    JoinFour(".opencode", "context", "requirements", name);
  }

  lemma JoinTwo(a: string, name: string)
    ensures Join('/', [a, name]) == a + "/" + name
  {
    assert [a, name][1..] == [name];
    assert Join('/', [name]) == name;
  }

  lemma JoinThree(a: string, b: string, name: string)
    ensures Join('/', [a, b, name]) == a + "/" + b + "/" + name
  {
    JoinTwo(b, name);
    assert [a, b, name][1..] == [b, name];
    assert a + "/" + (b + "/" + name) == a + "/" + b + "/" + name;
  }

  lemma JoinFour(a: string, b: string, c: string, name: string)
    ensures Join('/', [a, b, c, name]) == a + "/" + b + "/" + c + "/" + name
  {
    JoinThree(b, c, name);
    assert [a, b, c, name][1..] == [b, c, name];
    assert a + "/" + (b + "/" + c + "/" + name) == a + "/" + b + "/" + c + "/" + name;
  }

  lemma DirectoryDocIsItself(root: seq<string>, name: string)
    requires Plain(name)
    ensures Locate(root, RULES_DIR + name) == RULES_DIR + name
    ensures Locate(root, AGENTS_DIR + name) == AGENTS_DIR + name
    ensures Locate(root, REQUIREMENTS_DIR + name) == REQUIREMENTS_DIR + name
  {
    DirectorySpelling(name);
    PlainPathIsItself(root, [".opencode", "rules", name]);
    PlainPathIsItself(root, [".opencode", "agents", name]);
    PlainPathIsItself(root, [".opencode", "context", "requirements", name]);
  }

  lemma TopLevelDocIsItself(root: seq<string>, name: string)
    requires Plain(name)
    ensures Locate(root, name) == name
  {
    PlainPathIsItself(root, [name]);
  }

  lemma RequirementIsItself(root: seq<string>, path: string)
    requires path in RequirementPaths()
    ensures Locate(root, path) == path
  {
    var i :| 0 <= i < |CORE_REQUIREMENT_DOCS| && path == REQUIREMENTS_DIR + CORE_REQUIREMENT_DOCS[i];
    RequirementDocsArePlain(i);
    DirectoryDocIsItself(root, CORE_REQUIREMENT_DOCS[i]);
  }

  lemma ListedDocIsItself(root: seq<string>, dir: string, path: string)
    requires dir == RULES_DIR || dir == AGENTS_DIR
    requires DocIn(dir, path)
    ensures Locate(root, path) == path
  {
    assert path == dir + path[|dir|..];
    MarkdownIsPlain(path[|dir|..]);
    DirectoryDocIsItself(root, path[|dir|..]);
  }

  lemma TopLevelNamesArePlain()
    ensures Plain(CONTRACT) && Plain(AGENTS_DOC) && Plain(REFERENCE_DOC)
  {
  }

  /** Every tracked path resolves to itself, wherever the project lies: covered files are looked up as written. */
  lemma TrackedIsItself(root: seq<string>, path: string)
    requires Tracked(path)
    ensures Locate(root, path) == path
  {
    if path == CONTRACT || path == AGENTS_DOC || path == REFERENCE_DOC {
      TopLevelNamesArePlain();
      TopLevelDocIsItself(root, path);
    } else if path in RequirementPaths() {
      RequirementIsItself(root, path);
    } else if DocIn(RULES_DIR, path) {
      ListedDocIsItself(root, RULES_DIR, path);
    } else {
      ListedDocIsItself(root, AGENTS_DIR, path);
    }
  }

  lemma HashAsWritten(sha: Digest, root: seq<string>, files: Files, path: string)
    requires Locate(root, path) == path
    ensures HashWritten(sha, root, files, path) == ComputeFileHash(sha, files, path)
  {
  }

  /** On tracked paths `computeFileHash` sees the file of that very name. */
  lemma TrackedHashAsWritten(sha: Digest, root: seq<string>, files: Files, path: string)
    requires Tracked(path)
    ensures HashWritten(sha, root, files, path) == ComputeFileHash(sha, files, path)
  {
    TrackedIsItself(root, path);
    HashAsWritten(sha, root, files, path);
  }

  lemma DirectoryDocIsNotFixed(dir: string, path: string)
    requires dir == RULES_DIR || dir == AGENTS_DIR
    requires DocIn(dir, path)
    ensures !Fixed(path) && Mark(path) == (true, dir[10])
  {
    DirectoryMarks();
    MarkInDirectory(REQUIREMENTS_DIR, CORE_REQUIREMENT_DOCS);
    assert path[0] == dir[0] && path[10] == dir[10] by {
      assert path[..|dir|][0] == path[0] && path[..|dir|][10] == path[10];
    }
    assert Mark(path) == (true, dir[10]);
  }

  lemma MachineMark()
    ensures Mark(MACHINE_PATH) == (true, 's')
  {
  }

  /** The machine file is not itself covered. */
  lemma MachineIsNotTracked()
    ensures !Tracked(MACHINE_PATH)
  {
    MachineMark();
    DirectoryMarks();
    MarkInDirectory(REQUIREMENTS_DIR, CORE_REQUIREMENT_DOCS);
    if DocIn(RULES_DIR, MACHINE_PATH) {
      DirectoryDocIsNotFixed(RULES_DIR, MACHINE_PATH);
    } else if DocIn(AGENTS_DIR, MACHINE_PATH) {
      DirectoryDocIsNotFixed(AGENTS_DIR, MACHINE_PATH);
    }
  }
}
