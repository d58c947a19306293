/** Which results a deletion takes out of a report, changes and adds; read backwards, what an addition does. */
module RemovalLocality {
  import opened Bundle
  import opened Chain
  import opened ChainProperties
  import opened Edits
  import opened FileHash
  import opened StringOrder
  import opened Tables
  import opened Wrappers

  function RemoveAt<T>(s: seq<T>, k: nat): (r: seq<T>)
    requires k < |s|
    ensures |r| == |s| - 1
    ensures forall i :: 0 <= i < |r| ==> r[i] == s[if i < k then i else i + 1]
  {
    s[..k] + s[k + 1..]
  }

  function InsertAt<T>(s: seq<T>, k: nat, x: T): seq<T>
    requires k <= |s|
  {
    s[..k] + [x] + s[k..]
  }

  // ---------- Sorted names of a directory ----------

  lemma SameMembersSameMultiset(a: seq<string>, b: seq<string>)
    requires Distinct(a) && Distinct(b) && forall x :: x in a <==> x in b
    ensures multiset(a) == multiset(b)
  {
    forall x ensures multiset(a)[x] == multiset(b)[x] {
      OnceInMultiset(a, x);
      OnceInMultiset(b, x);
      assert x in a <==> x in multiset(a);
      assert x in b <==> x in multiset(b);
    }
  }

  /** A sorted duplicate-free list is determined by its members. */
  lemma SameMembersSameNames(a: seq<string>, b: seq<string>)
    requires Sorted(a) && Sorted(b) && Distinct(a) && Distinct(b) && forall x :: x in a <==> x in b
    ensures a == b
  {
    SameMembersSameMultiset(a, b);
    SortedPermutationUnique(a, b);
  }

  lemma RemoveAtMembers(s: seq<string>, k: nat)
    requires k < |s| && Distinct(s)
    ensures Distinct(RemoveAt(s, k))
    ensures forall x :: x in RemoveAt(s, k) <==> x in s && x != s[k]
  {
    var r := RemoveAt(s, k);
    forall x | x in s && x != s[k] ensures x in r {
      var i :| 0 <= i < |s| && s[i] == x;
      assert r[if i < k then i else i - 1] == x;
    }
  }

  lemma RemoveAtSorted(s: seq<string>, k: nat)
    requires k < |s| && Sorted(s)
    ensures Sorted(RemoveAt(s, k))
  {
  }

  /** The listings contain the same documents. */
  ghost predicate SameDocs(a: Option<seq<string>>, b: Option<seq<string>>) {
    forall x :: IsMarkdown(x) ==> (x in Listed(a) <==> x in Listed(b))
  }

  /** The second listing contains the documents of the first but one. */
  ghost predicate OneDocLess(a: Option<seq<string>>, b: Option<seq<string>>, name: string) {
    && name in Listed(a) && IsMarkdown(name)
    && forall x :: IsMarkdown(x) ==> (x in Listed(b) <==> x in Listed(a) && x != name)
  }

  lemma DocNamesSorted(listing: Option<seq<string>>)
    requires Distinct(Listed(listing))
    ensures Sorted(DocNames(listing)) && Distinct(DocNames(listing))
    ensures forall x :: x in DocNames(listing) <==> x in Listed(listing) && IsMarkdown(x)
  {
    DocNamesDistinct(listing);
    forall x ensures x in DocNames(listing) <==> x in Listed(listing) && IsMarkdown(x) {
      DocNamesMember(listing, x);
    }
  }

  lemma SameDocsSameNames(a: Option<seq<string>>, b: Option<seq<string>>)
    requires Distinct(Listed(a)) && Distinct(Listed(b)) && SameDocs(a, b)
    ensures DocNames(a) == DocNames(b)
  {
    DocNamesSorted(a);
    DocNamesSorted(b);
    SameMembersSameNames(DocNames(a), DocNames(b));
  }

  /** Filtering and sorting commute with taking out one name, whatever the two listing orders. */
  lemma OneDocLessOneNameLess(a: Option<seq<string>>, b: Option<seq<string>>, name: string) returns (k: nat)
    requires Distinct(Listed(a)) && Distinct(Listed(b)) && OneDocLess(a, b, name)
    ensures k < |DocNames(a)| && DocNames(a)[k] == name && DocNames(b) == RemoveAt(DocNames(a), k)
  {
    DocNamesSorted(a);
    DocNamesSorted(b);
    k :| 0 <= k < |DocNames(a)| && DocNames(a)[k] == name;
    RemoveAtMembers(DocNames(a), k);
    RemoveAtSorted(DocNames(a), k);
    SameMembersSameNames(DocNames(b), RemoveAt(DocNames(a), k));
  }

  // ---------- Covered paths ----------

  lemma ListingTells(files: Files, dir: string, listing: Option<seq<string>>, x: string)
    requires Mirrors(files, dir, listing) && IsMarkdown(x)
    ensures x in Listed(listing) <==> '/' !in x && dir + x in files
  {
    var path := dir + x;
    assert path[..|dir|] == dir && path[|dir|..] == x;
    if '/' !in x {
      assert DocIn(dir, path);
    }
  }

  /** A listing keeps its documents when the files of its directory stay. */
  lemma UnaffectedListing(a: Files, b: Files, dir: string, listA: Option<seq<string>>, listB: Option<seq<string>>,
                          path: string)
    requires Mirrors(a, dir, listA) && Mirrors(b, dir, listB) && b == a - {path} && !DocIn(dir, path)
    ensures DocNames(listA) == DocNames(listB)
  {
    forall x | IsMarkdown(x) ensures x in Listed(listA) <==> x in Listed(listB) {
      ListingTells(a, dir, listA, x);
      ListingTells(b, dir, listB, x);
      assert (dir + x)[..|dir|] == dir && (dir + x)[|dir|..] == x;
    }
    SameDocsSameNames(listA, listB);
  }

  lemma AffectedListing(a: Files, b: Files, dir: string, listA: Option<seq<string>>, listB: Option<seq<string>>,
                        path: string)
    returns (k: nat)
    requires Mirrors(a, dir, listA) && Mirrors(b, dir, listB) && b == a - {path} && path in a && DocIn(dir, path)
    ensures k < |DocNames(listA)| && dir + DocNames(listA)[k] == path
    ensures DocNames(listB) == RemoveAt(DocNames(listA), k)
  {
    var name := path[|dir|..];
    assert dir + name == path;
    forall x | IsMarkdown(x) ensures x in Listed(listB) <==> x in Listed(listA) && x != name {
      ListingTells(a, dir, listA, x);
      ListingTells(b, dir, listB, x);
      assert (dir + x)[|dir|..] == x;
    }
    k := OneDocLessOneNameLess(listA, listB, name);
  }

  lemma InDirectoryRemoveAt(dir: string, names: seq<string>, k: nat)
    requires k < |names|
    ensures InDirectory(dir, RemoveAt(names, k)) == RemoveAt(InDirectory(dir, names), k)
  {
  }

  lemma RemoveAtMiddle<T>(a: seq<T>, b: seq<T>, c: seq<T>, k: nat)
    requires k < |b|
    ensures RemoveAt(a + b + c, |a| + k) == a + RemoveAt(b, k) + c && (a + b + c)[|a| + k] == b[k]
  {
  }

  /** What stands before and behind the two directory groups among the covered paths. */
  lemma RuleOut(without: Snapshot, full: Snapshot, path: string, k: nat) returns (at: nat)
    requires DocNames(without.agents) == DocNames(full.agents)
    requires k < |DocNames(full.rules)| && RULES_DIR + DocNames(full.rules)[k] == path
    requires DocNames(without.rules) == RemoveAt(DocNames(full.rules), k)
    ensures at < |TargetPaths(full)| && TargetPaths(full)[at] == path
    ensures TargetPaths(without) == RemoveAt(TargetPaths(full), at)
  {
    at := GroupOut(InDirectory("", [CONTRACT]) + RequirementPaths(), RULES_DIR, DocNames(full.rules),
                   InDirectory(AGENTS_DIR, DocNames(full.agents)) + InDirectory("", [AGENTS_DOC, REFERENCE_DOC]), k);
    Regroup(InDirectory("", [CONTRACT]) + RequirementPaths(), InDirectory(RULES_DIR, DocNames(full.rules)),
            InDirectory(AGENTS_DIR, DocNames(full.agents)), InDirectory("", [AGENTS_DOC, REFERENCE_DOC]));
    Regroup(InDirectory("", [CONTRACT]) + RequirementPaths(), InDirectory(RULES_DIR, DocNames(without.rules)),
            InDirectory(AGENTS_DIR, DocNames(full.agents)), InDirectory("", [AGENTS_DOC, REFERENCE_DOC]));
  }

  lemma AgentOut(without: Snapshot, full: Snapshot, path: string, k: nat) returns (at: nat)
    requires DocNames(without.rules) == DocNames(full.rules)
    requires k < |DocNames(full.agents)| && AGENTS_DIR + DocNames(full.agents)[k] == path
    requires DocNames(without.agents) == RemoveAt(DocNames(full.agents), k)
    ensures at < |TargetPaths(full)| && TargetPaths(full)[at] == path
    ensures TargetPaths(without) == RemoveAt(TargetPaths(full), at)
  {
    at := GroupOut(InDirectory("", [CONTRACT]) + RequirementPaths() + InDirectory(RULES_DIR, DocNames(full.rules)),
                   AGENTS_DIR, DocNames(full.agents), InDirectory("", [AGENTS_DOC, REFERENCE_DOC]), k);
  }

  lemma Regroup<T>(a: seq<T>, b: seq<T>, c: seq<T>, d: seq<T>)
    ensures a + b + c + d == a + b + (c + d)
  {
  }

  lemma GroupOut(before: seq<string>, dir: string, names: seq<string>, behind: seq<string>, k: nat)
    returns (at: nat)
    requires k < |names|
    ensures at < |before + InDirectory(dir, names) + behind|
    ensures (before + InDirectory(dir, names) + behind)[at] == dir + names[k]
    ensures before + InDirectory(dir, RemoveAt(names, k)) + behind ==
            RemoveAt(before + InDirectory(dir, names) + behind, at)
  {
    InDirectoryRemoveAt(dir, names, k);
    RemoveAtMiddle(before, InDirectory(dir, names), behind, k);
    at := |before| + k;
  }

  lemma MarksTellDirectories(path: string)
    requires DocIn(RULES_DIR, path)
    ensures !DocIn(AGENTS_DIR, path)
  {
    DirectoryMarks();
    DirectoryDocIsNotFixed(RULES_DIR, path);
    if DocIn(AGENTS_DIR, path) {
      DirectoryDocIsNotFixed(AGENTS_DIR, path);
    }
  }

  /** Without one rule or agent file, its path drops out of the covered paths and the others keep their order. */
  lemma DocOut(without: Snapshot, full: Snapshot, path: string) returns (at: nat)
    requires Consistent(without) && Consistent(full) && without.files == full.files - {path} && path in full.files
    requires DocIn(RULES_DIR, path) || DocIn(AGENTS_DIR, path)
    ensures at < |TargetPaths(full)| && TargetPaths(full)[at] == path
    ensures TargetPaths(without) == RemoveAt(TargetPaths(full), at)
  {
    if DocIn(RULES_DIR, path) {
      MarksTellDirectories(path);
      UnaffectedListing(full.files, without.files, AGENTS_DIR, full.agents, without.agents, path);
      var k := AffectedListing(full.files, without.files, RULES_DIR, full.rules, without.rules, path);
      at := RuleOut(without, full, path, k);
    } else {
      UnaffectedListing(full.files, without.files, RULES_DIR, full.rules, without.rules, path);
      var k := AffectedListing(full.files, without.files, AGENTS_DIR, full.agents, without.agents, path);
      at := AgentOut(without, full, path, k);
    }
  }

  /** Without one fixed file, the covered paths stay. */
  lemma FixedStays(without: Snapshot, full: Snapshot, path: string)
    requires Consistent(without) && Consistent(full) && without.files == full.files - {path} && Fixed(path)
    ensures TargetPaths(without) == TargetPaths(full)
  {
    if DocIn(RULES_DIR, path) {
      DirectoryDocIsNotFixed(RULES_DIR, path);
    } else if DocIn(AGENTS_DIR, path) {
      DirectoryDocIsNotFixed(AGENTS_DIR, path);
    }
    UnaffectedListing(full.files, without.files, RULES_DIR, full.rules, without.rules, path);
    UnaffectedListing(full.files, without.files, AGENTS_DIR, full.agents, without.agents, path);
  }

  // ---------- Results ----------

  lemma ApartSameHash(sha: Digest, a: Files, b: Files, path: string, p: string)
    requires Apart(a, b, path) && p != path
    ensures HashBy(Validator, sha, a, p) == HashBy(Validator, sha, b, p)
  {
  }

  lemma EntryWithoutPath(sha: Digest, a: Files, b: Files, paths: seq<string>, k: nat, i: nat)
    requires Distinct(paths) && k < |paths| && Apart(a, b, paths[k]) && i < |paths| && i != k
    ensures Entry(paths[i], HashBy(Validator, sha, a, paths[i])) == Entry(paths[i], HashBy(Validator, sha, b, paths[i]))
  {
    ApartSameHash(sha, a, b, paths[k], paths[i]);
  }

  /** Taking a path out of a duplicate-free list takes its entry out of the table. */
  lemma TableWithout(sha: Digest, a: Files, b: Files, paths: seq<string>, k: nat)
    requires Distinct(paths) && k < |paths| && Apart(a, b, paths[k])
    ensures |Fill(Validator, sha, a, paths)| == |paths|
    ensures Fill(Validator, sha, b, RemoveAt(paths, k)) == RemoveAt(Fill(Validator, sha, a, paths), k)
  {
    RemoveAtMembers(paths, k);
    FillInOrder(Validator, sha, a, paths);
    FillInOrder(Validator, sha, b, RemoveAt(paths, k));
    InOrderWithout(sha, a, b, paths, k, Fill(Validator, sha, a, paths), Fill(Validator, sha, b, RemoveAt(paths, k)));
  }

  lemma InOrderWithout(sha: Digest, a: Files, b: Files, paths: seq<string>, k: nat, ta: seq<Entry>, tb: seq<Entry>)
    requires Distinct(paths) && k < |paths| && Apart(a, b, paths[k])
    requires InOrder(Validator, sha, a, paths, ta) && InOrder(Validator, sha, b, RemoveAt(paths, k), tb)
    ensures tb == RemoveAt(ta, k)
  {
    var rest := RemoveAt(ta, k);
    forall i | 0 <= i < |tb| ensures tb[i] == rest[i] {
      EntryWithoutPath(sha, a, b, paths, k, if i < k then i else i + 1);
    }
  }

  lemma ResultsWithout(chain: seq<Entry>, stored: Table, k: nat)
    requires k < |chain|
    ensures ChainResults(RemoveAt(chain, k), stored) == RemoveAt(ChainResults(chain, stored), k)
  {
  }

  lemma EntriesWithout(chain: Table, k: nat, e: Entry)
    requires k < |chain|
    ensures e in RemoveAt(chain, k) <==> e in chain && e.path != chain[k].path
  {
    var rest := RemoveAt(chain, k);
    if e in rest {
      var i :| 0 <= i < |rest| && rest[i] == e;
      assert rest[i] == chain[if i < k then i else i + 1];
    }
    if e in chain && e.path != chain[k].path {
      var i :| 0 <= i < |chain| && chain[i] == e;
      assert rest[if i < k then i else i - 1] == e;
    }
  }

  lemma KeysWithout(chain: Table, k: nat)
    requires k < |chain|
    ensures KeySet(RemoveAt(chain, k)) == KeySet(chain) - {chain[k].path}
  {
    forall e: Entry ensures e in RemoveAt(chain, k) <==> e in chain && e.path != chain[k].path {
      EntriesWithout(chain, k, e);
    }
  }

  lemma {:induction false} StaleUnchanged(stored: seq<Entry>, paths: set<string>, path: string)
    requires forall e :: e in stored ==> e.path != path
    ensures StaleResults(stored, paths - {path}) == StaleResults(stored, paths)
  {
    if stored == [] {
    } else {
      var init, last := stored[..|stored| - 1], stored[|stored| - 1];
      assert stored == init + [last];
      StaleUnchanged(init, paths, path);
      assert last.path != path;
    }
  }

  /** A stored path that leaves the chain adds one stale result, at its place in stored order. */
  lemma {:induction false} StaleInserted(stored: Table, paths: set<string>, e: Entry) returns (j: nat)
    requires e in stored && e.path in paths
    ensures j <= |StaleResults(stored, paths)|
    ensures StaleResults(stored, paths - {e.path}) == InsertAt(StaleResults(stored, paths), j, StaleResult(e))
  {
    var init, last := stored[..|stored| - 1], stored[|stored| - 1];
    assert stored == init + [last];
    if last == e {
      OtherPaths(init, last);
      StaleUnchanged(init, paths, e.path);
      j := |StaleResults(stored, paths)|;
    } else {
      assert e in init;
      j := StaleInserted(init, paths, e);
      OtherPaths(init, last);
      assert last.path != e.path;
    }
  }

  lemma OtherPaths(init: seq<Entry>, last: Entry)
    requires DistinctKeys(init + [last])
    ensures forall e :: e in init ==> e.path != last.path
  {
    forall e | e in init ensures e.path != last.path {
      var i :| 0 <= i < |init| && init[i] == e;
      assert (init + [last])[i].path != (init + [last])[|init|].path;
    }
  }

  /** The stale results once the path is outside the chain too. */
  ghost predicate StaleGrows(before: seq<Result>, after: seq<Result>, stored: Table, path: string) {
    if Has(stored, path) then
      var stale := StaleResult(Entry(path, Lookup(stored, path).value));
      exists j: nat :: j <= |before| && after == InsertAt(before, j, stale)
    else after == before
  }

  lemma StaleAfterRemoval(stored: Table, paths: set<string>, path: string)
    requires path in paths
    ensures StaleGrows(StaleResults(stored, paths), StaleResults(stored, paths - {path}), stored, path)
  {
    if Has(stored, path) {
      var e := Entry(path, Lookup(stored, path).value);
      LookupIffEntry(stored, path, e.hash);
      var j := StaleInserted(stored, paths, e);
    } else {
      forall e | e in stored ensures e.path != path {
        LookupIffEntry(stored, e.path, e.hash);
      }
      StaleUnchanged(stored, paths, path);
    }
  }

  /** The first n results lose the one at position k, the others gain at most one stale result for the path. */
  ghost predicate LosesOne(before: seq<Result>, after: seq<Result>, n: nat, k: nat, stored: Table, path: string) {
    && k < n <= |before| && n <= |after| + 1
    && before[k].path == path
    && after[..n - 1] == RemoveAt(before[..n], k)
    && StaleGrows(before[n..], after[n - 1..], stored, path)
  }

  lemma LosesOneOfTwoParts(front: seq<Result>, stale: seq<Result>, stale': seq<Result>, k: nat, stored: Table,
                           path: string)
    requires k < |front| && front[k].path == path && StaleGrows(stale, stale', stored, path)
    ensures LosesOne(front + stale, RemoveAt(front, k) + stale', |front|, k, stored, path)
  {
    var before, after := front + stale, RemoveAt(front, k) + stale';
    assert before[..|front|] == front && before[|front|..] == stale;
    assert after[..|front| - 1] == RemoveAt(front, k) && after[|front| - 1..] == stale';
  }

  lemma ResultsLoseOne(sha: Digest, a: Files, b: Files, paths: seq<string>, k: nat, stored: Table)
    requires Distinct(paths) && k < |paths| && Apart(a, b, paths[k])
    ensures LosesOne(Results(Fill(Validator, sha, a, paths), stored),
                     Results(Fill(Validator, sha, b, RemoveAt(paths, k)), stored), |paths|, k, stored, paths[k])
  {
    var chain := Fill(Validator, sha, a, paths);
    TableWithout(sha, a, b, paths, k);
    FillInOrder(Validator, sha, a, paths);
    ChainLosesOne(chain, Fill(Validator, sha, b, RemoveAt(paths, k)), stored, k);
  }

  lemma ShorterResults(chain: Table, shorter: Table, stored: Table, k: nat)
    requires k < |chain| && shorter == RemoveAt(chain, k)
    ensures Results(shorter, stored) ==
            RemoveAt(ChainResults(chain, stored), k) + StaleResults(stored, KeySet(chain) - {chain[k].path})
  {
    ResultsWithout(chain, stored, k);
    KeysWithout(chain, k);
  }

  lemma ChainPathIsKey(chain: Table, stored: Table, k: nat)
    requires k < |chain|
    ensures chain[k].path in KeySet(chain) && ChainResults(chain, stored)[k].path == chain[k].path
  {
    assert chain[k] in chain;
  }

  lemma ChainLosesOne(chain: Table, shorter: Table, stored: Table, k: nat)
    requires k < |chain| && shorter == RemoveAt(chain, k)
    ensures LosesOne(Results(chain, stored), Results(shorter, stored), |chain|, k, stored, chain[k].path)
  {
    var path, paths := chain[k].path, KeySet(chain);
    ShorterResults(chain, shorter, stored, k);
    ChainPathIsKey(chain, stored, k);
    StaleAfterRemoval(stored, paths, path);
    LosesOneOfTwoParts(ChainResults(chain, stored), StaleResults(stored, paths), StaleResults(stored, paths - {path}),
                       k, stored, path);
  }

  /**
   * Deleting a rule or agent file takes exactly its own result out of the chain part of the report and keeps all
   * others in order; the stale part gains the path, at its place in stored order, exactly when a hash is stored.
   */
  lemma DocRemovalIsLocal(sha: Digest, without: Snapshot, full: Snapshot, path: string, stored: Table)
    returns (n: nat, k: nat)
    requires Consistent(without) && Consistent(full) && without.files == full.files - {path} && path in full.files
    requires DocIn(RULES_DIR, path) || DocIn(AGENTS_DIR, path)
    ensures n == |TargetPaths(full)|
    ensures LosesOne(BundleReport(sha, full, Parsed(Some(stored))).results,
                     BundleReport(sha, without, Parsed(Some(stored))).results, n, k, stored, path)
  {
    n := |TargetPaths(full)|;
    k := DocOut(without, full, path);
    TargetsDistinct(full);
    ResultsLoseOne(sha, full.files, without.files, TargetPaths(full), k, stored);
  }

  /** Deleting a fixed file changes one result, the one at its place, which becomes MISSING. */
  lemma FixedRemovalIsLocal(sha: Digest, without: Snapshot, full: Snapshot, path: string, stored: Table)
    returns (k: nat)
    requires Consistent(without) && Consistent(full) && without.files == full.files - {path} && Fixed(path)
    ensures ChangesOnly(BundleReport(sha, full, Parsed(Some(stored))).results,
                        BundleReport(sha, without, Parsed(Some(stored))).results, k,
                        Classify(Entry(path, ComputeFileHash(sha, full.files, path)), stored),
                        Result(path, MISSING_FILE, Lookup(stored, path), "FILE_NOT_FOUND"))
  {
    FixedStays(without, full, path);
    FixedAreTargets(full, path);
    k := ChangedResults(sha, full.files, without.files, TargetPaths(full), path, stored);
    MissingIffAbsent(Validator, sha, without.files, path);
  }
}
