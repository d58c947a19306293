/** What a report says about the files: verdict, partition of the paths, counts, effect of edits. */
module BundleProperties {
  import opened Bundle
  import opened Chain
  import opened ChainProperties
  import opened FileHash
  import opened Tables
  import opened Wrappers

  // ---------- Which results there are ----------

  lemma {:induction false} StaleMember(stored: seq<Entry>, chainPaths: set<string>, r: Result)
    ensures r in StaleResults(stored, chainPaths) <==>
            exists e :: e in stored && e.path !in chainPaths && r == StaleResult(e)
  {
    if stored == [] {
    } else {
      var init, last := stored[..|stored| - 1], stored[|stored| - 1];
      assert stored == init + [last];
      StaleMember(init, chainPaths, r);
    }
  }

  lemma ResultsMember(chain: Table, stored: Table, r: Result)
    ensures r in Results(chain, stored) <==>
            || (exists e :: e in chain && r == Classify(e, stored))
            || (exists e :: e in stored && !Has(chain, e.path) && r == StaleResult(e))
  {
    StaleMember(stored, KeySet(chain), r);
    forall e | e in stored ensures e.path in KeySet(chain) <==> Has(chain, e.path) {
      KeySetIsHas(chain, e.path);
    }
    var front := ChainResults(chain, stored);
    if r in front {
      var i :| 0 <= i < |front| && front[i] == r;
      assert chain[i] in chain;
    }
    if e :| e in chain && r == Classify(e, stored) {
      var i :| 0 <= i < |chain| && chain[i] == e;
      assert front[i] == r;
    }
  }

  /** Every result comes from a chain entry or from a stored entry outside the chain. */
  lemma Origin(chain: Table, stored: Table, r: Result) returns (e: Entry)
    requires r in Results(chain, stored)
    ensures (e in chain && r == Classify(e, stored)) || (e in stored && !Has(chain, e.path) && r == StaleResult(e))
  {
    ResultsMember(chain, stored, r);
    if c :| c in chain && r == Classify(c, stored) {
      e := c;
    } else {
      e :| e in stored && !Has(chain, e.path) && r == StaleResult(e);
    }
  }

  lemma {:induction false} CountZero(results: seq<Result>, status: Status)
    ensures Count(results, status) == 0 <==> forall r :: r in results ==> r.status != status
  {
    if results == [] {
    } else {
      var init, last := results[..|results| - 1], results[|results| - 1];
      assert results == init + [last];
      CountZero(init, status);
    }
  }

  // ---------- The verdict ----------

  /** The verdict as a statement about the two tables, without results or counters. */
  ghost predicate Agree(chain: Table, stored: Table) {
    && (forall e :: e in chain ==> e.hash != MISSING)
    && (forall e :: e in chain && Truthy(Lookup(stored, e.path)) ==> Lookup(stored, e.path) == Some(e.hash))
    && (forall e :: e in stored ==> Has(chain, e.path))
  }

  /** The verdict computed from two counters means that the tables agree. */
  lemma VerdictRefinement(chain: Table, stored: Table)
    ensures Reconcile(chain, stored).passed <==> Agree(chain, stored)
  {
    var results := Results(chain, stored);
    CountZero(results, MISSING_FILE);
    CountZero(results, MISMATCH);
    CountZero(results, STALE);
    if Agree(chain, stored) {
      forall r | r in results ensures r.status == OK || r.status == UNTRACKED {
        ResultsMember(chain, stored, r);
      }
    }
    if Reconcile(chain, stored).passed {
      forall e | e in chain
        ensures e.hash != MISSING && (Truthy(Lookup(stored, e.path)) ==> Lookup(stored, e.path) == Some(e.hash))
      {
        ResultsMember(chain, stored, Classify(e, stored));
      }
      forall e | e in stored ensures Has(chain, e.path) {
        ResultsMember(chain, stored, StaleResult(e));
      }
    }
  }

  // ---------- From tables to files ----------

  lemma ChainEntry(hasher: Hasher, sha: Digest, files: Files, paths: seq<string>, e: Entry)
    ensures e in Fill(hasher, sha, files, paths) <==> e.path in paths && e.hash == HashBy(hasher, sha, files, e.path)
  {
    FillLookup(hasher, sha, files, paths, e.path);
    LookupIffEntry(Fill(hasher, sha, files, paths), e.path, e.hash);
  }

  ghost predicate AllFixedPresent(files: Files) {
    forall path :: Fixed(path) ==> path in files
  }

  /** One stored entry is acceptable: its path is tracked, the file exists, and the hash is empty or right. */
  predicate Accepted(sha: Digest, files: Files, e: Entry) {
    && Tracked(e.path)
    && e.path in files
    && (e.hash == "" || e.hash == ComputeFileHash(sha, files, e.path))
  }

  /** The verdict for any list of covered paths: all exist, and each stored entry is covered and empty or right. */
  ghost predicate Sound(sha: Digest, files: Files, paths: seq<string>, stored: Table) {
    && (forall p :: p in paths ==> p in files)
    && (forall e :: e in stored ==> e.path in paths && (e.hash == "" || e.hash == ComputeFileHash(sha, files, e.path)))
  }

  lemma VerdictOnPaths(sha: Digest, files: Files, paths: seq<string>, stored: Table)
    ensures Reconcile(Fill(Validator, sha, files, paths), stored).passed <==> Sound(sha, files, paths, stored)
  {
    VerdictRefinement(Fill(Validator, sha, files, paths), stored);
    if Agree(Fill(Validator, sha, files, paths), stored) {
      AgreeIsSound(sha, files, paths, stored);
    }
    if Sound(sha, files, paths, stored) {
      SoundAgrees(sha, files, paths, stored);
    }
  }

  lemma AgreeIsSound(sha: Digest, files: Files, paths: seq<string>, stored: Table)
    requires Agree(Fill(Validator, sha, files, paths), stored)
    ensures Sound(sha, files, paths, stored)
  {
    var chain := Fill(Validator, sha, files, paths);
    forall p | p in paths ensures p in files {
      ChainEntry(Validator, sha, files, paths, Entry(p, ComputeFileHash(sha, files, p)));
      MissingIffAbsent(Validator, sha, files, p);
      assert Entry(p, ComputeFileHash(sha, files, p)) in chain;
    }
    forall e | e in stored
      ensures e.path in paths && (e.hash == "" || e.hash == ComputeFileHash(sha, files, e.path))
    {
      FillLookup(Validator, sha, files, paths, e.path);
      ChainEntry(Validator, sha, files, paths, Entry(e.path, ComputeFileHash(sha, files, e.path)));
      LookupIffEntry(stored, e.path, e.hash);
    }
  }

  lemma SoundAgrees(sha: Digest, files: Files, paths: seq<string>, stored: Table)
    requires Sound(sha, files, paths, stored)
    ensures Agree(Fill(Validator, sha, files, paths), stored)
  {
    var chain := Fill(Validator, sha, files, paths);
    forall e | e in chain
      ensures e.hash != MISSING && (Truthy(Lookup(stored, e.path)) ==> Lookup(stored, e.path) == Some(e.hash))
    {
      ChainEntry(Validator, sha, files, paths, e);
      MissingIffAbsent(Validator, sha, files, e.path);
      if Truthy(Lookup(stored, e.path)) {
        LookupIffEntry(stored, e.path, Lookup(stored, e.path).value);
      }
    }
    forall e | e in stored ensures Has(chain, e.path) {
      FillLookup(Validator, sha, files, paths, e.path);
    }
  }

  ghost predicate AllAccepted(sha: Digest, files: Files, stored: Table) {
    forall e :: e in stored ==> Accepted(sha, files, e)
  }

  lemma SoundIffAccepted(sha: Digest, s: Snapshot, stored: Table)
    requires Consistent(s)
    ensures Sound(sha, s.files, TargetPaths(s), stored) <==>
            AllFixedPresent(s.files) && AllAccepted(sha, s.files, stored)
  {
    if Sound(sha, s.files, TargetPaths(s), stored) {
      SoundIsAccepted(sha, s, stored);
    }
    if AllFixedPresent(s.files) && AllAccepted(sha, s.files, stored) {
      AcceptedIsSound(sha, s, stored);
    }
  }

  lemma SoundIsAccepted(sha: Digest, s: Snapshot, stored: Table)
    requires Consistent(s) && Sound(sha, s.files, TargetPaths(s), stored)
    ensures AllFixedPresent(s.files) && AllAccepted(sha, s.files, stored)
  {
    forall p | Fixed(p) ensures p in s.files {
      TargetsAre(s, p);
    }
    forall e | e in stored ensures Accepted(sha, s.files, e) {
      TargetsAre(s, e.path);
    }
  }

  lemma AcceptedIsSound(sha: Digest, s: Snapshot, stored: Table)
    requires Consistent(s) && AllFixedPresent(s.files) && AllAccepted(sha, s.files, stored)
    ensures Sound(sha, s.files, TargetPaths(s), stored)
  {
    forall p | p in TargetPaths(s) ensures p in s.files {
      TargetsAre(s, p);
    }
    forall e | e in stored
      ensures e.path in TargetPaths(s) && (e.hash == "" || e.hash == ComputeFileHash(sha, s.files, e.path))
    {
      assert Accepted(sha, s.files, e);
      TargetsAre(s, e.path);
    }
  }

  /**
   * The verdict on a consistent snapshot, in terms of files alone: the nine fixed files exist and every stored
   * entry is acceptable. Tracked files without a stored hash have no influence.
   */
  lemma FileVerdict(sha: Digest, s: Snapshot, stored: Table)
    requires Consistent(s)
    ensures BundleReport(sha, s, Parsed(Some(stored))).passed <==>
            AllFixedPresent(s.files) && AllAccepted(sha, s.files, stored)
  {
    VerdictOnPaths(sha, s.files, TargetPaths(s), stored);
    SoundIffAccepted(sha, s, stored);
  }

  /** On a consistent snapshot a passing report covers files only: no directory made its chain throw. */
  lemma PassingCoversFiles(sha: Digest, s: Snapshot, machine: MachineFile)
    requires Consistent(s) && BundleReport(sha, s, machine).passed
    ensures !CoversDirectory(s)
  {
    VerdictOnPaths(sha, s.files, TargetPaths(s), StoredHashes(machine).value);
  }

  // ---------- Partition of the paths ----------

  /** The status a path deserves, read off the covered paths, the files and the stored hashes. */
  predicate Deserves(sha: Digest, files: Files, paths: seq<string>, stored: Table, path: string, status: Status) {
    var covered, storedHash := path in paths, Lookup(stored, path);
    match status
    case MISSING_FILE => covered && path !in files
    case UNTRACKED => covered && path in files && !Truthy(storedHash)
    case MISMATCH =>
      covered && path in files && Truthy(storedHash) && storedHash.value != ComputeFileHash(sha, files, path)
    case OK => covered && path in files && storedHash == Some(ComputeFileHash(sha, files, path))
    case STALE => !covered && storedHash.Some?
  }

  predicate HasStatus(sha: Digest, s: Snapshot, stored: Table, path: string, status: Status) {
    Deserves(sha, s.files, TargetPaths(s), stored, path, status)
  }

  lemma ClassifyDeserves(sha: Digest, files: Files, paths: seq<string>, stored: Table, e: Entry)
    requires e in Fill(Validator, sha, files, paths)
    ensures Deserves(sha, files, paths, stored, e.path, Classify(e, stored).status)
  {
    ChainEntry(Validator, sha, files, paths, e);
    MissingIffAbsent(Validator, sha, files, e.path);
  }

  lemma StaleDeserves(sha: Digest, files: Files, paths: seq<string>, stored: Table, e: Entry)
    requires e in stored && !Has(Fill(Validator, sha, files, paths), e.path)
    ensures Deserves(sha, files, paths, stored, e.path, STALE)
  {
    FillLookup(Validator, sha, files, paths, e.path);
    LookupIffEntry(stored, e.path, e.hash);
  }

  lemma ReportedDeserves(sha: Digest, files: Files, paths: seq<string>, stored: Table, r: Result)
    requires r in Results(Fill(Validator, sha, files, paths), stored)
    ensures Deserves(sha, files, paths, stored, r.path, r.status)
  {
    var chain := Fill(Validator, sha, files, paths);
    var e := Origin(chain, stored, r);
    if e in chain && r == Classify(e, stored) {
      ClassifyDeserves(sha, files, paths, stored, e);
    } else {
      StaleDeserves(sha, files, paths, stored, e);
    }
  }

  lemma CoveredReported(sha: Digest, files: Files, paths: seq<string>, stored: Table, path: string)
    returns (r: Result)
    requires path in paths
    ensures r in Results(Fill(Validator, sha, files, paths), stored) && r.path == path
    ensures r == Classify(Entry(path, ComputeFileHash(sha, files, path)), stored)
  {
    var e := Entry(path, ComputeFileHash(sha, files, path));
    ChainEntry(Validator, sha, files, paths, e);
    r := Classify(e, stored);
    ResultsMember(Fill(Validator, sha, files, paths), stored, r);
  }

  lemma UncoveredReported(sha: Digest, files: Files, paths: seq<string>, stored: Table, path: string)
    returns (r: Result)
    requires path !in paths && Lookup(stored, path).Some?
    ensures r in Results(Fill(Validator, sha, files, paths), stored) && r.path == path && r.status == STALE
  {
    var e := Entry(path, Lookup(stored, path).value);
    FillLookup(Validator, sha, files, paths, path);
    LookupIffEntry(stored, path, e.hash);
    r := StaleResult(e);
    ResultsMember(Fill(Validator, sha, files, paths), stored, r);
  }

  lemma StatusOfCovered(sha: Digest, files: Files, paths: seq<string>, stored: Table, path: string, status: Status)
    requires path in paths && Deserves(sha, files, paths, stored, path, status)
    ensures Classify(Entry(path, ComputeFileHash(sha, files, path)), stored).status == status
  {
    MissingIffAbsent(Validator, sha, files, path);
  }

  lemma DeservedReported(sha: Digest, files: Files, paths: seq<string>, stored: Table, path: string, status: Status)
    returns (r: Result)
    requires Deserves(sha, files, paths, stored, path, status)
    ensures r in Results(Fill(Validator, sha, files, paths), stored) && r.path == path && r.status == status
  {
    if path in paths {
      r := CoveredReported(sha, files, paths, stored, path);
      StatusOfCovered(sha, files, paths, stored, path, status);
    } else {
      r := UncoveredReported(sha, files, paths, stored, path);
    }
  }

  /** A path is reported with a status exactly when it deserves that status. */
  lemma ReportedIffDeserved(sha: Digest, s: Snapshot, stored: Table, path: string, status: Status)
    ensures var results := BundleReport(sha, s, Parsed(Some(stored))).results;
            (exists r :: r in results && r.path == path && r.status == status) <==>
            HasStatus(sha, s, stored, path, status)
  {
    var results := Results(ChainOf(sha, s), stored);
    if r :| r in results && r.path == path && r.status == status {
      ReportedDeserves(sha, s.files, TargetPaths(s), stored, r);
    }
    if HasStatus(sha, s, stored, path, status) {
      var r := DeservedReported(sha, s.files, TargetPaths(s), stored, path, status);
    }
  }

  /** The other two fields of a result, in terms of the files and the stored hashes. */
  predicate FieldsRight(sha: Digest, files: Files, stored: Table, r: Result) {
    && r.expected == (if r.status == UNTRACKED then Some("N/A") else Lookup(stored, r.path))
    && r.actual == (match r.status
                    case MISSING_FILE => "FILE_NOT_FOUND"
                    case STALE => "NOT_IN_CHAIN"
                    case _ => ComputeFileHash(sha, files, r.path))
  }

  lemma ClassifyFields(sha: Digest, files: Files, stored: Table, e: Entry)
    requires e.hash == ComputeFileHash(sha, files, e.path)
    ensures FieldsRight(sha, files, stored, Classify(e, stored))
  {
    var r := Classify(e, stored);
    if e.hash == MISSING {
      assert r.status == MISSING_FILE;
    } else if !Truthy(Lookup(stored, e.path)) {
      assert r.status == UNTRACKED;
    } else if e.hash != Lookup(stored, e.path).value {
      assert r.status == MISMATCH;
    } else {
      assert r.status == OK;
    }
  }

  lemma StaleFields(sha: Digest, files: Files, stored: Table, e: Entry)
    requires e in stored
    ensures FieldsRight(sha, files, stored, StaleResult(e))
  {
    LookupIffEntry(stored, e.path, e.hash);
  }

  lemma FieldsOnPaths(sha: Digest, files: Files, paths: seq<string>, stored: Table, r: Result)
    requires r in Results(Fill(Validator, sha, files, paths), stored)
    ensures FieldsRight(sha, files, stored, r)
  {
    var chain := Fill(Validator, sha, files, paths);
    var e := Origin(chain, stored, r);
    if e in chain && r == Classify(e, stored) {
      ChainEntry(Validator, sha, files, paths, e);
      ClassifyFields(sha, files, stored, e);
    } else {
      StaleFields(sha, files, stored, e);
    }
  }

  lemma ReportedFields(sha: Digest, s: Snapshot, stored: Table, r: Result)
    requires r in BundleReport(sha, s, Parsed(Some(stored))).results
    ensures FieldsRight(sha, s.files, stored, r)
  {
    FieldsOnPaths(sha, s.files, TargetPaths(s), stored, r);
  }

  // ---------- What a passing report does not say ----------

  /** Every entry of the chain has its own hash stored. */
  ghost predicate AllStored(chain: Table, stored: Table) {
    forall e :: e in chain ==> Lookup(stored, e.path) == Some(e.hash)
  }

  /** Nothing is counted as untracked exactly when every entry has its own non-empty hash stored. */
  lemma UntrackedIsNotStored(chain: Table, stored: Table)
    requires Reconcile(chain, stored).passed
    ensures AllStored(chain, stored) && (forall e :: e in chain ==> e.hash != "") <==>
            Reconcile(chain, stored).untrackedCount == 0
  {
    var results := Results(chain, stored);
    VerdictRefinement(chain, stored);
    CountZero(results, UNTRACKED);
    forall e | e in chain
      ensures Lookup(stored, e.path) == Some(e.hash) && e.hash != "" <==> Classify(e, stored).status != UNTRACKED
      ensures Classify(e, stored) in results
    {
      ResultsMember(chain, stored, Classify(e, stored));
    }
    forall r | r in results && r.status == UNTRACKED ensures exists e :: e in chain && r == Classify(e, stored) {
      ResultsMember(chain, stored, r);
    }
  }

  lemma StoredOnPaths(sha: Digest, files: Files, paths: seq<string>, stored: Table)
    requires Sound(sha, files, paths, stored)
    ensures AllStored(Fill(Validator, sha, files, paths), stored) <==>
            forall p :: p in paths ==> Truthy(Lookup(stored, p))
  {
    var chain := Fill(Validator, sha, files, paths);
    if AllStored(chain, stored) {
      forall p | p in paths ensures Truthy(Lookup(stored, p)) {
        var e := Entry(p, ComputeFileHash(sha, files, p));
        ChainEntry(Validator, sha, files, paths, e);
        MissingIffAbsent(Validator, sha, files, p);
        assert e in chain;
      }
    }
    if forall p :: p in paths ==> Truthy(Lookup(stored, p)) {
      forall e | e in chain ensures Lookup(stored, e.path) == Some(e.hash) {
        ChainEntry(Validator, sha, files, paths, e);
        LookupIffEntry(stored, e.path, Lookup(stored, e.path).value);
      }
    }
  }

  /**
   * A passing report is summed up as "all hashes match". That every covered file has a matching stored hash is true
   * exactly when a non-empty hash is stored for every covered path.
   */
  lemma SummaryClaim(sha: Digest, s: Snapshot, stored: Table)
    requires BundleReport(sha, s, Parsed(Some(stored))).passed
    ensures AllStored(ChainOf(sha, s), stored) <==> forall p :: p in TargetPaths(s) ==> Truthy(Lookup(stored, p))
  {
    VerdictOnPaths(sha, s.files, TargetPaths(s), stored);
    StoredOnPaths(sha, s.files, TargetPaths(s), stored);
  }

  /** The stored entries are the chain entries, in whatever order. */
  ghost predicate SameEntries(chain: Table, stored: Table) {
    forall e :: e in stored <==> e in chain
  }

  lemma SameEntriesAllStored(chain: Table, stored: Table)
    ensures SameEntries(chain, stored) <==> AllStored(chain, stored) && forall e :: e in stored ==> Has(chain, e.path)
  {
    forall e: Entry ensures Lookup(stored, e.path) == Some(e.hash) <==> e in stored {
      LookupIffEntry(stored, e.path, e.hash);
    }
    if AllStored(chain, stored) && forall e :: e in stored ==> Has(chain, e.path) {
      forall e | e in stored ensures e in chain {
        var c := Entry(e.path, Lookup(chain, e.path).value);
        LookupIffEntry(chain, e.path, c.hash);
        assert Lookup(stored, c.path) == Some(c.hash);
      }
    }
    if SameEntries(chain, stored) {
      forall e | e in stored ensures Has(chain, e.path) {
        LookupIffEntry(chain, e.path, e.hash);
      }
    }
  }

  /** "All hashes match" in full: passed with nothing untracked means exactly that stored and computed tables agree
      entry by entry and no covered file is missing. */
  lemma FullMatch(sha: Digest, s: Snapshot, stored: Table)
    ensures var report := BundleReport(sha, s, Parsed(Some(stored)));
            report.passed && report.untrackedCount == 0 <==>
            (forall p :: p in TargetPaths(s) ==> p in s.files) && SameEntries(ChainOf(sha, s), stored)
  {
    FullMatchOnPaths(sha, s.files, TargetPaths(s), stored);
  }

  lemma FullMatchOnPaths(sha: Digest, files: Files, paths: seq<string>, stored: Table)
    ensures var chain := Fill(Validator, sha, files, paths);
            Reconcile(chain, stored).passed && Reconcile(chain, stored).untrackedCount == 0 <==>
            (forall p :: p in paths ==> p in files) && SameEntries(chain, stored)
  {
    var chain := Fill(Validator, sha, files, paths);
    VerdictOnPaths(sha, files, paths, stored);
    SameEntriesAllStored(chain, stored);
    forall e | e in chain ensures e.hash != "" {
      ChainEntry(Validator, sha, files, paths, e);
      MissingIffAbsent(Validator, sha, files, e.path);
    }
    if SameEntries(chain, stored) && forall p :: p in paths ==> p in files {
      SameEntriesAreSound(sha, files, paths, stored);
    }
    if Sound(sha, files, paths, stored) {
      forall e | e in stored ensures Has(chain, e.path) {
        FillLookup(Validator, sha, files, paths, e.path);
      }
    }
    if Reconcile(chain, stored).passed {
      UntrackedIsNotStored(chain, stored);
    }
  }

  lemma SameEntriesAreSound(sha: Digest, files: Files, paths: seq<string>, stored: Table)
    requires SameEntries(Fill(Validator, sha, files, paths), stored)
    requires forall p :: p in paths ==> p in files
    ensures Sound(sha, files, paths, stored)
  {
    forall e | e in stored
      ensures e.path in paths && (e.hash == "" || e.hash == ComputeFileHash(sha, files, e.path))
    {
      ChainEntry(Validator, sha, files, paths, e);
    }
  }

  /** An empty object of stored hashes passes as soon as the nine fixed files exist, and nothing is stored then. */
  lemma EmptyStorePasses(sha: Digest, s: Snapshot)
    requires Consistent(s)
    ensures BundleReport(sha, s, Parsed(Some([]))).passed <==> AllFixedPresent(s.files)
    ensures !AllStored(ChainOf(sha, s), [])
  {
    FileVerdict(sha, s, []);
    FixedAreTargets(s, CONTRACT);
    ChainEntry(Validator, sha, s.files, TargetPaths(s), Entry(CONTRACT, ComputeFileHash(sha, s.files, CONTRACT)));
    NothingInEmptyStore(ChainOf(sha, s), Entry(CONTRACT, ComputeFileHash(sha, s.files, CONTRACT)));
  }

  lemma NothingInEmptyStore(chain: Table, e: Entry)
    requires e in chain
    ensures !AllStored(chain, [])
  {
    assert Lookup([], e.path) == None;
  }
}
