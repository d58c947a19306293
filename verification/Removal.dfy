/** How verdict and report change when a file is deleted or, read backwards, added. */
module Removal {
  import opened Bundle
  import opened BundleProperties
  import opened Chain
  import opened ChainProperties
  import opened FileHash
  import opened Tables
  import opened Wrappers

  // ---------- The verdict ----------

  /** `validateBundle` returns, without throwing, and its verdict is true. */
  predicate Passes(sha: Digest, json: Json, s: Snapshot) {
    ReportOn(sha, json, s).passed && !CannotBuild(s)
  }

  /** A hash, empty or not, is stored for the path. */
  predicate Recorded(json: Json, files: Files, path: string) {
    var hashes := StoredHashes(ReadMachine(json, files));
    hashes.Some? && Has(hashes.value, path)
  }

  predicate IsDocFolder(path: string) {
    path == RULES_FOLDER || path == AGENTS_FOLDER
  }

  lemma ReportOnTable(sha: Digest, json: Json, s: Snapshot, stored: Table)
    requires StoredHashes(ReadMachine(json, s.files)) == Some(stored)
    ensures ReportOn(sha, json, s) == BundleReport(sha, s, Parsed(Some(stored)))
  {
  }

  /** What passing asks of the files, given the stored hashes. */
  ghost predicate FilesPass(sha: Digest, files: Files, hashes: Option<Table>) {
    && hashes.Some?
    && AllFixedPresent(files) && AllAccepted(sha, files, hashes.value) && ListingsReadable(files)
  }

  /** Passing on a consistent snapshot, in terms of its files and the stored hashes. */
  lemma PassesOnFiles(sha: Digest, json: Json, s: Snapshot)
    requires Consistent(s)
    ensures Passes(sha, json, s) <==> FilesPass(sha, s.files, StoredHashes(ReadMachine(json, s.files)))
  {
    var hashes := StoredHashes(ReadMachine(json, s.files));
    if hashes.Some? {
      ReportOnTable(sha, json, s, hashes.value);
      FileVerdict(sha, s, hashes.value);
      if ReportOn(sha, json, s).passed {
        PassingCoversFiles(sha, s, ReadMachine(json, s.files));
      }
    }
  }

  lemma AcceptedAcross(sha: Digest, files: Files, path: string, stored: Table)
    ensures AllAccepted(sha, files - {path}, stored) <==>
            !Has(stored, path) && AllAccepted(sha, files, stored)
  {
    if Has(stored, path) {
      LookupIffEntry(stored, path, Lookup(stored, path).value);
      assert !Accepted(sha, files - {path}, Entry(path, Lookup(stored, path).value));
    } else {
      forall e | e in stored ensures Accepted(sha, files - {path}, e) <==> Accepted(sha, files, e) {
        LookupIffEntry(stored, e.path, e.hash);
      }
    }
  }

  lemma FilesPassAcross(sha: Digest, files: Files, path: string, stored: Table)
    requires path in files
    ensures !IsDocFolder(path) ==>
              (FilesPass(sha, files - {path}, Some(stored)) <==>
               FilesPass(sha, files, Some(stored)) && !Fixed(path) && !Has(stored, path))
    ensures IsDocFolder(path) ==> !FilesPass(sha, files, Some(stored))
  {
    AcceptedAcross(sha, files, path, stored);
    assert !Fixed(path) ==> (AllFixedPresent(files - {path}) <==> AllFixedPresent(files));
    assert Fixed(path) ==> !AllFixedPresent(files - {path});
    assert !IsDocFolder(path) ==> (ListingsReadable(files - {path}) <==> ListingsReadable(files));
  }

  /** Two snapshots that differ in one file, absent from the first, which is not the machine file. */
  lemma OneFileApart(sha: Digest, json: Json, without: Snapshot, full: Snapshot, path: string)
    requires Consistent(without) && Consistent(full) && path != MACHINE_PATH
    requires path in full.files && without.files == full.files - {path}
    ensures ReadMachine(json, without.files) == ReadMachine(json, full.files)
    ensures !IsDocFolder(path) ==>
              (Passes(sha, json, without) <==>
               Passes(sha, json, full) && !Fixed(path) && !Recorded(json, full.files, path))
    ensures IsDocFolder(path) ==> !Passes(sha, json, full)
  {
    PassesOnFiles(sha, json, without);
    PassesOnFiles(sha, json, full);
    var hashes := StoredHashes(ReadMachine(json, full.files));
    if hashes.Some? {
      FilesPassAcross(sha, full.files, path, hashes.value);
    }
  }

  lemma TrackedIsNoFolder(path: string)
    requires Tracked(path)
    ensures !IsDocFolder(path)
  {
    FolderMarks();
    DirectoryMarks();
    MarkInDirectory(REQUIREMENTS_DIR, CORE_REQUIREMENT_DOCS);
    if DocIn(RULES_DIR, path) {
      assert |path| > |RULES_DIR|;
    } else if DocIn(AGENTS_DIR, path) {
      assert |path| > |AGENTS_DIR|;
    }
  }

  lemma FolderMarks()
    ensures Mark(RULES_FOLDER) == (true, 'r') && Mark(AGENTS_FOLDER) == (true, 'a')
    ensures |RULES_FOLDER| < |RULES_DIR| && |AGENTS_FOLDER| < |AGENTS_DIR|
    ensures |RULES_FOLDER| < |AGENTS_DIR| && |AGENTS_FOLDER| == |RULES_DIR|
  {
  }

  lemma StillBuilds(s: Snapshot, s': Snapshot, path: string)
    requires Consistent(s) && Consistent(s') && s'.files == s.files - {path}
    requires AllFixedPresent(s.files) && ListingsReadable(s.files)
    requires Fixed(path) ==> path !in s'.dirs
    ensures !CannotBuild(s')
  {
    forall p | p in TargetPaths(s') ensures p !in s'.dirs {
      TargetsAre(s', p);
    }
  }

  /**
   * Deleting a tracked file from a passing snapshot: validation still passes exactly when the file was neither one
   * of the nine fixed ones nor recorded. Otherwise it shows up in the report as MISSING, or as STALE; there is no
   * report only when a directory took the place of a fixed file.
   */
  lemma DeletionDetected(sha: Digest, json: Json, s: Snapshot, s': Snapshot, path: string)
    requires Consistent(s) && Consistent(s') && s'.files == s.files - {path}
    requires Tracked(path) && path in s.files && Passes(sha, json, s)
    ensures Passes(sha, json, s') <==> !Fixed(path) && !Recorded(json, s.files, path)
    ensures !(Fixed(path) && path in s'.dirs) ==> !CannotBuild(s')
    ensures StoredHashes(ReadMachine(json, s'.files)).Some?
    ensures var stored := StoredHashes(ReadMachine(json, s'.files)).value;
            && (Fixed(path) ==> HasStatus(sha, s', stored, path, MISSING_FILE))
            && (!Fixed(path) && Recorded(json, s.files, path) ==> HasStatus(sha, s', stored, path, STALE))
  {
    MachineIsNotTracked();
    TrackedIsNoFolder(path);
    OneFileApart(sha, json, s', s, path);
    PassesOnFiles(sha, json, s);
    if !(Fixed(path) && path in s'.dirs) {
      StillBuilds(s, s', path);
    }
    TargetsAre(s', path);
  }

  /**
   * Adding a file: the old snapshot passed exactly when the new one passes and the file is neither fixed nor
   * recorded nor the machine file; but a regular file in the place of a document directory always fails. In
   * particular new rule and agent files never break a passing snapshot.
   */
  lemma AdditionHarmless(sha: Digest, json: Json, s: Snapshot, s': Snapshot, path: string, text: string)
    requires Consistent(s) && Consistent(s') && path !in s.files && s'.files == s.files[path := text]
    ensures !IsDocFolder(path) ==>
              (Passes(sha, json, s) <==>
               && Passes(sha, json, s')
               && !Fixed(path) && path != MACHINE_PATH && !Recorded(json, s'.files, path))
    ensures IsDocFolder(path) ==> !Passes(sha, json, s')
  {
    if path == MACHINE_PATH {
      assert ReadMachine(json, s.files) == NoFile;
      assert !IsDocFolder(MACHINE_PATH);
    } else {
      assert s.files == s'.files - {path};
      OneFileApart(sha, json, s, s', path);
    }
  }
}
