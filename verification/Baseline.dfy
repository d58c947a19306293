/** Taking a baseline of one snapshot and validating another against it. */
module Baseline {
  import opened Bundle
  import opened BundleProperties
  import opened Chain
  import opened ChainProperties
  import opened FileHash
  import opened Lines
  import opened Tables
  import opened Wrappers

  /** The stored hashes that a baseline of the snapshot consists of. */
  function BaselineOf(hasher: Hasher, sha: Digest, s: Snapshot): Table {
    Fill(hasher, sha, s.files, TargetPaths(s))
  }

  /** `integrity-chain-bundle.sh`: hashes the same files as the validator, with the baseline tool's own hash. */
  method ComputeBaseline(sha: Digest, s: Snapshot) returns (hashes: Table)
    ensures hashes == BaselineOf(Bundler, sha, s)
  {
    hashes := HashTargets(Bundler, sha, s);
  }

  /** The verdict at s1 against a baseline taken at s0. */
  predicate PassesAgainst(hasher: Hasher, sha: Digest, s0: Snapshot, s1: Snapshot) {
    BundleReport(sha, s1, Parsed(Some(BaselineOf(hasher, sha, s0)))).passed
  }

  predicate HashKept(hasher: Hasher, sha: Digest, recorded: Files, current: Files, path: string) {
    path in current && HashBy(hasher, sha, recorded, path) == ComputeFileHash(sha, current, path)
  }

  /** Every tracked file of the first store is in the second, and its hash now is the hash recorded then. */
  ghost predicate HashesKept(hasher: Hasher, sha: Digest, recorded: Files, current: Files) {
    forall p :: Tracked(p) && p in recorded ==> HashKept(hasher, sha, recorded, current, p)
  }

  lemma BaselineEntry(hasher: Hasher, sha: Digest, s: Snapshot, e: Entry)
    requires Consistent(s)
    ensures e in BaselineOf(hasher, sha, s) <==>
            (Fixed(e.path) || (Tracked(e.path) && e.path in s.files)) && e.hash == HashBy(hasher, sha, s.files, e.path)
  {
    ChainEntry(hasher, sha, s.files, TargetPaths(s), e);
    TargetsAre(s, e.path);
  }

  /**
   * The baseline theorem, for either hash: against a baseline of s0, validation of s1 passes exactly when nothing
   * was missing at s0 and every tracked file of s0 is still there with the recorded hash. Directory orders, chain
   * order, counters and files added since then have no influence.
   */
  lemma BaselineVerdict(hasher: Hasher, sha: Digest, s0: Snapshot, s1: Snapshot)
    requires Consistent(s0) && Consistent(s1)
    ensures PassesAgainst(hasher, sha, s0, s1) <==>
            AllFixedPresent(s0.files) && HashesKept(hasher, sha, s0.files, s1.files)
  {
    FileVerdict(sha, s1, BaselineOf(hasher, sha, s0));
    if PassesAgainst(hasher, sha, s0, s1) {
      AcceptedIsKept(hasher, sha, s0, s1);
    }
    if AllFixedPresent(s0.files) && HashesKept(hasher, sha, s0.files, s1.files) {
      KeptIsAccepted(hasher, sha, s0, s1);
    }
  }

  lemma KeptEntryIsAccepted(hasher: Hasher, sha: Digest, s0: Snapshot, s1: Snapshot, e: Entry)
    requires Consistent(s0) && AllFixedPresent(s0.files) && HashesKept(hasher, sha, s0.files, s1.files)
    requires e in BaselineOf(hasher, sha, s0)
    ensures Accepted(sha, s1.files, e)
  {
    BaselineEntry(hasher, sha, s0, e);
    assert Tracked(e.path) && e.path in s0.files;
    assert HashKept(hasher, sha, s0.files, s1.files, e.path);
  }

  lemma KeptIsAccepted(hasher: Hasher, sha: Digest, s0: Snapshot, s1: Snapshot)
    requires Consistent(s0)
    requires AllFixedPresent(s0.files) && HashesKept(hasher, sha, s0.files, s1.files)
    ensures AllFixedPresent(s1.files) && AllAccepted(sha, s1.files, BaselineOf(hasher, sha, s0))
  {
    forall p | Fixed(p) ensures p in s1.files {
      assert HashKept(hasher, sha, s0.files, s1.files, p);
    }
    forall e | e in BaselineOf(hasher, sha, s0) ensures Accepted(sha, s1.files, e) {
      KeptEntryIsAccepted(hasher, sha, s0, s1, e);
    }
  }

  lemma AcceptedIsKept(hasher: Hasher, sha: Digest, s0: Snapshot, s1: Snapshot)
    requires Consistent(s0) && Consistent(s1)
    requires AllAccepted(sha, s1.files, BaselineOf(hasher, sha, s0))
    ensures AllFixedPresent(s0.files) && HashesKept(hasher, sha, s0.files, s1.files)
  {
    forall p | Fixed(p) ensures p in s0.files {
      RecordedWasPresent(hasher, sha, s0, s1, p);
    }
    forall p | Tracked(p) && p in s0.files
      ensures HashKept(hasher, sha, s0.files, s1.files, p)
    {
      RecordedIsKept(hasher, sha, s0, s1, p);
    }
  }

  lemma RecordedIsKept(hasher: Hasher, sha: Digest, s0: Snapshot, s1: Snapshot, path: string)
    requires Consistent(s0) && Consistent(s1)
    requires AllAccepted(sha, s1.files, BaselineOf(hasher, sha, s0))
    requires Fixed(path) || (Tracked(path) && path in s0.files)
    ensures HashKept(hasher, sha, s0.files, s1.files, path)
  {
    var e := Entry(path, HashBy(hasher, sha, s0.files, path));
    BaselineEntry(hasher, sha, s0, e);
    assert Accepted(sha, s1.files, e);
    MissingIffAbsent(hasher, sha, s0.files, path);
  }

  lemma RecordedWasPresent(hasher: Hasher, sha: Digest, s0: Snapshot, s1: Snapshot, path: string)
    requires Consistent(s0) && Consistent(s1) && Fixed(path)
    requires AllAccepted(sha, s1.files, BaselineOf(hasher, sha, s0))
    ensures path in s0.files
  {
    RecordedIsKept(hasher, sha, s0, s1, path);
    MissingIffAbsent(hasher, sha, s0.files, path);
    MissingIffAbsent(Validator, sha, s1.files, path);
  }

  /** A baseline always has a non-empty hash for the contract. */
  lemma BaselineHasContract(hasher: Hasher, sha: Digest, s: Snapshot)
    ensures Truthy(Lookup(BaselineOf(hasher, sha, s), CONTRACT))
  {
    FixedAreTargets(s, CONTRACT);
    FillLookup(hasher, sha, s.files, TargetPaths(s), CONTRACT);
    MissingIffAbsent(hasher, sha, s.files, CONTRACT);
  }

  // ---------- From hashes to texts ----------

  /** SHA-256 does not confuse the canonical texts that were recorded and are current for a path. */
  predicate NoCollisionAt(hasher: Hasher, sha: Digest, recorded: Files, current: Files, path: string) {
    path in recorded && path in current
    && sha(TextBy(hasher, recorded, path)) == sha(TextBy(Validator, current, path)) ==>
      TextBy(hasher, recorded, path) == TextBy(Validator, current, path)
  }

  ghost predicate NoCollision(hasher: Hasher, sha: Digest, recorded: Files, current: Files) {
    forall p :: Tracked(p) ==> NoCollisionAt(hasher, sha, recorded, current, p)
  }

  /** The text now, as the validator reads it, is the text then, as it was read for the baseline. */
  predicate TextKept(hasher: Hasher, recorded: Files, current: Files, path: string)
    requires path in recorded
  {
    path in current && TextBy(hasher, recorded, path) == TextBy(Validator, current, path)
  }

  ghost predicate TextsKept(hasher: Hasher, recorded: Files, current: Files) {
    forall p :: Tracked(p) && p in recorded ==> TextKept(hasher, recorded, current, p)
  }

  /** Without collisions, either baseline is met exactly when no tracked canonical text changed. */
  lemma BaselineVerdictOnTexts(hasher: Hasher, sha: Digest, s0: Snapshot, s1: Snapshot)
    requires Consistent(s0) && Consistent(s1) && NoCollision(hasher, sha, s0.files, s1.files)
    ensures PassesAgainst(hasher, sha, s0, s1) <==>
            AllFixedPresent(s0.files) && TextsKept(hasher, s0.files, s1.files)
  {
    BaselineVerdict(hasher, sha, s0, s1);
    HashesKeptIffTextsKept(hasher, sha, s0.files, s1.files);
  }

  lemma HashKeptIffTextKept(hasher: Hasher, sha: Digest, a: Files, b: Files, path: string)
    requires path in a && NoCollisionAt(hasher, sha, a, b, path)
    ensures HashKept(hasher, sha, a, b, path) <==> TextKept(hasher, a, b, path)
  {
    if path in b {
      HashOfTextInjective(sha, TextBy(hasher, a, path), TextBy(Validator, b, path));
    }
  }

  lemma HashesKeptIffTextsKept(hasher: Hasher, sha: Digest, a: Files, b: Files)
    requires NoCollision(hasher, sha, a, b)
    ensures HashesKept(hasher, sha, a, b) <==> TextsKept(hasher, a, b)
  {
    forall p | Tracked(p) && p in a ensures HashKept(hasher, sha, a, b, p) <==> TextKept(hasher, a, b, p) {
      HashKeptIffTextKept(hasher, sha, a, b, p);
    }
  }

  // ---------- The two hashes disagree ----------

  /** The tracked files whose header the baseline tool strips and the validator keeps. */
  predicate StripsDifferently(files: Files, path: string) {
    Tracked(path) && path in files && path != CONTRACT && HasHeader(files[path])
  }

  lemma HashesAgreeUnless(sha: Digest, files: Files, path: string)
    requires Tracked(path) && path in files
    ensures HashBy(Bundler, sha, files, path) == HashBy(Validator, sha, files, path) <==>
            (StripsDifferently(files, path) ==> sha(AfterFirstLine(files[path])) == sha(files[path]))
  {
    OnlyContractIsYaml(path);
    CanonicalTextIs(true, files[path]);
    CanonicalTextIs(IsYaml(path), files[path]);
    HashOfTextInjective(sha, CanonicalText(true, files[path]), CanonicalText(IsYaml(path), files[path]));
  }

  /**
   * Re-bundling and validating at once, with nothing changed in between. The report tells its reader to re-run the
   * bundler to repair the chain; that works exactly when the nine fixed files exist and no tracked file other than
   * `contract.yaml` opens with a header line whose removal changes the hash.
   */
  lemma BundleThenValidate(sha: Digest, s: Snapshot)
    requires Consistent(s)
    ensures PassesAgainst(Bundler, sha, s, s) <==>
            && AllFixedPresent(s.files)
            && forall p :: StripsDifferently(s.files, p) ==> sha(AfterFirstLine(s.files[p])) == sha(s.files[p])
  {
    BaselineVerdict(Bundler, sha, s, s);
    forall p | Tracked(p) && p in s.files
      ensures HashKept(Bundler, sha, s.files, s.files, p) <==>
              (StripsDifferently(s.files, p) ==> sha(AfterFirstLine(s.files[p])) == sha(s.files[p]))
    {
      HashesAgreeUnless(sha, s.files, p);
    }
  }
}
