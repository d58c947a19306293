/** Reconciliation of the chain with the stored hashes: two passes, four counters and a verdict. */
module Bundle {
  import opened Chain
  import opened FileHash
  import opened Tables
  import opened Wrappers

  /** What `readMachineJson` finds: no file, unparsable text, or an object that may hold `keystone_hashes`. */
  datatype MachineFile = NoFile | Unparsable | Parsed(keystoneHashes: Option<Table>)

  /** What `JSON.parse` makes of a text: nothing when it throws, else the `keystone_hashes` it finds, if any. */
  type Json = string -> Option<Option<Table>>

  function ParseMachine(json: Json, text: string): MachineFile {
    match json(text)
    case None => Unparsable
    case Some(hashes) => Parsed(hashes)
  }

  /** `readMachineJson` on the file store. */
  function ReadMachine(json: Json, files: Files): MachineFile {
    if MACHINE_PATH !in files then NoFile else ParseMachine(json, files[MACHINE_PATH])
  }

  function StoredHashes(machine: MachineFile): Option<Table> {
    match machine
    case Parsed(hashes) => hashes
    case _ => None
  }

  datatype Status = OK | MISSING_FILE | UNTRACKED | MISMATCH | STALE

  /** One line of the report; `expected` is absent where the stored object has no such key. */
  datatype Result = Result(path: string, status: Status, expected: Option<string>, actual: string)

  datatype Report = Report(passed: bool, results: seq<Result>,
                           passCount: nat, failCount: nat, missingCount: nat, untrackedCount: nat, total: nat)

  const NO_HASHES := Report(false, [], 0, 0, 0, 0, 0)

  /** A stored hash counts as present only when it is a non-empty string. */
  predicate Truthy(stored: Option<string>) {
    stored.Some? && stored.value != ""
  }

  /** Pass one: the result for one chain entry, tests in order of priority. */
  function Classify(entry: Entry, stored: Table): Result {
    var storedHash := Lookup(stored, entry.path);
    if entry.hash == MISSING then Result(entry.path, MISSING_FILE, storedHash, "FILE_NOT_FOUND")
    else if !Truthy(storedHash) then Result(entry.path, UNTRACKED, Some("N/A"), entry.hash)
    else if entry.hash != storedHash.value then Result(entry.path, MISMATCH, storedHash, entry.hash)
    else Result(entry.path, OK, storedHash, entry.hash)
  }

  function ChainResults(chain: seq<Entry>, stored: Table): (results: seq<Result>)
    ensures |results| == |chain|
    ensures forall i :: 0 <= i < |chain| ==> results[i] == Classify(chain[i], stored)
  {
    if chain == [] then []
    else ChainResults(chain[..|chain| - 1], stored) + [Classify(chain[|chain| - 1], stored)]
  }

  function StaleResult(entry: Entry): Result {
    Result(entry.path, STALE, Some(entry.hash), "NOT_IN_CHAIN")
  }

  /** Pass two: the stored entries whose path the chain does not have, in stored order. */
  function StaleResults(stored: seq<Entry>, chainPaths: set<string>): seq<Result> {
    if stored == [] then []
    else
      var last := stored[|stored| - 1];
      StaleResults(stored[..|stored| - 1], chainPaths)
      + if last.path in chainPaths then [] else [StaleResult(last)]
  }

  function Results(chain: Table, stored: Table): seq<Result> {
    ChainResults(chain, stored) + StaleResults(stored, KeySet(chain))
  }

  /** How many results have the status. */
  function Count(results: seq<Result>, status: Status): nat {
    if results == [] then 0
    else
      Count(results[..|results| - 1], status) + if results[|results| - 1].status == status then 1 else 0
  }

  function ReportOf(results: seq<Result>): Report {
    var failed := Count(results, MISMATCH) + Count(results, STALE);
    Report(failed == 0 && Count(results, MISSING_FILE) == 0, results,
           Count(results, OK), failed, Count(results, MISSING_FILE), Count(results, UNTRACKED), |results|)
  }

  function Reconcile(chain: Table, stored: Table): Report {
    ReportOf(Results(chain, stored))
  }

  /** The report of `validateBundle` on one snapshot. */
  function BundleReport(sha: Digest, s: Snapshot, machine: MachineFile): Report {
    match StoredHashes(machine)
    case None => NO_HASHES
    case Some(stored) => Reconcile(ChainOf(sha, s), stored)
  }

  /** The report on a project whose machine file is read from the same snapshot. */
  function ReportOn(sha: Digest, json: Json, s: Snapshot): Report {
    BundleReport(sha, s, ReadMachine(json, s.files))
  }

  lemma CountNext(results: seq<Result>, r: Result, status: Status)
    ensures Count(results + [r], status) == Count(results, status) + if r.status == status then 1 else 0
  {
    assert (results + [r])[..|results|] == results;
  }

  /** Every result has one of the five statuses. */
  lemma {:induction false} CountsCover(results: seq<Result>)
    ensures Count(results, OK) + Count(results, MISMATCH) + Count(results, STALE)
            + Count(results, MISSING_FILE) + Count(results, UNTRACKED) == |results|
  {
    if results == [] {
    } else {
      CountsCover(results[..|results| - 1]);
    }
  }

  /** What the four counters mean in the middle of the run. */
  ghost predicate Tallied(results: seq<Result>, pass: nat, fail: nat, missing: nat, untracked: nat) {
    && pass == Count(results, OK)
    && fail == Count(results, MISMATCH) + Count(results, STALE)
    && missing == Count(results, MISSING_FILE)
    && untracked == Count(results, UNTRACKED)
  }

  lemma TalliedNext(results: seq<Result>, r: Result, pass: nat, fail: nat, missing: nat, untracked: nat)
    requires Tallied(results, pass, fail, missing, untracked)
    ensures r.status == OK ==> Tallied(results + [r], pass + 1, fail, missing, untracked)
    ensures r.status == MISMATCH || r.status == STALE ==> Tallied(results + [r], pass, fail + 1, missing, untracked)
    ensures r.status == MISSING_FILE ==> Tallied(results + [r], pass, fail, missing + 1, untracked)
    ensures r.status == UNTRACKED ==> Tallied(results + [r], pass, fail, missing, untracked + 1)
  {
    CountNext(results, r, OK);
    CountNext(results, r, MISMATCH);
    CountNext(results, r, STALE);
    CountNext(results, r, MISSING_FILE);
    CountNext(results, r, UNTRACKED);
  }

  lemma ChainResultsNext(chain: seq<Entry>, stored: Table, i: nat)
    requires i < |chain|
    ensures ChainResults(chain[..i + 1], stored) == ChainResults(chain[..i], stored) + [Classify(chain[i], stored)]
  {
    assert chain[..i + 1][..i] == chain[..i];
  }

  /** The first loop: every chain entry gives one result and bumps one counter. */
  method CheckChain(chain: Table, storedHashes: Table)
    returns (results: seq<Result>, passCount: nat, failCount: nat, missingCount: nat, untrackedCount: nat)
    ensures results == ChainResults(chain, storedHashes)
    ensures Tallied(results, passCount, failCount, missingCount, untrackedCount)
  {
    results := [];
    passCount, failCount, missingCount, untrackedCount := 0, 0, 0, 0;
    for i := 0 to |chain|
      invariant results == ChainResults(chain[..i], storedHashes)
      invariant Tallied(results, passCount, failCount, missingCount, untrackedCount)
    {
      ChainResultsNext(chain, storedHashes, i);
      TalliedNext(results, Classify(chain[i], storedHashes), passCount, failCount, missingCount, untrackedCount);
      var relPath, computedHash := chain[i].path, chain[i].hash;
      var storedHash := Lookup(storedHashes, relPath);
      if computedHash == MISSING {
        results := results + [Result(relPath, MISSING_FILE, storedHash, "FILE_NOT_FOUND")];
        missingCount := missingCount + 1;
      } else if !Truthy(storedHash) {
        results := results + [Result(relPath, UNTRACKED, Some("N/A"), computedHash)];
        untrackedCount := untrackedCount + 1;
      } else if computedHash != storedHash.value {
        results := results + [Result(relPath, MISMATCH, storedHash, computedHash)];
        failCount := failCount + 1;
      } else {
        results := results + [Result(relPath, OK, storedHash, computedHash)];
        passCount := passCount + 1;
      }
    }
    assert chain[..|chain|] == chain;
  }

  lemma StaleResultsNext(stored: seq<Entry>, chainPaths: set<string>, i: nat)
    requires i < |stored|
    ensures StaleResults(stored[..i + 1], chainPaths) ==
            StaleResults(stored[..i], chainPaths)
            + if stored[i].path in chainPaths then [] else [StaleResult(stored[i])]
  {
    assert stored[..i + 1][..i] == stored[..i];
  }

  /** The second loop: a stored path outside the chain is a further failure. */
  method CheckStale(chain: Table, storedHashes: Table, before: seq<Result>, failBefore: nat,
                    ghost pass: nat, ghost missing: nat, ghost untracked: nat)
    returns (results: seq<Result>, failCount: nat)
    requires Tallied(before, pass, failBefore, missing, untracked)
    ensures results == before + StaleResults(storedHashes, KeySet(chain))
    ensures Tallied(results, pass, failCount, missing, untracked)
  {
    results, failCount := before, failBefore;
    var chainPaths := KeySet(chain);
    for i := 0 to |storedHashes|
      invariant results == before + StaleResults(storedHashes[..i], chainPaths)
      invariant Tallied(results, pass, failCount, missing, untracked)
    {
      StaleResultsNext(storedHashes, chainPaths, i);
      var relPath, storedHash := storedHashes[i].path, storedHashes[i].hash;
      if relPath !in chainPaths {
        TalliedNext(results, StaleResult(storedHashes[i]), pass, failCount, missing, untracked);
        results := results + [Result(relPath, STALE, Some(storedHash), "NOT_IN_CHAIN")];
        failCount := failCount + 1;
      }
    }
    assert storedHashes[..|storedHashes|] == storedHashes;
  }

  lemma TalliedReport(results: seq<Result>, pass: nat, fail: nat, missing: nat, untracked: nat)
    requires Tallied(results, pass, fail, missing, untracked)
    ensures Report(fail == 0 && missing == 0, results, pass, fail, missing, untracked,
                   pass + fail + missing + untracked) == ReportOf(results)
  {
    CountsCover(results);
  }

  lemma ReportIsReconciled(sha: Digest, s: Snapshot, machine: MachineFile)
    ensures BundleReport(sha, s, machine) ==
            if StoredHashes(machine) == None then NO_HASHES
            else ReportOf(Results(ChainOf(sha, s), StoredHashes(machine).value))
  {
  }

  /** `validateBundle`: the verdict and the total are computed from the counters alone. */
  method ValidateBundle(sha: Digest, s: Snapshot, machine: MachineFile) returns (report: Report)
    ensures report == BundleReport(sha, s, machine)
  {
    ReportIsReconciled(sha, s, machine);
    if StoredHashes(machine) == None {
      return NO_HASHES;
    }
    var storedHashes := StoredHashes(machine).value;
    var chain := BuildIntegrityChain(sha, s);
    var results, passCount, failCount, missingCount, untrackedCount := CheckChain(chain, storedHashes);
    results, failCount :=
      CheckStale(chain, storedHashes, results, failCount, passCount, missingCount, untrackedCount);
    TalliedReport(results, passCount, failCount, missingCount, untrackedCount);
    var total := passCount + failCount + missingCount + untrackedCount;
    var passed := failCount == 0 && missingCount == 0;
    report := Report(passed, results, passCount, failCount, missingCount, untrackedCount, total);
  }
}
