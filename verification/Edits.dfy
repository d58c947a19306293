/** What a report depends on, and how it changes when a file is edited. */
module Edits {
  import opened Bundle
  import opened BundleProperties
  import opened Chain
  import opened ChainProperties
  import opened FileHash
  import opened Header
  import opened Lines
  import opened Tables
  import opened Wrappers

  // ---------- What a report depends on ----------

  /** Every covered file has the same hash in both stores. */
  ghost predicate SameHashes(sha: Digest, paths: seq<string>, a: Files, b: Files) {
    forall p :: p in paths ==> ComputeFileHash(sha, a, p) == ComputeFileHash(sha, b, p)
  }

  lemma {:induction false} SameHashesSameTable(sha: Digest, paths: seq<string>, a: Files, b: Files)
    requires SameHashes(sha, paths, a, b)
    ensures Fill(Validator, sha, a, paths) == Fill(Validator, sha, b, paths)
  {
    if paths == [] {
    } else {
      SameHashesSameTable(sha, paths[..|paths| - 1], a, b);
      assert paths[|paths| - 1] in paths;
    }
  }

  /** The whole report is a function of the covered paths and their hashes. */
  lemma SameHashesSameReport(sha: Digest, s: Snapshot, s': Snapshot, machine: MachineFile)
    requires TargetPaths(s) == TargetPaths(s')
    requires SameHashes(sha, TargetPaths(s), s.files, s'.files)
    ensures BundleReport(sha, s, machine) == BundleReport(sha, s', machine)
  {
    SameHashesSameTable(sha, TargetPaths(s), s.files, s'.files);
  }

  // ---------- Editing one file ----------

  function Edited(s: Snapshot, path: string, text: string): Snapshot {
    s.(files := s.files[path := text])
  }

  lemma CanonicalEditKeepsReport(sha: Digest, s: Snapshot, path: string, text: string, machine: MachineFile)
    requires path in s.files
    requires path in TargetPaths(s) ==>
               CanonicalText(IsYaml(path), text) == CanonicalText(IsYaml(path), s.files[path])
    ensures BundleReport(sha, Edited(s, path, text), machine) == BundleReport(sha, s, machine)
  {
    SameHashesSameReport(sha, s, Edited(s, path, text), machine);
  }

  /**
   * An edit that keeps the canonical text, or touches no covered file, leaves the whole report as it was; but for
   * the machine file, where the report becomes the one for the new stored hashes.
   */
  lemma CanonicalEditIsInvisible(sha: Digest, json: Json, s: Snapshot, path: string, text: string)
    requires path in s.files
    requires path in TargetPaths(s) ==>
               CanonicalText(IsYaml(path), text) == CanonicalText(IsYaml(path), s.files[path])
    ensures path != MACHINE_PATH ==> ReportOn(sha, json, Edited(s, path, text)) == ReportOn(sha, json, s)
    ensures path == MACHINE_PATH ==>
              ReportOn(sha, json, Edited(s, path, text)) == BundleReport(sha, s, ParseMachine(json, text))
  {
    CanonicalEditKeepsReport(sha, s, path, text, ReadMachine(json, Edited(s, path, text).files));
  }

  /**
   * Recording its own hash in the header of `contract.yaml`, or putting any other header line on top of its body,
   * leaves every report of every mode as it was.
   */
  lemma RestampingIsInvisible(sha: Digest, s: Snapshot, header: string, machine: MachineFile)
    requires CONTRACT in s.files
    requires IsLine(header) && IsHeader(header)
    ensures var text := header + "\n" + CanonicalText(true, s.files[CONTRACT]);
            && BundleReport(sha, Edited(s, CONTRACT, text), machine) == BundleReport(sha, s, machine)
            && ComputeFileHash(sha, Edited(s, CONTRACT, text).files, CONTRACT) ==
               ComputeFileHash(sha, s.files, CONTRACT)
  {
    var body := CanonicalText(true, s.files[CONTRACT]);
    ContractIsYaml();
    HeaderIsInvisible(header, body);
    CanonicalEditKeepsReport(sha, s, CONTRACT, header + "\n" + body, machine);
  }

  /** The two stores differ at most at one path. */
  ghost predicate Apart(a: Files, b: Files, path: string) {
    forall p :: p != path ==> (p in a <==> p in b) && (p in a ==> a[p] == b[p])
  }

  /** The tables list the same paths and agree on all but one of them. */
  predicate AgreeBut(a: seq<Entry>, b: seq<Entry>, path: string) {
    && |a| == |b|
    && forall i :: 0 <= i < |a| ==> b[i].path == a[i].path && (a[i].path != path ==> b[i] == a[i])
  }

  lemma PutKeepsAgreement(a: Table, b: Table, path: string, q: string, hashA: string, hashB: string)
    requires AgreeBut(a, b, path) && (q != path ==> hashA == hashB)
    ensures AgreeBut(Put(a, q, hashA), Put(b, q, hashB), path)
  {
    SamePathsSameIndex(a, b, q);
  }

  lemma {:induction false} ChangedTable(sha: Digest, a: Files, b: Files, paths: seq<string>, path: string)
    requires Apart(a, b, path)
    ensures AgreeBut(Fill(Validator, sha, a, paths), Fill(Validator, sha, b, paths), path)
  {
    if paths == [] {
    } else {
      var init, last := paths[..|paths| - 1], paths[|paths| - 1];
      ChangedTable(sha, a, b, init, path);
      PutKeepsAgreement(Fill(Validator, sha, a, init), Fill(Validator, sha, b, init), path, last,
                        HashBy(Validator, sha, a, last), HashBy(Validator, sha, b, last));
    }
  }

  lemma {:induction false} SamePathsSameIndex(a: seq<Entry>, b: seq<Entry>, path: string)
    requires |a| == |b| && forall i :: 0 <= i < |a| ==> a[i].path == b[i].path
    ensures IndexOf(a, path) == IndexOf(b, path)
  {
    if a != [] && a[0].path != path {
      SamePathsSameIndex(a[1..], b[1..], path);
    }
  }

  lemma SamePathsSameKeys(a: seq<Entry>, b: seq<Entry>)
    requires |a| == |b| && forall i :: 0 <= i < |a| ==> a[i].path == b[i].path
    ensures KeySet(a) == KeySet(b)
  {
    forall p ensures p in KeySet(a) <==> p in KeySet(b) {
      SamePathsSameIndex(a, b, p);
      KeySetIsHas(a, p);
      KeySetIsHas(b, p);
    }
  }

  /** The results differ at most at position k, which goes from one given result to another. */
  predicate ChangesOnly(before: seq<Result>, after: seq<Result>, k: nat, was: Result, becomes: Result) {
    k < |before| && before[k] == was && after == before[k := becomes]
  }

  lemma EditedChain(sha: Digest, s: Snapshot, path: string, text: string)
    ensures ChainOf(sha, Edited(s, path, text)) == Fill(Validator, sha, s.files[path := text], TargetPaths(s))
  {
  }

  /** Editing a covered file changes at most one result, the one at its place in the chain. */
  lemma EditIsLocal(sha: Digest, s: Snapshot, path: string, text: string, stored: Table) returns (k: nat)
    requires path in s.files && path in TargetPaths(s)
    ensures ChangesOnly(BundleReport(sha, s, Parsed(Some(stored))).results,
                        BundleReport(sha, Edited(s, path, text), Parsed(Some(stored))).results, k,
                        Classify(Entry(path, ComputeFileHash(sha, s.files, path)), stored),
                        Classify(Entry(path, ComputeFileHash(sha, s.files[path := text], path)), stored))
  {
    EditedChain(sha, s, path, text);
    k := ChangedResults(sha, s.files, s.files[path := text], TargetPaths(s), path, stored);
  }

  /** A change of one covered file, its removal included, changes at most the result at its place. */
  lemma ChangedResults(sha: Digest, a: Files, b: Files, paths: seq<string>, path: string, stored: Table)
    returns (k: nat)
    requires Apart(a, b, path) && path in paths
    ensures ChangesOnly(Results(Fill(Validator, sha, a, paths), stored),
                        Results(Fill(Validator, sha, b, paths), stored), k,
                        Classify(Entry(path, ComputeFileHash(sha, a, path)), stored),
                        Classify(Entry(path, ComputeFileHash(sha, b, path)), stored))
  {
    var chain, chain' := Fill(Validator, sha, a, paths), Fill(Validator, sha, b, paths);
    ChangedTable(sha, a, b, paths, path);
    SamePathsSameKeys(chain, chain');
    FillLookup(Validator, sha, a, paths, path);
    FillLookup(Validator, sha, b, paths, path);
    SamePathsSameIndex(chain, chain', path);
    k := IndexOf(chain, path);
    ReplacedEntry(chain, chain', stored, k);
  }

  lemma ReplacedEntry(chain: Table, chain': Table, stored: Table, k: nat)
    requires k < |chain| == |chain'| && KeySet(chain) == KeySet(chain')
    requires forall i :: 0 <= i < |chain| && i != k ==> chain'[i] == chain[i]
    requires chain[k].path == chain'[k].path
    ensures Results(chain, stored)[k] == Classify(chain[k], stored)
    ensures Results(chain', stored) == Results(chain, stored)[k := Classify(chain'[k], stored)]
  {
    var front, front' := ChainResults(chain, stored), ChainResults(chain', stored);
    assert front' == front[k := Classify(chain'[k], stored)];
  }

  lemma {:induction false} CountReplaced(results: seq<Result>, k: nat, r: Result, status: Status)
    requires k < |results|
    ensures Count(results[k := r], status) ==
            Count(results, status)
            - (if results[k].status == status then 1 else 0) + (if r.status == status then 1 else 0)
  {
    var n := |results| - 1;
    if k < n {
      CountReplaced(results[..n], k, r, status);
      assert results[k := r][..n] == results[..n][k := r];
    } else {
      assert results[k := r][..n] == results[..n];
    }
  }

  /** Changing the canonical hash of a file that was OK moves one unit from passed to failed and breaks the verdict. */
  lemma EditMovesOneUnit(sha: Digest, s: Snapshot, path: string, text: string, stored: Table)
    requires path in s.files && HasStatus(sha, s, stored, path, OK)
    requires ComputeFileHash(sha, s.files[path := text], path) != ComputeFileHash(sha, s.files, path)
    ensures var before := BundleReport(sha, s, Parsed(Some(stored)));
            var after := BundleReport(sha, Edited(s, path, text), Parsed(Some(stored)));
            && after.passCount == before.passCount - 1
            && after.failCount == before.failCount + 1
            && after.missingCount == before.missingCount
            && after.untrackedCount == before.untrackedCount
            && after.total == before.total
            && !after.passed
  {
    var k := EditIsLocal(sha, s, path, text, stored);
    var results := Results(ChainOf(sha, s), stored);
    var r := Classify(Entry(path, ComputeFileHash(sha, s.files[path := text], path)), stored);
    MissingIffAbsent(Validator, sha, s.files, path);
    MissingIffAbsent(Validator, sha, s.files[path := text], path);
    assert results[k].status == OK && r.status == MISMATCH;
    CountReplaced(results, k, r, OK);
    CountReplaced(results, k, r, MISMATCH);
    CountReplaced(results, k, r, STALE);
    CountReplaced(results, k, r, MISSING_FILE);
    CountReplaced(results, k, r, UNTRACKED);
  }
}
