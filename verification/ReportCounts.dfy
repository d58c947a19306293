/** Order, distinctness and counts of the results of a report. */
module ReportCounts {
  import opened Bundle
  import opened BundleProperties
  import opened Chain
  import opened ChainProperties
  import opened FileHash
  import opened Tables
  import opened Wrappers

  predicate DistinctPaths(results: seq<Result>) {
    forall i, j :: 0 <= i < j < |results| ==> results[i].path != results[j].path
  }

  // ---------- Order ----------

  /** The results all have a path of the table, in the order of the table. */
  predicate FollowsOrder(results: seq<Result>, table: Table) {
    && (forall i :: 0 <= i < |results| ==> Has(table, results[i].path))
    && (forall i, j :: 0 <= i < j < |results| ==> IndexOf(table, results[i].path) < IndexOf(table, results[j].path))
  }

  lemma FollowingOrderIsDistinct(results: seq<Result>, table: Table)
    requires FollowsOrder(results, table)
    ensures DistinctPaths(results)
  {
  }

  lemma OrderSurvivesGrowth(results: seq<Result>, init: Table, last: Entry)
    requires DistinctKeys(init + [last]) && FollowsOrder(results, init)
    ensures FollowsOrder(results, init + [last])
  {
    forall i | 0 <= i < |results|
      ensures IndexOf(init + [last], results[i].path) == IndexOf(init, results[i].path)
    {
      var k := IndexOf(init, results[i].path);
      assert (init + [last])[k] == init[k];
      IndexOfEntry(init + [last], k);
    }
  }

  lemma OrderWithNewest(results: seq<Result>, init: Table, last: Entry, r: Result)
    requires DistinctKeys(init + [last]) && FollowsOrder(results, init) && r.path == last.path
    ensures FollowsOrder(results + [r], init + [last])
  {
    OrderSurvivesGrowth(results, init, last);
    IndexOfEntry(init + [last], |init|);
    forall i | 0 <= i < |results| ensures IndexOf(init + [last], results[i].path) < |init| {
      var k := IndexOf(init, results[i].path);
      assert (init + [last])[k] == init[k];
      IndexOfEntry(init + [last], k);
    }
  }

  lemma {:induction false} StaleInOrder(stored: Table, chainPaths: set<string>)
    ensures FollowsOrder(StaleResults(stored, chainPaths), stored)
  {
    if stored == [] {
    } else {
      var init, last := stored[..|stored| - 1], stored[|stored| - 1];
      assert stored == init + [last];
      StaleInOrder(init, chainPaths);
      OrderSurvivesGrowth(StaleResults(init, chainPaths), init, last);
      OrderWithNewest(StaleResults(init, chainPaths), init, last, StaleResult(last));
    }
  }

  lemma OrderOfTable(results: seq<Result>, table: Table)
    requires |results| == |table| && forall i :: 0 <= i < |table| ==> results[i].path == table[i].path
    ensures FollowsOrder(results, table)
  {
    forall i | 0 <= i < |table| ensures IndexOf(table, results[i].path) == i {
      IndexOfEntry(table, i);
    }
  }

  lemma ChainInOrder(chain: Table, stored: Table)
    ensures FollowsOrder(ChainResults(chain, stored), chain)
    ensures forall r :: r in ChainResults(chain, stored) ==> r.status != STALE
  {
    var results := ChainResults(chain, stored);
    forall i | 0 <= i < |chain| ensures results[i].path == chain[i].path && results[i].status != STALE {
      assert results[i] == Classify(chain[i], stored);
    }
    OrderOfTable(results, chain);
  }

  /**
   * Order of a report: one result for each chain entry in chain order, none of them stale, then stale results
   * only, for stored paths outside the chain and in stored order; no path is reported twice.
   */
  predicate WellOrdered(results: seq<Result>, chain: Table, stored: Table) {
    && |chain| <= |results|
    && FollowsOrder(results[..|chain|], chain)
    && FollowsOrder(results[|chain|..], stored)
    && (forall r :: r in results[..|chain|] ==> r.status != STALE)
    && (forall r :: r in results[|chain|..] ==> r.status == STALE && !Has(chain, r.path))
    && DistinctPaths(results)
  }

  lemma ResultsInOrder(chain: Table, stored: Table)
    ensures WellOrdered(Results(chain, stored), chain, stored)
  {
    ChainInOrder(chain, stored);
    StaleInOrder(stored, KeySet(chain));
    StaleOutsideChain(chain, stored);
    ConcatWellOrdered(ChainResults(chain, stored), StaleResults(stored, KeySet(chain)), chain, stored);
  }

  lemma ConcatWellOrdered(front: seq<Result>, stale: seq<Result>, chain: Table, stored: Table)
    requires |front| == |chain| && FollowsOrder(front, chain) && FollowsOrder(stale, stored)
    requires forall r :: r in front ==> r.status != STALE
    requires forall r :: r in stale ==> r.status == STALE && !Has(chain, r.path)
    ensures WellOrdered(front + stale, chain, stored)
  {
    assert (front + stale)[..|chain|] == front && (front + stale)[|chain|..] == stale;
    DistinctPathsConcat(front, stale, chain, stored);
  }

  lemma StaleOutsideChain(chain: Table, stored: Table)
    ensures forall r :: r in StaleResults(stored, KeySet(chain)) ==> r.status == STALE && !Has(chain, r.path)
  {
    forall r | r in StaleResults(stored, KeySet(chain)) ensures r.status == STALE && !Has(chain, r.path) {
      StaleMember(stored, KeySet(chain), r);
      KeySetIsHas(chain, r.path);
    }
  }

  lemma DistinctPathsConcat(a: seq<Result>, b: seq<Result>, tableA: Table, tableB: Table)
    requires FollowsOrder(a, tableA) && FollowsOrder(b, tableB)
    requires forall r :: r in b ==> !Has(tableA, r.path)
    ensures DistinctPaths(a + b)
  {
    FollowingOrderIsDistinct(a, tableA);
    FollowingOrderIsDistinct(b, tableB);
    forall i, j | 0 <= i < |a| && 0 <= j < |b| ensures a[i].path != b[j].path {
      assert b[j] in b;
    }
  }

  // ---------- Counts ----------

  function ReportedWith(results: seq<Result>, status: Status): set<string> {
    set r | r in results && r.status == status :: r.path
  }

  lemma ReportedWithNext(results: seq<Result>, last: Result, status: Status)
    ensures ReportedWith(results + [last], status) ==
            ReportedWith(results, status) + if last.status == status then {last.path} else {}
  {
    forall r ensures r in results + [last] <==> r in results || r == last {
    }
  }

  lemma LastPathIsNew(results: seq<Result>, last: Result, status: Status)
    requires DistinctPaths(results + [last])
    ensures DistinctPaths(results) && last.path !in ReportedWith(results, status)
  {
    var all := results + [last];
    forall i | 0 <= i < |results| ensures results[i].path != last.path {
      assert all[i].path != all[|results|].path;
    }
    assert forall i, j :: 0 <= i < j < |results| ==> results[i] == all[i] && results[j] == all[j];
  }

  /** With distinct paths a counter is the number of paths that have the status. */
  lemma {:induction false} CountIsCardinality(results: seq<Result>, status: Status)
    requires DistinctPaths(results)
    ensures Count(results, status) == |ReportedWith(results, status)|
  {
    if results == [] {
      assert ReportedWith(results, status) == {};
    } else {
      var init, last := results[..|results| - 1], results[|results| - 1];
      assert results == init + [last];
      LastPathIsNew(init, last, status);
      CountIsCardinality(init, status);
      ReportedWithNext(init, last, status);
    }
  }

  /** All paths a report can mention. */
  function Mentioned(s: Snapshot, stored: Table): set<string> {
    (set p | p in TargetPaths(s)) + KeySet(stored)
  }

  /** The paths that deserve a status. */
  function PathsWith(sha: Digest, s: Snapshot, stored: Table, status: Status): set<string> {
    set p | p in Mentioned(s, stored) && HasStatus(sha, s, stored, p, status)
  }

  lemma ReportedPaths(sha: Digest, s: Snapshot, stored: Table, status: Status)
    ensures ReportedWith(Results(ChainOf(sha, s), stored), status) == PathsWith(sha, s, stored, status)
  {
    var results := Results(ChainOf(sha, s), stored);
    forall p ensures (exists r :: r in results && r.path == p && r.status == status) <==>
                     p in PathsWith(sha, s, stored, status)
    {
      ReportedIffDeserved(sha, s, stored, p, status);
      KeySetIsHas(stored, p);
    }
  }

  lemma CountIsDeserved(sha: Digest, s: Snapshot, stored: Table, status: Status)
    ensures Count(Results(ChainOf(sha, s), stored), status) == |PathsWith(sha, s, stored, status)|
  {
    ResultsInOrder(ChainOf(sha, s), stored);
    CountIsCardinality(Results(ChainOf(sha, s), stored), status);
    ReportedPaths(sha, s, stored, status);
  }

  /**
   * The counters of a report are the numbers of paths that deserve each status, mismatched and stale ones together;
   * they add up to the total, which is the number of results and the number of distinct paths mentioned.
   */
  lemma CountsAreRight(sha: Digest, s: Snapshot, stored: Table)
    ensures var report := BundleReport(sha, s, Parsed(Some(stored)));
            && report.passCount == |PathsWith(sha, s, stored, OK)|
            && report.failCount == |PathsWith(sha, s, stored, MISMATCH)| + |PathsWith(sha, s, stored, STALE)|
            && report.missingCount == |PathsWith(sha, s, stored, MISSING_FILE)|
            && report.untrackedCount == |PathsWith(sha, s, stored, UNTRACKED)|
            && report.total == |report.results| == |Mentioned(s, stored)|
            && report.total == report.passCount + report.failCount + report.missingCount + report.untrackedCount
  {
    CountIsDeserved(sha, s, stored, OK);
    CountIsDeserved(sha, s, stored, MISMATCH);
    CountIsDeserved(sha, s, stored, STALE);
    CountIsDeserved(sha, s, stored, MISSING_FILE);
    CountIsDeserved(sha, s, stored, UNTRACKED);
    CountsCover(Results(ChainOf(sha, s), stored));
    TotalIsMentioned(sha, s, stored);
  }

  lemma TotalIsMentioned(sha: Digest, s: Snapshot, stored: Table)
    ensures |Results(ChainOf(sha, s), stored)| == |Mentioned(s, stored)|
  {
    var results := Results(ChainOf(sha, s), stored);
    ResultsInOrder(ChainOf(sha, s), stored);
    PathCount(results);
    forall p ensures (exists r :: r in results && r.path == p) <==> p in Mentioned(s, stored) {
      MentionedIsReported(sha, s, stored, p);
    }
    assert (set r | r in results :: r.path) == Mentioned(s, stored);
  }

  lemma MentionedIsReported(sha: Digest, s: Snapshot, stored: Table, path: string)
    ensures (exists r :: r in Results(ChainOf(sha, s), stored) && r.path == path) <==> path in Mentioned(s, stored)
  {
    KeySetIsHas(stored, path);
    if r :| r in Results(ChainOf(sha, s), stored) && r.path == path {
      ReportedDeserves(sha, s.files, TargetPaths(s), stored, r);
    }
    if path in Mentioned(s, stored) {
      var status := DeservedStatus(sha, s, stored, path);
      var r := DeservedReported(sha, s.files, TargetPaths(s), stored, path, status);
    }
  }

  /** Every path that is covered or stored deserves one status, and no two. */
  lemma DeservedStatus(sha: Digest, s: Snapshot, stored: Table, path: string) returns (status: Status)
    requires path in TargetPaths(s) || Has(stored, path)
    ensures HasStatus(sha, s, stored, path, status)
    ensures forall other :: HasStatus(sha, s, stored, path, other) ==> other == status
  {
    status :=
      if path !in TargetPaths(s) then STALE
      else if path !in s.files then MISSING_FILE
      else if !Truthy(Lookup(stored, path)) then UNTRACKED
      else if Lookup(stored, path) == Some(ComputeFileHash(sha, s.files, path)) then OK
      else MISMATCH;
    MissingIffAbsent(Validator, sha, s.files, path);
  }

  lemma {:induction false} PathCount(results: seq<Result>)
    requires DistinctPaths(results)
    ensures |results| == |set r | r in results :: r.path|
  {
    if results == [] {
    } else {
      var init, last := results[..|results| - 1], results[|results| - 1];
      assert results == init + [last];
      LastPathIsNew(init, last, last.status);
      PathCount(init);
      var initPaths := set r | r in init :: r.path;
      assert last.path !in initPaths by {
        forall r | r in init ensures r.path != last.path {
          LastPathIsNew(init, last, r.status);
          assert r.path in ReportedWith(init, r.status);
        }
      }
      assert (set r | r in results :: r.path) == initPaths + {last.path};
    }
  }

  // ---------- Irrelevant orders ----------

  /** The order in which directories are read back changes nothing in the report. */
  lemma ReportIgnoresListingOrder(sha: Digest, s: Snapshot, s': Snapshot, machine: MachineFile)
    requires s.files == s'.files
    requires multiset(Listed(s.rules)) == multiset(Listed(s'.rules))
    requires multiset(Listed(s.agents)) == multiset(Listed(s'.agents))
    ensures BundleReport(sha, s, machine) == BundleReport(sha, s', machine)
  {
    ListingOrderIrrelevant(sha, s, s');
  }

  /** The stored entry a result would be the stale one of. */
  function StaleOrigin(r: Result): Option<Entry> {
    if r.expected.Some? && r == StaleResult(Entry(r.path, r.expected.value))
    then Some(Entry(r.path, r.expected.value)) else None
  }

  lemma {:induction false} StaleMultiplicity(stored: seq<Entry>, chainPaths: set<string>, r: Result)
    ensures multiset(StaleResults(stored, chainPaths))[r] ==
            if StaleOrigin(r).Some? && r.path !in chainPaths then multiset(stored)[StaleOrigin(r).value] else 0
  {
    if stored == [] {
    } else {
      var init, last := stored[..|stored| - 1], stored[|stored| - 1];
      assert stored == init + [last];
      StaleMultiplicity(init, chainPaths, r);
      assert StaleResult(last) == r <==> StaleOrigin(r) == Some(last);
    }
  }

  lemma StaleIgnoresStoredOrder(a: seq<Entry>, b: seq<Entry>, chainPaths: set<string>)
    requires multiset(a) == multiset(b)
    ensures multiset(StaleResults(a, chainPaths)) == multiset(StaleResults(b, chainPaths))
  {
    forall r ensures multiset(StaleResults(a, chainPaths))[r] == multiset(StaleResults(b, chainPaths))[r] {
      StaleMultiplicity(a, chainPaths, r);
      StaleMultiplicity(b, chainPaths, r);
    }
  }

  /**
   * The order of the stored hashes changes neither verdict nor counters, nor any result about a chain entry; the
   * stale results are the same in another order.
   */
  lemma ReportIgnoresStoredOrder(sha: Digest, s: Snapshot, a: Table, b: Table)
    requires multiset(a) == multiset(b)
    ensures var ra, rb := BundleReport(sha, s, Parsed(Some(a))), BundleReport(sha, s, Parsed(Some(b)));
            && ra.(results := []) == rb.(results := [])
            && ChainResults(ChainOf(sha, s), a) == ChainResults(ChainOf(sha, s), b)
            && multiset(ra.results) == multiset(rb.results)
  {
    VerdictIgnoresStoredOrder(ChainOf(sha, s), a, b);
    CountersIgnoreStoredOrder(sha, s, a, b);
    ChainResultsIgnoreStoredOrder(ChainOf(sha, s), a, b);
    StaleIgnoresStoredOrder(a, b, KeySet(ChainOf(sha, s)));
  }

  lemma CountersIgnoreStoredOrder(sha: Digest, s: Snapshot, a: Table, b: Table)
    requires multiset(a) == multiset(b)
    ensures var ra, rb := BundleReport(sha, s, Parsed(Some(a))), BundleReport(sha, s, Parsed(Some(b)));
            && ra.passCount == rb.passCount && ra.failCount == rb.failCount
            && ra.missingCount == rb.missingCount && ra.untrackedCount == rb.untrackedCount
            && ra.total == rb.total
  {
    CountsAreRight(sha, s, a);
    CountsAreRight(sha, s, b);
    KeySetIgnoresOrder(a, b);
    forall status ensures PathsWith(sha, s, a, status) == PathsWith(sha, s, b, status) {
      DeservedIgnoresStoredOrder(sha, s, a, b, status);
    }
  }

  lemma DeservedIgnoresStoredOrder(sha: Digest, s: Snapshot, a: Table, b: Table, status: Status)
    requires multiset(a) == multiset(b)
    ensures PathsWith(sha, s, a, status) == PathsWith(sha, s, b, status)
  {
    KeySetIgnoresOrder(a, b);
    forall p ensures HasStatus(sha, s, a, p, status) <==> HasStatus(sha, s, b, p, status) {
      LookupIgnoresOrder(a, b, p);
    }
  }

  lemma ChainResultsIgnoreStoredOrder(chain: seq<Entry>, a: Table, b: Table)
    requires multiset(a) == multiset(b)
    ensures ChainResults(chain, a) == ChainResults(chain, b)
  {
    forall i | 0 <= i < |chain| ensures Classify(chain[i], a) == Classify(chain[i], b) {
      LookupIgnoresOrder(a, b, chain[i].path);
    }
  }

  lemma VerdictIgnoresStoredOrder(chain: Table, a: Table, b: Table)
    requires multiset(a) == multiset(b)
    ensures Reconcile(chain, a).passed <==> Reconcile(chain, b).passed
  {
    VerdictRefinement(chain, a);
    VerdictRefinement(chain, b);
    forall e ensures (e in a <==> e in b) && Lookup(a, e.path) == Lookup(b, e.path) {
      assert e in multiset(a) <==> e in multiset(b);
      LookupIgnoresOrder(a, b, e.path);
    }
  }
}
