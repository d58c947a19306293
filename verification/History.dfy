/** Whole runs of a project: files come, change and go, the machine file among them, and the baseline is renewed. */
module History {
  import opened Baseline
  import opened Bundle
  import opened BundleProperties
  import opened Chain
  import opened ChainProperties
  import opened Cli
  import opened FileHash
  import opened Removal
  import opened Tables
  import opened Wrappers

  /** `Rebundle` is a completed run of the bundler that hashed every file; one that aborts changes nothing. */
  datatype Step = Write(path: string, text: string) | Delete(path: string) | Rebundle

  /** What one step may do; the directory listings of the new state are any that fit its files. */
  ghost predicate Next(sha: Digest, json: Json, before: Snapshot, step: Step, after: Snapshot) {
    && Consistent(after)
    && match step
       case Write(path, text) => after.files == before.files[path := text]
       case Delete(path) => after.files == before.files - {path}
       case Rebundle =>
         // The bundler lists the directories, and it reads and parses the machine file before it writes it anew.
         && !CannotBuild(before)
         && ReadMachine(json, before.files).Parsed?
         && ReadMachine(json, after.files) == Parsed(Some(BaselineOf(Bundler, sha, before)))
         && after.files - {MACHINE_PATH} == before.files - {MACHINE_PATH}
  }

  ghost predicate IsRun(sha: Digest, json: Json, states: seq<Snapshot>, steps: seq<Step>) {
    && |states| == |steps| + 1
    && Consistent(states[0])
    && forall i :: 0 <= i < |steps| ==> Next(sha, json, states[i], steps[i], states[i + 1])
  }

  /** The step writes or deletes the machine file. */
  predicate TouchesMachine(step: Step) {
    match step
    case Write(path, _) => path == MACHINE_PATH
    case Delete(path) => path == MACHINE_PATH
    case Rebundle => true
  }

  predicate WritesByHand(step: Step) {
    step.Write? && step.path == MACHINE_PATH
  }

  /** No step from state b to state n touches the machine file. */
  predicate Untouched(steps: seq<Step>, b: nat, n: nat) {
    b <= n <= |steps| && forall i :: b <= i < n ==> !TouchesMachine(steps[i])
  }

  /** Step b is a re-bundling and nothing after it touches the machine file before state n. */
  predicate LastRebundle(steps: seq<Step>, b: nat, n: nat) {
    b < n && Untouched(steps, b + 1, n) && steps[b].Rebundle?
  }

  lemma RunIsConsistent(sha: Digest, json: Json, states: seq<Snapshot>, steps: seq<Step>, i: nat)
    requires IsRun(sha, json, states, steps) && i < |states|
    ensures Consistent(states[i])
  {
    if i > 0 {
      assert Next(sha, json, states[i - 1], steps[i - 1], states[i]);
    }
  }

  lemma MachineTextKeepsConsistency(s: Snapshot, text: string)
    requires Consistent(s) && MACHINE_PATH in s.files
    ensures Consistent(s.(files := s.files[MACHINE_PATH := text]))
  {
    MachineIsNotTracked();
  }

  /** The text records the hashes in a machine file that can be read before. */
  predicate Records(json: Json, files: Files, hashes: Table, text: string) {
    MACHINE_PATH in files && json(files[MACHINE_PATH]) != None && json(text) == Some(Some(hashes))
  }

  lemma RewrittenMachine(json: Json, files: Files, hashes: Table, text: string)
    requires Records(json, files, hashes, text)
    ensures ReadMachine(json, files).Parsed?
    ensures ReadMachine(json, files[MACHINE_PATH := text]) == Parsed(Some(hashes))
    ensures files[MACHINE_PATH := text] - {MACHINE_PATH} == files - {MACHINE_PATH}
  {
  }

  lemma RebundleWrites(sha: Digest, json: Json, s: Snapshot, text: string)
    requires Consistent(s) && !CannotBuild(s) && Records(json, s.files, BaselineOf(Bundler, sha, s), text)
    ensures Next(sha, json, s, Rebundle, s.(files := s.files[MACHINE_PATH := text]))
  {
    MachineTextKeepsConsistency(s, text);
    RewrittenMachine(json, s.files, BaselineOf(Bundler, sha, s), text);
  }

  lemma RebundleWrote(sha: Digest, json: Json, s: Snapshot, after: Snapshot)
    requires Next(sha, json, s, Rebundle, after)
    ensures !CannotBuild(s) && MACHINE_PATH in after.files
    ensures Records(json, s.files, BaselineOf(Bundler, sha, s), after.files[MACHINE_PATH])
  {
  }

  /**
   * A baseline can be recorded exactly when the chain can be built, the machine file is there and parses, with or
   * without stored hashes, and some text stands for the baseline.
   */
  lemma RebundleEnabled(sha: Digest, json: Json, s: Snapshot)
    requires Consistent(s)
    ensures (exists after :: Next(sha, json, s, Rebundle, after)) <==>
            !CannotBuild(s) && exists text :: Records(json, s.files, BaselineOf(Bundler, sha, s), text)
  {
    if after :| Next(sha, json, s, Rebundle, after) {
      RebundleWrote(sha, json, s, after);
    }
    if !CannotBuild(s) {
      if text :| Records(json, s.files, BaselineOf(Bundler, sha, s), text) {
        RebundleWrites(sha, json, s, text);
      }
    }
  }

  lemma StepKeepsMachine(sha: Digest, json: Json, before: Snapshot, step: Step, after: Snapshot)
    requires Next(sha, json, before, step, after) && !TouchesMachine(step)
    ensures ReadMachine(json, after.files) == ReadMachine(json, before.files)
  {
  }

  lemma StepKeepsUnparsed(sha: Digest, json: Json, before: Snapshot, step: Step, after: Snapshot)
    requires Next(sha, json, before, step, after) && !WritesByHand(step)
    requires !ReadMachine(json, before.files).Parsed?
    ensures !ReadMachine(json, after.files).Parsed?
  {
  }

  /** How the steps of a run move the machine file, one by one. */
  predicate MachineMoves(json: Json, states: seq<Snapshot>, steps: seq<Step>) {
    && |states| == |steps| + 1
    && (forall i :: 0 <= i < |steps| && !TouchesMachine(steps[i]) ==>
          ReadMachine(json, states[i + 1].files) == ReadMachine(json, states[i].files))
    && (forall i :: 0 <= i < |steps| && !WritesByHand(steps[i]) && !ReadMachine(json, states[i].files).Parsed? ==>
          !ReadMachine(json, states[i + 1].files).Parsed?)
  }

  lemma RunMovesMachine(sha: Digest, json: Json, states: seq<Snapshot>, steps: seq<Step>)
    requires IsRun(sha, json, states, steps)
    ensures MachineMoves(json, states, steps)
  {
    forall i | 0 <= i < |steps| && !TouchesMachine(steps[i])
      ensures ReadMachine(json, states[i + 1].files) == ReadMachine(json, states[i].files)
    {
      StepKeepsMachine(sha, json, states[i], steps[i], states[i + 1]);
    }
    forall i | 0 <= i < |steps| && !WritesByHand(steps[i]) && !ReadMachine(json, states[i].files).Parsed?
      ensures !ReadMachine(json, states[i + 1].files).Parsed?
    {
      StepKeepsUnparsed(sha, json, states[i], steps[i], states[i + 1]);
    }
  }

  lemma {:induction false} UntouchedIsKept(json: Json, states: seq<Snapshot>, steps: seq<Step>, b: nat, n: nat)
    requires MachineMoves(json, states, steps) && Untouched(steps, b, n)
    ensures ReadMachine(json, states[n].files) == ReadMachine(json, states[b].files)
    decreases n
  {
    if b == n {
    } else {
      UntouchedIsKept(json, states, steps, b, n - 1);
    }
  }

  lemma MachineIsKept(sha: Digest, json: Json, states: seq<Snapshot>, steps: seq<Step>, b: nat, n: nat)
    requires IsRun(sha, json, states, steps) && Untouched(steps, b, n)
    ensures ReadMachine(json, states[n].files) == ReadMachine(json, states[b].files)
  {
    RunMovesMachine(sha, json, states, steps);
    UntouchedIsKept(json, states, steps, b, n);
  }

  /**
   * The verdict in any state of any run, from whatever wrote the machine file last, the start of the run included:
   * it passes exactly when there were stored hashes then, and now the nine fixed files exist, every stored entry is
   * acceptable and the document directories can be listed.
   */
  lemma VerdictSinceMachine(sha: Digest, json: Json, states: seq<Snapshot>, steps: seq<Step>, b: nat, n: nat)
    requires IsRun(sha, json, states, steps) && Untouched(steps, b, n)
    ensures Passes(sha, json, states[n]) <==>
            FilesPass(sha, states[n].files, StoredHashes(ReadMachine(json, states[b].files)))
  {
    MachineIsKept(sha, json, states, steps, b, n);
    RunIsConsistent(sha, json, states, steps, n);
    PassesOnFiles(sha, json, states[n]);
  }

  /**
   * Everything recorded is still there with the recorded hash, nothing was missing when it was recorded, and the
   * document directories can be listed.
   */
  ghost predicate Intact(sha: Digest, recorded: Files, current: Files) {
    AllFixedPresent(recorded) && HashesKept(Bundler, sha, recorded, current) && ListingsReadable(current)
  }

  lemma BaselinePasses(sha: Digest, json: Json, s0: Snapshot, s1: Snapshot)
    requires Consistent(s0) && Consistent(s1)
    requires ReadMachine(json, s1.files) == Parsed(Some(BaselineOf(Bundler, sha, s0)))
    ensures Passes(sha, json, s1) <==> Intact(sha, s0.files, s1.files)
  {
    BaselineVerdict(Bundler, sha, s0, s1);
    if PassesAgainst(Bundler, sha, s0, s1) {
      PassingCoversFiles(sha, s1, ReadMachine(json, s1.files));
    }
  }

  lemma MachineAfterRebundle(sha: Digest, json: Json, states: seq<Snapshot>, steps: seq<Step>, b: nat, n: nat)
    requires IsRun(sha, json, states, steps) && LastRebundle(steps, b, n)
    ensures ReadMachine(json, states[n].files) == Parsed(Some(BaselineOf(Bundler, sha, states[b])))
  {
    assert Next(sha, json, states[b], steps[b], states[b + 1]);
    MachineIsKept(sha, json, states, steps, b + 1, n);
  }

  /**
   * After a re-bundling, the verdict compares the files of that moment with the present ones, and nothing that
   * happened in between matters.
   */
  lemma RunVerdict(sha: Digest, json: Json, states: seq<Snapshot>, steps: seq<Step>, b: nat, n: nat)
    requires IsRun(sha, json, states, steps) && LastRebundle(steps, b, n)
    ensures Passes(sha, json, states[n]) <==> Intact(sha, states[b].files, states[n].files)
  {
    MachineAfterRebundle(sha, json, states, steps, b, n);
    RunIsConsistent(sha, json, states, steps, b);
    RunIsConsistent(sha, json, states, steps, n);
    BaselinePasses(sha, json, states[b], states[n]);
  }

  /** The same on texts: what the bundler read then, every file without its header, is what the validator reads now. */
  lemma RunVerdictOnTexts(sha: Digest, json: Json, states: seq<Snapshot>, steps: seq<Step>, b: nat, n: nat)
    requires IsRun(sha, json, states, steps) && LastRebundle(steps, b, n)
    requires NoCollision(Bundler, sha, states[b].files, states[n].files)
    ensures Passes(sha, json, states[n]) <==>
            && AllFixedPresent(states[b].files)
            && TextsKept(Bundler, states[b].files, states[n].files)
            && ListingsReadable(states[n].files)
  {
    RunVerdict(sha, json, states, steps, b, n);
    HashesKeptIffTextsKept(Bundler, sha, states[b].files, states[n].files);
  }

  /** After a re-bundling all four validating modes give one exit code, and it tells whether everything is intact. */
  lemma ExitCodesInRuns(sha: Digest, json: Json, root: seq<string>, args: seq<string>,
                        states: seq<Snapshot>, steps: seq<Step>, b: nat, n: nat)
    requires IsRun(sha, json, states, steps) && LastRebundle(steps, b, n)
    requires IsChainMode(args) || IsPreCommit(args)
    ensures RunOn(sha, json, root, args, states[n]).code == 0 <==>
            Intact(sha, states[b].files, states[n].files)
  {
    RunVerdict(sha, json, states, steps, b, n);
    MachineAfterRebundle(sha, json, states, steps, b, n);
    BaselineHasContract(Bundler, sha, states[b]);
    CodeUnderContract(sha, root, args, states[n], ReadMachine(json, states[n].files));
  }

  lemma CodeUnderContract(sha: Digest, root: seq<string>, args: seq<string>, s: Snapshot, machine: MachineFile)
    requires IsChainMode(args) || IsPreCommit(args)
    requires ContractRecorded(machine)
    ensures Run(sha, root, args, s, machine).code == 0 <==> BundleReport(sha, s, machine).passed && !CannotBuild(s)
  {
    ExitZero(sha, root, args, s, machine);
    ModesDiffer();
  }

  /** A machine file that does not parse stays so until somebody writes it by hand. */
  lemma {:induction false} UnparsedUntilWritten(json: Json, states: seq<Snapshot>, steps: seq<Step>, n: nat)
    requires MachineMoves(json, states, steps) && n < |states|
    requires MACHINE_PATH !in states[0].files || json(states[0].files[MACHINE_PATH]) == None
    requires forall i :: 0 <= i < n ==> !WritesByHand(steps[i])
    ensures !ReadMachine(json, states[n].files).Parsed?
    decreases n
  {
    if n == 0 {
    } else {
      UnparsedUntilWritten(json, states, steps, n - 1);
    }
  }

  /** From an absent machine file or one that does not parse, no run passes before the file is written by hand. */
  lemma PassingNeedsAWrite(sha: Digest, json: Json, states: seq<Snapshot>, steps: seq<Step>, n: nat)
    requires IsRun(sha, json, states, steps) && n < |states|
    requires MACHINE_PATH !in states[0].files || json(states[0].files[MACHINE_PATH]) == None
    requires Passes(sha, json, states[n])
    ensures exists i :: 0 <= i < n && WritesByHand(steps[i])
  {
    RunMovesMachine(sha, json, states, steps);
    if forall i :: 0 <= i < n ==> !WritesByHand(steps[i]) {
      UnparsedUntilWritten(json, states, steps, n);
    }
  }
}
