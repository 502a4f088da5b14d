/** What is left of one run (src/bench_run.rs), whatever fails in it: when it is recorded and what its
    journal says, compared with what is reported. A run among others does what it does alone. */
module RunOutcomes {
  import opened Wrappers
  import opened Journals
  import opened ResultStore

  /** `n` steps of one run, with nothing in between. */
  function Steps(h: Hashes, d: Disk, r: Run, env: nat -> Choice, n: nat): (Disk, Run) {
    if n == 0 then (d, r)
    else
      var before := Steps(h, d, r, env, n - 1);
      Step(h, before.0, before.1, env(n - 1))
  }

  /** The disk once the run has begun, and the run, which goes on only if its first file was written. */
  function FirstDisk(d: Disk, newborn: JournalFile, begin: Write): Disk {
    PutJournal(d, newborn.runId, Persist(newborn, begin).file)
  }

  function FirstRun(newborn: JournalFile, begin: Write): Run {
    Run(if Persist(newborn, begin).ok then Readying else Finished(false), newborn, "", "", None)
  }

  /** Disk and run after `n` steps of a run that begins on `d`. */
  function After(h: Hashes, d: Disk, newborn: JournalFile, begin: Write, env: nat -> Choice, n: nat): (Disk, Run) {
    Steps(h, FirstDisk(d, newborn, begin), FirstRun(newborn, begin), env, n)
  }

  /** Eleven steps are all that a run takes. */
  function Ending(h: Hashes, d: Disk, newborn: JournalFile, begin: Write, env: nat -> Choice): (Disk, Run) {
    After(h, d, newborn, begin, env, 11)
  }

  lemma StepsBegin(h: Hashes, d: Disk, r: Run, env: nat -> Choice)
    ensures Steps(h, d, r, env, 0) == (d, r)
  {
  }

  lemma StepsGo(h: Hashes, d: Disk, r: Run, env: nat -> Choice, n: nat)
    ensures Steps(h, d, r, env, n + 1) ==
      Step(h, Steps(h, d, r, env, n).0, Steps(h, d, r, env, n).1, env(n))
  {
  }

  lemma {:induction false} FinishedIsLast(h: Hashes, d: Disk, r: Run, env: nat -> Choice, n: nat, m: nat)
    requires Steps(h, d, r, env, n).1.pc.Finished? && n <= m
    ensures Steps(h, d, r, env, m) == Steps(h, d, r, env, n)
    decreases m
  {
    hide Steps;
    if n < m {
      FinishedIsLast(h, d, r, env, n, m - 1);
      StepsGo(h, d, r, env, m - 1);
      hide Advance, BindLocks, Complete, Fail, SaveStep, PublishStep, ExecuteStep;
    }
  }

  lemma FailureIsLast(h: Hashes, d: Disk, r: Run, env: nat -> Choice, n: nat)
    requires Steps(h, d, r, env, n).1.pc == Failing && n <= 10
    ensures
      var (before, c) := (Steps(h, d, r, env, n), env(n));
      var o := Fail(before.1.memory, c.message, c.clock, c.write);
      Steps(h, d, r, env, 11)
        == (PutJournal(before.0, before.1.memory.runId, o.file),
            before.1.(memory := o.memory, pc := Finished(false)))
  {
    hide Steps, Fail;
    StepsGo(h, d, r, env, n);
    FinishedIsLast(h, d, r, env, n + 1, 11);
  }

  // ------------------------------------------------------------------------ where a run stands

  /** The number of steps after which a run that has not failed stands at `pc`. */
  function Place(pc: Pc): nat {
    match pc
    case Readying => 0
    case Binding => 1
    case Resolving => 2
    case Starting => 3
    case Executing => 4
    case Collecting => 5
    case Submitting => 6
    case Saving => 7
    case Completing(_) => 8
    case Publishing => 9
    case Failing => 11
    case Finished(ok) => if ok then 10 else 11
  }

  lemma {:induction false} PlaceByStep(h: Hashes, d: Disk, r: Run, env: nat -> Choice, n: nat)
    requires r.pc == Readying && n <= 11
    ensures n <= 10 ==> Place(Steps(h, d, r, env, n).1.pc) in {n, 11}
    ensures n == 11 ==> Steps(h, d, r, env, n).1.pc.Finished?
  {
    hide Steps, Step;
    StepsBegin(h, d, r, env);
    if n > 0 {
      PlaceByStep(h, d, r, env, n - 1);
      var before := Steps(h, d, r, env, n - 1);
      NextPlace(h, before.0, before.1, env(n - 1));
      StepsGo(h, d, r, env, n - 1);
    }
  }

  lemma NextPlace(h: Hashes, d: Disk, r: Run, c: Choice)
    ensures
      var pc := Step(h, d, r, c).1.pc;
      if r.pc == Failing then pc == Finished(false)
      else if r.pc.Finished? then pc == r.pc
      else pc == Failing || Place(pc) == Place(r.pc) + 1
  {
    hide Advance, BindLocks, Complete, Fail, ValidRecord, Load;
  }

  /** The run is open: neither its journal on disk nor the one in memory is terminal. */
  ghost predicate Unclosed(h: Hashes, f: Files, r: Run) {
    && RunOk(h, f, r) && !Terminal(r.memory.stage)
    && f.journal.Some? && !Terminal(f.journal.value.stage)
  }

  lemma StepLeavesOpen(h: Hashes, d: Disk, r: Run, c: Choice)
    requires Sound(h) && Unclosed(h, FilesOfRun(d, r.memory.runId), r) && Place(r.pc) < 8
    ensures
      var s := Step(h, d, r, c);
      s.1.memory.runId == r.memory.runId && Unclosed(h, FilesOfRun(s.0, r.memory.runId), s.1)
  {
    StepKeepsRun(h, d, r, c);
    StepKeepsIdentifier(h, d, r, c);
    StepWritesMemory(h, d, r, c);
    StepDoesNotClose(h, d, r, c);
    hide Step, RunOk, FilesOfRun;
  }

  lemma StepDoesNotClose(h: Hashes, d: Disk, r: Run, c: Choice)
    requires !Terminal(r.memory.stage) && Place(r.pc) < 8
    ensures !Terminal(Step(h, d, r, c).1.memory.stage)
  {
    hide ValidDigest, ValidRecord, Load, NewRecord;
  }

  /** As long as a run has not failed, and before its completing step, it is open. */
  lemma {:induction false} OpenUntilCompleting(h: Hashes, d: Disk, r: Run, env: nat -> Choice, n: nat)
    requires Sound(h) && Unclosed(h, FilesOfRun(d, r.memory.runId), r) && r.pc == Readying && n <= 8
    requires n > 0 ==> Place(Steps(h, d, r, env, n - 1).1.pc) == n - 1
    ensures
      var s := Steps(h, d, r, env, n);
      s.1.memory.runId == r.memory.runId && Unclosed(h, FilesOfRun(s.0, r.memory.runId), s.1)
  {
    StepsBegin(h, d, r, env);
    if n > 0 {
      if n > 1 {
        PlaceByStep(h, d, r, env, n - 2);
        StepsGo(h, d, r, env, n - 2);
        var earlier := Steps(h, d, r, env, n - 2);
        NextPlace(h, earlier.0, earlier.1, env(n - 2));
      }
      hide Steps, Step, Unclosed;
      OpenUntilCompleting(h, d, r, env, n - 1);
      var before := Steps(h, d, r, env, n - 1);
      StepLeavesOpen(h, before.0, before.1, env(n - 1));
      StepsGo(h, d, r, env, n - 1);
    }
  }

  /** A run stands at its failure handling only when its step before it failed. */
  lemma FailedStep(h: Hashes, d: Disk, r: Run, env: nat -> Choice, n: nat)
    requires r.pc == Readying && Steps(h, d, r, env, n).1.pc == Failing
    ensures 1 <= n <= 10 && Place(Steps(h, d, r, env, n - 1).1.pc) == n - 1
  {
    hide Steps, Step;
    StepsBegin(h, d, r, env);
    if n > 11 {
      PlaceByStep(h, d, r, env, 11);
      FinishedIsLast(h, d, r, env, 11, n);
    }
    PlaceByStep(h, d, r, env, n);
    PlaceByStep(h, d, r, env, n - 1);
    var before := Steps(h, d, r, env, n - 1);
    NextPlace(h, before.0, before.1, env(n - 1));
    StepsGo(h, d, r, env, n - 1);
  }

  /** A run that has left the straight way stood at its failure handling after one of its steps. */
  lemma {:induction false} FailsSomewhere(h: Hashes, d: Disk, r: Run, env: nat -> Choice, m: nat) returns (n: nat)
    requires r.pc == Readying && m <= 11 && Steps(h, d, r, env, m).1.pc in {Failing, Finished(false)}
    ensures n <= m && Steps(h, d, r, env, n).1.pc == Failing
  {
    hide Steps, Step;
    StepsBegin(h, d, r, env);
    n := m;
    if Steps(h, d, r, env, m).1.pc != Failing {
      var before := Steps(h, d, r, env, m - 1);
      NextPlace(h, before.0, before.1, env(m - 1));
      StepsGo(h, d, r, env, m - 1);
      n := FailsSomewhere(h, d, r, env, m - 1);
    }
  }

  /** The completing step: the file is completed exactly if the clock could be read and the write replaced
      it; memory is closed in any case. */
  lemma CompletingStep(h: Hashes, d: Disk, r: Run, c: Choice)
    requires RunOk(h, FilesOfRun(d, r.memory.runId), r) && r.pc.Completing?
    ensures
      var s, id, replaced := Step(h, d, r, c), r.memory.runId, c.clock.Some? && c.write != Unchanged;
      && s.1.memory.runId == id && s.1.memory.stage == Completed
      && s.1.pc == (if c.clock.Some? && c.write == Written then Publishing else Failing)
      && id in s.0.journals && s.0.journals[id].stage == if replaced then Completed else Judging
  {
    hide Backed, Loadable, ValidDetails, ValidUsage, LogMatches, JournalOk;
  }

  /** A published result can always be loaded, so only its pointer and the printing can fail. */
  lemma PublishingStep(h: Hashes, d: Disk, r: Run, c: Choice)
    requires RunOk(h, FilesOfRun(d, r.memory.runId), r) && r.pc == Publishing
    ensures
      var s := Step(h, d, r, c);
      && s.0.journals == d.journals && s.1.memory == r.memory
      && s.0.latest == (if c.write == Unchanged then d.latest else Some(r.memory.runId))
      && s.1.pc == if c.write == Written && !c.lateTrouble then Finished(true) else Failing
  {
    LoadedIsBacked(h, d, r.memory.runId);
    hide Backed, Load, Loadable;
  }

  // ------------------------------------------------------------------ what is left of a run

  /** A run that begins is open and stands at its first step. */
  lemma BeginsOpen(h: Hashes, d: Disk, id: string, now: nat, task: string, agent: string)
    requires ValidRunId(id) && FilesOfRun(d, id) == Files(None, None, None)
    ensures
      var newborn := Fresh(id, now, task, agent);
      Unclosed(h, FilesOfRun(FirstDisk(d, newborn, Written), id), FirstRun(newborn, Written))
  {
    FreshRunIsOk(h, d, id, Begin(now, 0, 0, task, agent, Written));
    hide RunOk, ValidRunId;
  }

  /** A run whose first file fails: nothing is left, or an open journal. */
  lemma JournalOfARunThatNeverStarts(
    h: Hashes, d: Disk, id: string, now: nat, task: string, agent: string, begin: Write, env: nat -> Choice)
    requires FilesOfRun(d, id) == Files(None, None, None) && begin != Written
    ensures
      var end := Ending(h, d, Fresh(id, now, task, agent), begin, env);
      && end.1.pc == Finished(false) && (id in end.0.journals <==> begin == ReplacedThenFailed)
      && (id in end.0.journals ==> end.0.journals[id].stage == Planned)
  {
    var newborn := Fresh(id, now, task, agent);
    StepsBegin(h, FirstDisk(d, newborn, begin), FirstRun(newborn, begin), env);
    FinishedIsLast(h, FirstDisk(d, newborn, begin), FirstRun(newborn, begin), env, 0, 11);
    hide Steps;
  }

  /** The journal of a run that fails after `n` steps. Up to the saving of the result it is failed, unless
      the failure handling cannot read its clock or its write does not replace the file: then it stays open.
      A run that fails in its completing step is completed or stays at judging, and one that fails in its
      publication is completed. */
  lemma JournalOfAFailedRun(
    h: Hashes, d: Disk, id: string, now: nat, task: string, agent: string, env: nat -> Choice, n: nat)
    requires Sound(h) && ValidRunId(id) && FilesOfRun(d, id) == Files(None, None, None)
    requires After(h, d, Fresh(id, now, task, agent), Written, env, n).1.pc == Failing
    ensures
      var end := Ending(h, d, Fresh(id, now, task, agent), Written, env);
      && 1 <= n <= 10 && end.1.pc == Finished(false) && id in end.0.journals
      && var stage := end.0.journals[id].stage;
         if n <= 8 then
           if env(n).clock.Some? && env(n).write != Unchanged then stage == Failed else !Terminal(stage)
         else if n == 9 then
           stage == if env(8).clock.Some? && env(8).write != Unchanged then Completed else Judging
         else stage == Completed
  {
    hide Steps, Step, RunOk, Unclosed;
    var d0, r0 := FirstDisk(d, Fresh(id, now, task, agent), Written), FirstRun(Fresh(id, now, task, agent), Written);
    BeginsOpen(h, d, id, now, task, agent);
    FailedStep(h, d0, r0, env, n);
    FailureIsLast(h, d0, r0, env, n);
    if n <= 8 {
      OpenUntilCompleting(h, d0, r0, env, n);
      FailingCloses(h, Steps(h, d0, r0, env, n).0, Steps(h, d0, r0, env, n).1, env(n));
    } else {
      ReachesCompleting(h, d0, r0, env, n - 1);
      if n == 10 {
        var s9 := Steps(h, d0, r0, env, 9);
        PublishingStep(h, s9.0, s9.1, env(9));
        StepsGo(h, d0, r0, env, 9);
      }
    }
  }

  /** Failure handling of a run that is open, and of one that is closed in memory. */
  lemma FailingCloses(h: Hashes, d: Disk, r: Run, c: Choice)
    requires Unclosed(h, FilesOfRun(d, r.memory.runId), r)
    ensures
      var o, id := Fail(r.memory, c.message, c.clock, c.write), r.memory.runId;
      var d' := PutJournal(d, id, o.file);
      && id in d'.journals
      && if c.clock.Some? && c.write != Unchanged then d'.journals[id].stage == Failed
         else !Terminal(d'.journals[id].stage)
  {
    hide RunOk;
  }

  /** A run that stands at its completing step or has taken it without failing before. */
  lemma ReachesCompleting(h: Hashes, d: Disk, r: Run, env: nat -> Choice, n: nat)
    requires Sound(h) && Unclosed(h, FilesOfRun(d, r.memory.runId), r) && r.pc == Readying
    requires 8 <= n <= 9 && Place(Steps(h, d, r, env, n).1.pc) == n
    ensures
      var s8, s9, id := Steps(h, d, r, env, 8), Steps(h, d, r, env, 9), r.memory.runId;
      && s8.1.pc.Completing? && s9.1.memory.runId == id && s9.1.memory.stage == Completed
      && s9.1.pc == (if env(8).clock.Some? && env(8).write == Written then Publishing else Failing)
      && RunOk(h, FilesOfRun(s9.0, id), s9.1) && id in s9.0.journals
      && s9.0.journals[id].stage == if env(8).clock.Some? && env(8).write != Unchanged then Completed else Judging
  {
    hide Steps, Step, Unclosed, RunOk;
    if n == 9 {
      PlaceByStep(h, d, r, env, 8);
      StepsGo(h, d, r, env, 8);
      NextPlace(h, Steps(h, d, r, env, 8).0, Steps(h, d, r, env, 8).1, env(8));
    }
    PlaceByStep(h, d, r, env, 7);
    StepsGo(h, d, r, env, 7);
    NextPlace(h, Steps(h, d, r, env, 7).0, Steps(h, d, r, env, 7).1, env(7));
    OpenUntilCompleting(h, d, r, env, 8);
    OpenIsOk(h, d, r, env);
    var s8 := Steps(h, d, r, env, 8);
    CompletingStep(h, s8.0, s8.1, env(8));
    StepKeepsRun(h, s8.0, s8.1, env(8));
    StepsGo(h, d, r, env, 8);
  }

  lemma OpenIsOk(h: Hashes, d: Disk, r: Run, env: nat -> Choice)
    requires Unclosed(h, FilesOfRun(Steps(h, d, r, env, 8).0, r.memory.runId), Steps(h, d, r, env, 8).1)
    ensures RunOk(h, FilesOfRun(Steps(h, d, r, env, 8).0, r.memory.runId), Steps(h, d, r, env, 8).1)
  {
    hide RunOk, Steps;
  }

  /** Whatever is reported, a run is recorded exactly if it came to its completing step and that step's
      write replaced the journal. */
  lemma RecordedExactlyWhen(
    h: Hashes, d: Disk, id: string, now: nat, task: string, agent: string, begin: Write, env: nat -> Choice)
    requires Sound(h) && ValidRunId(id) && FilesOfRun(d, id) == Files(None, None, None)
    ensures
      var newborn := Fresh(id, now, task, agent);
      HasCompleted(Ending(h, d, newborn, begin, env).0, id) <==>
        && After(h, d, newborn, begin, env, 8).1.pc.Completing?
        && env(8).clock.Some? && env(8).write != Unchanged
  {
    hide Steps, Step, RunOk, Unclosed;
    var newborn := Fresh(id, now, task, agent);
    var d0, r0 := FirstDisk(d, newborn, begin), FirstRun(newborn, begin);
    StepsBegin(h, d0, r0, env);
    if begin != Written {
      JournalOfARunThatNeverStarts(h, d, id, now, task, agent, begin, env);
      FinishedIsLast(h, d0, r0, env, 0, 8);
    } else {
      BeginsOpen(h, d, id, now, task, agent);
      PlaceByStep(h, d0, r0, env, 8);
      PlaceByStep(h, d0, r0, env, 11);
      if After(h, d, newborn, begin, env, 8).1.pc.Completing? {
        RecordedFromCompleting(h, d, id, now, task, agent, env);
      } else {
        var n := FailsSomewhere(h, d0, r0, env, 8);
        FinalAfterFailure(h, d0, r0, env, n);
        JournalOfAFailedRun(h, d, id, now, task, agent, env, n);
      }
    }
  }

  lemma FinalAfterFailure(h: Hashes, d: Disk, r: Run, env: nat -> Choice, n: nat)
    requires Steps(h, d, r, env, n).1.pc == Failing && n <= 8
    ensures Steps(h, d, r, env, 11).1.pc == Finished(false)
  {
    FailureIsLast(h, d, r, env, n);
    hide Steps;
  }

  /** From the completing step on the journal file is what that step made it. */
  lemma RecordedFromCompleting(
    h: Hashes, d: Disk, id: string, now: nat, task: string, agent: string, env: nat -> Choice)
    requires Sound(h) && ValidRunId(id) && FilesOfRun(d, id) == Files(None, None, None)
    requires After(h, d, Fresh(id, now, task, agent), Written, env, 8).1.pc.Completing?
    ensures
      var end := Ending(h, d, Fresh(id, now, task, agent), Written, env);
      && (HasCompleted(end.0, id) <==> env(8).clock.Some? && env(8).write != Unchanged)
      && end.1.pc == Finished(env(8).clock.Some? && env(8).write == Written
                              && env(9).write == Written && !env(9).lateTrouble)
  {
    var newborn := Fresh(id, now, task, agent);
    var d0, r0 := FirstDisk(d, newborn, Written), FirstRun(newborn, Written);
    BeginsOpen(h, d, id, now, task, agent);
    ReachesCompleting(h, d0, r0, env, 8);
    hide Steps, Step, RunOk;
    var s9 := Steps(h, d0, r0, env, 9);
    if s9.1.pc == Failing {
      JournalOfAFailedRun(h, d, id, now, task, agent, env, 9);
    } else {
      PublishingStep(h, s9.0, s9.1, env(9));
      StepsGo(h, d0, r0, env, 9);
      if Steps(h, d0, r0, env, 10).1.pc == Failing {
        JournalOfAFailedRun(h, d, id, now, task, agent, env, 10);
      } else {
        FinishedIsLast(h, d0, r0, env, 10, 11);
      }
    }
  }

  /** A run is reported as failed although it is recorded in exactly two ways: the completed journal was
      written but could not be synchronised, or it was written and then the pointer to the latest result or
      the printing failed. Every other report agrees with the record. */
  lemma MisreportedExactlyWhen(
    h: Hashes, d: Disk, id: string, now: nat, task: string, agent: string, begin: Write, env: nat -> Choice)
    requires Sound(h) && ValidRunId(id) && FilesOfRun(d, id) == Files(None, None, None)
    ensures
      var newborn := Fresh(id, now, task, agent);
      var end := Ending(h, d, newborn, begin, env);
      && end.1.pc.Finished? && (end.1.pc.ok ==> HasCompleted(end.0, id))
      && (!end.1.pc.ok && HasCompleted(end.0, id) <==>
            && After(h, d, newborn, begin, env, 8).1.pc.Completing? && env(8).clock.Some?
            && (env(8).write == ReplacedThenFailed
                || (env(8).write == Written && (env(9).write != Written || env(9).lateTrouble))))
  {
    hide Steps, Step, RunOk, Unclosed;
    var newborn := Fresh(id, now, task, agent);
    var d0, r0 := FirstDisk(d, newborn, begin), FirstRun(newborn, begin);
    RecordedExactlyWhen(h, d, id, now, task, agent, begin, env);
    StepsBegin(h, d0, r0, env);
    if begin != Written {
      FinishedIsLast(h, d0, r0, env, 0, 11);
      FinishedIsLast(h, d0, r0, env, 0, 8);
    } else {
      PlaceByStep(h, d0, r0, env, 8);
      PlaceByStep(h, d0, r0, env, 11);
      if After(h, d, newborn, begin, env, 8).1.pc.Completing? {
        RecordedFromCompleting(h, d, id, now, task, agent, env);
      } else {
        var n := FailsSomewhere(h, d0, r0, env, 8);
        FinalAfterFailure(h, d0, r0, env, n);
      }
    }
  }

  // ------------------------------------------------------------------- a run among other runs

  /** Two outcomes of a step: the run comes out the same, and so do its files. */
  predicate SameForRun(id: string, s: (Disk, Run), s': (Disk, Run)) {
    s.1 == s'.1 && FilesOfRun(s.0, id) == FilesOfRun(s'.0, id)
  }

  lemma JournalStepSeesOwnFiles(d: Disk, d': Disk, r: Run, o: Outcome, next: Pc)
    requires FilesOfRun(d, r.memory.runId) == FilesOfRun(d', r.memory.runId)
    ensures SameForRun(r.memory.runId, JournalStep(d, r, o, next), JournalStep(d', r, o, next))
  {
  }

  lemma OtherStepsSeeOwnFiles(h: Hashes, d: Disk, d': Disk, r: Run, c: Choice)
    requires FilesOfRun(d, r.memory.runId) == FilesOfRun(d', r.memory.runId)
    ensures SameForRun(r.memory.runId, ExecuteStep(h, d, r, c), ExecuteStep(h, d', r, c))
    ensures SameForRun(r.memory.runId, SaveStep(h, d, r, c), SaveStep(h, d', r, c))
    ensures SameForRun(r.memory.runId, PublishStep(h, d, r, c), PublishStep(h, d', r, c))
  {
    assert Load(h, d, r.memory.runId).Found? == Load(h, d', r.memory.runId).Found? by { hide Backed; }
    hide Load, ValidRecord, NewRecord;
  }

  /** A step of a run depends on the files of that run alone. */
  lemma StepSeesOwnFiles(h: Hashes, d: Disk, d': Disk, r: Run, c: Choice)
    requires FilesOfRun(d, r.memory.runId) == FilesOfRun(d', r.memory.runId)
    ensures SameForRun(r.memory.runId, Step(h, d, r, c), Step(h, d', r, c))
  {
    if c.trouble && Place(r.pc) < 8 {
      TroubleSeesOwnFiles(h, d, d', r, c);
    } else if Advancing(r.pc).Some? {
      var (stage, next) := Advancing(r.pc).value;
      AdvancingStep(h, d, r, c);
      AdvancingStep(h, d', r, c);
      JournalStepSeesOwnFiles(d, d', r, Advance(r.memory, stage, c.clock, c.write), next);
    } else if r.pc == Binding {
      BindingSeesOwnFiles(h, d, d', r, c);
    } else if r.pc.Completing? {
      CompletingSeesOwnFiles(h, d, d', r, c);
    } else {
      OtherStepsSeeOwnFiles(h, d, d', r, c);
      LastStepsSeeOwnFiles(h, d, d', r, c);
    }
    hide *;
  }

  lemma TroubleSeesOwnFiles(h: Hashes, d: Disk, d': Disk, r: Run, c: Choice)
    requires FilesOfRun(d, r.memory.runId) == FilesOfRun(d', r.memory.runId) && c.trouble && Place(r.pc) < 8
    ensures SameForRun(r.memory.runId, Step(h, d, r, c), Step(h, d', r, c))
  {
    hide Advance, BindLocks, Complete, Fail, JournalStep, ExecuteStep, SaveStep, PublishStep;
  }

  lemma BindingSeesOwnFiles(h: Hashes, d: Disk, d': Disk, r: Run, c: Choice)
    requires FilesOfRun(d, r.memory.runId) == FilesOfRun(d', r.memory.runId) && r.pc == Binding && !c.trouble
    ensures SameForRun(r.memory.runId, Step(h, d, r, c), Step(h, d', r, c))
  {
    JournalStepSeesOwnFiles(d, d', r.(taskLock := c.taskLock, candidateLock := c.candidateLock),
                            BindLocks(r.memory, c.taskLock, c.candidateLock, c.clock, c.write), Resolving);
    hide BindLocks, JournalStep;
  }

  lemma CompletingSeesOwnFiles(h: Hashes, d: Disk, d': Disk, r: Run, c: Choice)
    requires FilesOfRun(d, r.memory.runId) == FilesOfRun(d', r.memory.runId) && r.pc.Completing?
    ensures SameForRun(r.memory.runId, Step(h, d, r, c), Step(h, d', r, c))
  {
    var path := ResultPath(r.memory.runId);
    JournalStepSeesOwnFiles(
      d, d', r, Complete(r.memory, path, r.pc.record.resultDigest, c.clock, c.write), Publishing);
    hide Complete, JournalStep, ResultPath;
  }

  lemma LastStepsSeeOwnFiles(h: Hashes, d: Disk, d': Disk, r: Run, c: Choice)
    requires FilesOfRun(d, r.memory.runId) == FilesOfRun(d', r.memory.runId)
    requires r.pc in {Executing, Saving, Publishing, Failing} || r.pc.Finished?
    requires !c.trouble || Place(r.pc) >= 8
    requires SameForRun(r.memory.runId, ExecuteStep(h, d, r, c), ExecuteStep(h, d', r, c))
    requires SameForRun(r.memory.runId, SaveStep(h, d, r, c), SaveStep(h, d', r, c))
    requires SameForRun(r.memory.runId, PublishStep(h, d, r, c), PublishStep(h, d', r, c))
    ensures SameForRun(r.memory.runId, Step(h, d, r, c), Step(h, d', r, c))
  {
    hide Fail, JournalStep, ExecuteStep, SaveStep, PublishStep;
  }

  /** The action with which run `i` began. */
  function BeginOf(h: Hashes, actions: seq<Action>, i: nat): Action
    requires i < |History(h, actions).runs|
    decreases |actions|
  {
    var shorter, last := actions[..|actions| - 1], actions[|actions| - 1];
    if i < |History(h, shorter).runs| then BeginOf(h, shorter, i) else last
  }

  /** The choices of the steps that run `i` has taken, in their order. */
  function ChoicesOf(h: Hashes, actions: seq<Action>, i: nat): seq<Choice>
    requires i < |History(h, actions).runs|
    decreases |actions|
  {
    var shorter, last := actions[..|actions| - 1], actions[|actions| - 1];
    if i >= |History(h, shorter).runs| then []
    else ChoicesOf(h, shorter, i) + if last.Act? && last.run == i then [last.choice] else []
  }

  /** An environment that makes these choices, and then any. */
  function Playing(choices: seq<Choice>): nat -> Choice {
    var details := Details(false, "", "", "", "", "", "", "", false, false, map[]);
    var record := Record(V6, "", "", "", "", None, None, None, None, details);
    (k: nat) =>
      if k < |choices| then choices[k]
      else Choice(true, true, None, Unchanged, "", "", false, [], record, "")
  }

  function IdOf(a: Action): string
    requires a.Begin?
  {
    RunId(a.now, a.pid, a.sequence)
  }

  function NewbornOf(a: Action): JournalFile
    requires a.Begin?
  {
    Fresh(IdOf(a), a.now, a.task, a.agent)
  }

  /** The disk and the run that begins so on an empty disk and takes its steps alone, with these choices. */
  function Alone(h: Hashes, a: Action, choices: seq<Choice>): (Disk, Run)
    requires a.Begin?
  {
    After(h, Empty().disk, NewbornOf(a), a.write, Playing(choices), |choices|)
  }

  /** The run and its files are what they would be had it taken its steps alone. */
  ghost predicate LikeAlone(h: Hashes, f: Files, r: Run, a: Action, choices: seq<Choice>)
    requires a.Begin?
  {
    && ValidRunId(IdOf(a)) && r.memory.runId == IdOf(a)
    && r == Alone(h, a, choices).1 && f == FilesOfRun(Alone(h, a, choices).0, IdOf(a))
  }

  lemma {:induction false} SameStepsSoFar(
    h: Hashes, d: Disk, r: Run, env: nat -> Choice, env': nat -> Choice, n: nat)
    requires forall k: nat :: k < n ==> env(k) == env'(k)
    ensures Steps(h, d, r, env, n) == Steps(h, d, r, env', n)
  {
    hide Steps;
    StepsBegin(h, d, r, env);
    StepsBegin(h, d, r, env');
    if n > 0 {
      SameStepsSoFar(h, d, r, env, env', n - 1);
      StepsGo(h, d, r, env, n - 1);
      StepsGo(h, d, r, env', n - 1);
      hide Step;
    }
  }

  lemma StartsAlone(h: Hashes, a: Action)
    requires a.Begin?
    ensures Alone(h, a, []) == (FirstDisk(Empty().disk, NewbornOf(a), a.write), FirstRun(NewbornOf(a), a.write))
  {
    hide FirstDisk, FirstRun, NewbornOf, Empty;
    StepsBegin(h, FirstDisk(Empty().disk, NewbornOf(a), a.write), FirstRun(NewbornOf(a), a.write), Playing([]));
  }

  lemma GoesOnAlone(h: Hashes, a: Action, choices: seq<Choice>, c: Choice)
    requires a.Begin?
    ensures Alone(h, a, choices + [c]) == Step(h, Alone(h, a, choices).0, Alone(h, a, choices).1, c)
  {
    hide Steps, Step, FirstDisk, FirstRun, NewbornOf, Empty;
    var d, r := FirstDisk(Empty().disk, NewbornOf(a), a.write), FirstRun(NewbornOf(a), a.write);
    SameStepsSoFar(h, d, r, Playing(choices), Playing(choices + [c]), |choices|);
    StepsGo(h, d, r, Playing(choices + [c]), |choices|);
  }

  /** What a run alone does in its first steps depends on the first choices. */
  lemma FirstStepsAlone(h: Hashes, a: Action, choices: seq<Choice>, n: nat)
    requires a.Begin? && n <= |choices|
    ensures Alone(h, a, choices[..n]) == After(h, Empty().disk, NewbornOf(a), a.write, Playing(choices), n)
  {
    hide Steps, FirstDisk, FirstRun, NewbornOf, Empty;
    var d, r := FirstDisk(Empty().disk, NewbornOf(a), a.write), FirstRun(NewbornOf(a), a.write);
    SameStepsSoFar(h, d, r, Playing(choices), Playing(choices[..n]), n);
  }

  /** One more step of the run among others is one more step of the run alone. */
  lemma StepsAlike(h: Hashes, d: Disk, r: Run, a: Action, choices: seq<Choice>, c: Choice)
    requires a.Begin? && LikeAlone(h, FilesOfRun(d, r.memory.runId), r, a, choices)
    ensures
      var s := Step(h, d, r, c);
      LikeAlone(h, FilesOfRun(s.0, r.memory.runId), s.1, a, choices + [c])
  {
    GoesOnAlone(h, a, choices, c);
    StepSeesOwnFiles(h, d, Alone(h, a, choices).0, r, c);
    StepKeepsIdentifier(h, d, r, c);
    hide Step, Alone, IdOf;
  }

  /** In every history of any number of runs, each run and its files are what they would be if it had begun
      on an empty disk with the action that began it and taken its own steps alone; so what holds of a run
      alone holds of it among others. */
  lemma {:induction false} RunsAreLikeAlone(h: Hashes, actions: seq<Action>, i: nat)
    requires Sound(h) && i < |History(h, actions).runs|
    ensures
      var s, a := History(h, actions), BeginOf(h, actions, i);
      && a in actions && a.Begin?
      && LikeAlone(h, FilesOfRun(s.disk, s.runs[i].memory.runId), s.runs[i], a, ChoicesOf(h, actions, i))
    decreases |actions|
  {
    var shorter, last := actions[..|actions| - 1], actions[|actions| - 1];
    var before, after := History(h, shorter), History(h, actions);
    assert after == Next(h, before, last);
    HistoryIsConsistent(h, shorter);
    if i < |before.runs| {
      RunsAreLikeAlone(h, shorter, i);
      NextAlike(h, before, last, i, BeginOf(h, shorter, i), ChoicesOf(h, shorter, i));
    } else {
      OnlyBeginAdds(h, before, last);
      BeginsAlike(h, before, last);
    }
    hide History, Next, LikeAlone, Consistent;
  }

  lemma OnlyBeginAdds(h: Hashes, s: System, a: Action)
    requires |Next(h, s, a).runs| > |s.runs|
    ensures a.Begin? && |Next(h, s, a).runs| == |s.runs| + 1
  {
    hide Step, Load, RunId, ValidRunId;
  }

  /** Whatever happens next, the run is like one alone that has taken the step too if it was its own. */
  lemma NextAlike(h: Hashes, s: System, e: Action, i: nat, a: Action, choices: seq<Choice>)
    requires Consistent(h, s) && i < |s.runs| && a.Begin?
    requires LikeAlone(h, FilesOfRun(s.disk, s.runs[i].memory.runId), s.runs[i], a, choices)
    ensures
      var s' := Next(h, s, e);
      && |s'.runs| >= |s.runs| && s'.runs[i].memory.runId == s.runs[i].memory.runId
      && LikeAlone(h, FilesOfRun(s'.disk, s'.runs[i].memory.runId), s'.runs[i], a,
                   choices + if e.Act? && e.run == i then [e.choice] else [])
  {
    assert choices + [] == choices;
    if e.Act? {
      ActAlike(h, s, e.run, e.choice, i, a, choices);
    } else if e.Begin? {
      BeginLeavesOthers(h, s, e, i);
    } else {
      RepublishLeavesFiles(h, s, e, s.runs[i].memory.runId);
    }
    hide Next, LikeAlone, Consistent;
  }

  lemma ActAlike(h: Hashes, s: System, j: nat, c: Choice, i: nat, a: Action, choices: seq<Choice>)
    requires Consistent(h, s) && i < |s.runs| && a.Begin?
    requires LikeAlone(h, FilesOfRun(s.disk, s.runs[i].memory.runId), s.runs[i], a, choices)
    ensures
      var s', id := Next(h, s, Act(j, c)), s.runs[i].memory.runId;
      && |s'.runs| == |s.runs| && s'.runs[i].memory.runId == id
      && LikeAlone(h, FilesOfRun(s'.disk, id), s'.runs[i], a, if j == i then choices + [c] else choices)
  {
    if j < |s.runs| {
      StepKeepsIdentifier(h, s.disk, s.runs[j], c);
      if j == i {
        StepsAlike(h, s.disk, s.runs[i], a, choices, c);
      } else {
        OtherRun(h, s, i, j);
        StepTouchesOwnFiles(h, s.disk, s.runs[j], c, s.runs[i].memory.runId);
      }
    }
    hide Step, LikeAlone, FilesOfRun, Consistent;
  }

  lemma RepublishLeavesFiles(h: Hashes, s: System, a: Action, id: string)
    requires a.Republish?
    ensures Next(h, s, a).runs == s.runs && FilesOfRun(Next(h, s, a).disk, id) == FilesOfRun(s.disk, id)
  {
    hide Load;
  }

  lemma OtherRun(h: Hashes, s: System, i: nat, j: nat)
    requires Consistent(h, s) && i < |s.runs| && j < |s.runs| && i != j
    ensures s.runs[i].memory.runId != s.runs[j].memory.runId
  {
    hide RunsOk, FilesOwned, LatestBacked;
  }

  lemma BeginsAlike(h: Hashes, s: System, a: Action)
    requires Consistent(h, s) && a.Begin? && |Next(h, s, a).runs| == |s.runs| + 1
    ensures
      var s' := Next(h, s, a);
      LikeAlone(h, FilesOfRun(s'.disk, s'.runs[|s.runs|].memory.runId), s'.runs[|s.runs|], a, [])
  {
    hide RunId, ValidRunId, Alone;
    NewFilesAreNew(h, s, a);
    StartsAlone(h, a);
    hide Consistent;
  }

  lemma BeginLeavesOthers(h: Hashes, s: System, a: Action, i: nat)
    requires Consistent(h, s) && a.Begin? && i < |s.runs|
    ensures
      var s', id := Next(h, s, a), s.runs[i].memory.runId;
      && |s'.runs| >= |s.runs| && s'.runs[i] == s.runs[i]
      && FilesOfRun(s'.disk, id) == FilesOfRun(s.disk, id)
  {
    assert Taken(s.runs, s.runs[i].memory.runId);
    hide Consistent, RunId, ValidRunId;
  }

  /** The run has taken its completing step, as its ninth. */
  predicate CameToCompletion(h: Hashes, a: Action, choices: seq<Choice>)
    requires a.Begin?
  {
    |choices| > 8 && Alone(h, a, choices[..8]).1.pc.Completing?
  }

  /** Among any number of runs: a run that has been reported is recorded exactly if it came to its completing
      step, its ninth, and that step replaced the journal. The report agrees except in two ways: the
      journal could not be synchronised, or its tenth step, the publication, failed. */
  lemma ReportAndRecord(h: Hashes, actions: seq<Action>, i: nat)
    requires Sound(h) && i < |History(h, actions).runs| && History(h, actions).runs[i].pc.Finished?
    ensures
      var s, a, choices := History(h, actions), BeginOf(h, actions, i), ChoicesOf(h, actions, i);
      var id, ok := s.runs[i].memory.runId, s.runs[i].pc.ok;
      && a in actions && a.Begin?
      && var completing := CameToCompletion(h, a, choices);
      && (completing && choices[8].clock.Some? && choices[8].write == Written ==> |choices| > 9)
      && (HasCompleted(s.disk, id) <==> completing && choices[8].clock.Some? && choices[8].write != Unchanged)
      && (ok ==> HasCompleted(s.disk, id))
      && (!ok && HasCompleted(s.disk, id) <==>
            && completing && choices[8].clock.Some?
            && (choices[8].write == ReplacedThenFailed
                || (choices[8].write == Written && (choices[9].write != Written || choices[9].lateTrouble))))
  {
    var s, a, choices := History(h, actions), BeginOf(h, actions, i), ChoicesOf(h, actions, i);
    RunsAreLikeAlone(h, actions, i);
    LoneReport(h, a, choices);
    hide History, Alone, IdOf, CameToCompletion, BeginOf, ChoicesOf, Sound;
    assert FilesOfRun(s.disk, IdOf(a)) == FilesOfRun(Alone(h, a, choices).0, IdOf(a));
  }

  /** The same of the run alone. */
  lemma LoneReport(h: Hashes, a: Action, choices: seq<Choice>)
    requires Sound(h) && a.Begin? && ValidRunId(IdOf(a)) && Alone(h, a, choices).1.pc.Finished?
    ensures
      var end, completing := Alone(h, a, choices), CameToCompletion(h, a, choices);
      var recorded := HasCompleted(end.0, IdOf(a));
      && (completing && choices[8].clock.Some? && choices[8].write == Written ==> |choices| > 9)
      && (recorded <==> completing && choices[8].clock.Some? && choices[8].write != Unchanged)
      && (end.1.pc.ok ==> recorded)
      && (!end.1.pc.ok && recorded <==>
            && completing && choices[8].clock.Some?
            && (choices[8].write == ReplacedThenFailed
                || (choices[8].write == Written && (choices[9].write != Written || choices[9].lateTrouble))))
  {
    var env := Playing(choices);
    FinishedInTheEnd(h, a, env, |choices|);
    RecordedExactlyWhen(h, Empty().disk, IdOf(a), a.now, a.task, a.agent, a.write, env);
    MisreportedExactlyWhen(h, Empty().disk, IdOf(a), a.now, a.task, a.agent, a.write, env);
    LoneCompleting(h, a, choices);
    hide After, Ending, IdOf;
  }

  /** A finished run has taken enough steps to have completed before. */
  lemma LoneCompleting(h: Hashes, a: Action, choices: seq<Choice>)
    requires Sound(h) && a.Begin? && ValidRunId(IdOf(a)) && Alone(h, a, choices).1.pc.Finished?
    ensures
      var env := Playing(choices);
      var completing := After(h, Empty().disk, NewbornOf(a), a.write, env, 8).1.pc.Completing?;
      && (completing <==> CameToCompletion(h, a, choices))
      && (completing && env(8).clock.Some? && env(8).write == Written ==> |choices| > 9)
  {
    var env, n := Playing(choices), |choices|;
    var d, r := FirstDisk(Empty().disk, NewbornOf(a), a.write), FirstRun(NewbornOf(a), a.write);
    hide Steps, Step, Empty, FirstDisk, FirstRun, NewbornOf, IdOf;
    if n <= 8 {
      FinishedIsLast(h, d, r, env, n, 8);
    } else {
      FirstStepsAlone(h, a, choices, 8);
      if n == 9 && After(h, Empty().disk, NewbornOf(a), a.write, env, 8).1.pc.Completing? {
        NinthStep(h, a, env);
      }
    }
  }

  lemma NinthStep(h: Hashes, a: Action, env: nat -> Choice)
    requires a.Begin? && After(h, Empty().disk, NewbornOf(a), a.write, env, 8).1.pc.Completing?
    ensures !After(h, Empty().disk, NewbornOf(a), a.write, env, 9).1.pc.Finished?
  {
    var d, r := FirstDisk(Empty().disk, NewbornOf(a), a.write), FirstRun(NewbornOf(a), a.write);
    hide Steps, Step, Empty, FirstDisk, FirstRun, NewbornOf;
    var before := Steps(h, d, r, env, 8);
    StepsGo(h, d, r, env, 8);
    NextPlace(h, before.0, before.1, env(8));
  }

  lemma FinishedInTheEnd(h: Hashes, a: Action, env: nat -> Choice, n: nat)
    requires a.Begin? && After(h, Empty().disk, NewbornOf(a), a.write, env, n).1.pc.Finished?
    ensures
      After(h, Empty().disk, NewbornOf(a), a.write, env, n) == Ending(h, Empty().disk, NewbornOf(a), a.write, env)
  {
    var newborn := NewbornOf(a);
    var d, r := FirstDisk(Empty().disk, newborn, a.write), FirstRun(newborn, a.write);
    hide Steps;
    if n <= 11 {
      FinishedIsLast(h, d, r, env, n, 11);
    } else {
      StepsBegin(h, d, r, env);
      if r.pc == Readying {
        PlaceByStep(h, d, r, env, 11);
      } else {
        FinishedIsLast(h, d, r, env, 0, 11);
      }
      FinishedIsLast(h, d, r, env, 11, n);
    }
  }

  // ------------------------------------------------------------- the moment at which a run is recorded

  /** The action at position `m` is the completing step of run `i`, and it replaces the journal. */
  predicate Records(h: Hashes, actions: seq<Action>, m: nat, i: nat) {
    && m < |actions| && actions[m].Act? && actions[m].run == i
    && i < |History(h, actions[..m]).runs| && History(h, actions[..m]).runs[i].pc.Completing?
    && actions[m].choice.clock.Some? && actions[m].choice.write != Unchanged
  }

  /** Only the completing step of a run records it, and nothing undoes that. */
  lemma StepRecordsExactlyWhen(h: Hashes, d: Disk, r: Run, c: Choice)
    requires RunOk(h, FilesOfRun(d, r.memory.runId), r)
    ensures HasCompleted(Step(h, d, r, c).0, r.memory.runId) <==>
      HasCompleted(d, r.memory.runId) || (r.pc.Completing? && c.clock.Some? && c.write != Unchanged)
  {
    if r.pc.Completing? {
      CompletingStep(h, d, r, c);
    } else if HasCompleted(d, r.memory.runId) {
      TerminalFilesStay(h, d, r, c);
    } else {
      OtherStepsRecordNothing(h, d, r, c);
    }
    hide Step, RunOk;
  }

  lemma OtherStepsRecordNothing(h: Hashes, d: Disk, r: Run, c: Choice)
    requires RunOk(h, FilesOfRun(d, r.memory.runId), r)
    requires !r.pc.Completing? && !HasCompleted(d, r.memory.runId)
    ensures !HasCompleted(Step(h, d, r, c).0, r.memory.runId)
  {
    hide Backed, Loadable, ValidRecord, NewRecord, Load, LogMatches, ValidDigest;
  }

  lemma NextRecordsExactlyWhen(h: Hashes, s: System, e: Action, i: nat)
    requires Consistent(h, s) && i < |s.runs|
    ensures
      var s', id := Next(h, s, e), s.runs[i].memory.runId;
      && i < |s'.runs| && s'.runs[i].memory.runId == id
      && (HasCompleted(s'.disk, id) <==>
            || HasCompleted(s.disk, id)
            || (e.Act? && e.run == i && s.runs[i].pc.Completing?
                && e.choice.clock.Some? && e.choice.write != Unchanged))
  {
    var id := s.runs[i].memory.runId;
    if e.Act? {
      if e.run < |s.runs| {
        StepKeepsIdentifier(h, s.disk, s.runs[e.run], e.choice);
        if e.run == i {
          StepRecordsExactlyWhen(h, s.disk, s.runs[i], e.choice);
        } else {
          OtherRun(h, s, i, e.run);
          StepTouchesOwnFiles(h, s.disk, s.runs[e.run], e.choice, id);
          SameFilesSameRecord(s.disk, Next(h, s, e).disk, id);
        }
      }
    } else {
      if e.Begin? {
        BeginLeavesOthers(h, s, e, i);
      } else {
        RepublishLeavesFiles(h, s, e, id);
      }
      SameFilesSameRecord(s.disk, Next(h, s, e).disk, id);
    }
    hide Step, FilesOfRun, HasCompleted;
  }

  lemma SameFilesSameRecord(d: Disk, d': Disk, id: string)
    requires FilesOfRun(d, id) == FilesOfRun(d', id)
    ensures HasCompleted(d, id) <==> HasCompleted(d', id)
  {
  }

  lemma NewRunIsNotRecorded(h: Hashes, s: System, a: Action)
    requires Consistent(h, s) && a.Begin? && |Next(h, s, a).runs| == |s.runs| + 1
    ensures !HasCompleted(Next(h, s, a).disk, Next(h, s, a).runs[|s.runs|].memory.runId)
  {
    NewFilesAreNew(h, s, a);
    hide RunId, ValidRunId, Consistent;
  }

  lemma NewFilesAreNew(h: Hashes, s: System, a: Action)
    requires Consistent(h, s) && a.Begin? && |Next(h, s, a).runs| == |s.runs| + 1
    ensures ValidRunId(IdOf(a)) && FilesOfRun(s.disk, IdOf(a)) == Files(None, None, None)
  {
    hide RunId, ValidRunId, RunsOk, LatestBacked, IdsDiffer;
    assert !Taken(s.runs, IdOf(a));
  }

  /** Runs are never forgotten. */
  lemma {:induction false} RunsStay(h: Hashes, actions: seq<Action>, m: nat)
    requires m <= |actions|
    ensures |History(h, actions[..m]).runs| <= |History(h, actions).runs|
    decreases |actions|
  {
    if m == |actions| {
      assert actions[..m] == actions;
    } else {
      var shorter := actions[..|actions| - 1];
      RunsStay(h, shorter, m);
      assert shorter[..m] == actions[..m];
      HistoryGoesOn(h, actions);
      NextForgetsNone(h, History(h, shorter), actions[|actions| - 1]);
      hide History, Next;
    }
  }

  lemma NextForgetsNone(h: Hashes, s: System, a: Action)
    ensures |Next(h, s, a).runs| >= |s.runs|
  {
    hide Step, Load, RunId, ValidRunId;
  }

  lemma HistoryGoesOn(h: Hashes, actions: seq<Action>)
    requires actions != []
    ensures History(h, actions) == Next(h, History(h, actions[..|actions| - 1]), actions[|actions| - 1])
  {
    hide Next;
  }

  lemma RecordsEarlier(h: Hashes, actions: seq<Action>, m: nat, i: nat)
    requires m + 1 < |actions|
    ensures Records(h, actions, m, i) <==> Records(h, actions[..|actions| - 1], m, i)
  {
    assert actions[..|actions| - 1][..m] == actions[..m];
    hide History;
  }

  /** At every moment of every history, a run is recorded exactly if it has stood at its completing step and
      taken it with a clock that could be read and a write that replaced the journal. */
  lemma {:induction false} RecordedInHistoryExactlyWhen(h: Hashes, actions: seq<Action>, i: nat)
    requires Sound(h) && i < |History(h, actions).runs|
    ensures
      var s := History(h, actions);
      HasCompleted(s.disk, s.runs[i].memory.runId) <==> exists m: nat :: Records(h, actions, m, i)
    decreases |actions|
  {
    assert actions != [];
    hide History, Next, Consistent, HasCompleted, Records, Sound;
    HistoryGoesOn(h, actions);
    var n := |actions| - 1;
    var shorter, last := actions[..n], actions[n];
    var before := History(h, shorter);
    HistoryIsConsistent(h, shorter);
    if i < |before.runs| {
      RecordedInHistoryExactlyWhen(h, shorter, i);
      NextRecordsExactlyWhen(h, before, last, i);
      LastRecords(h, actions, i);
      RecordsSplit(h, actions, i);
    } else {
      OnlyBeginAdds(h, before, last);
      NewRunIsNotRecorded(h, before, last);
      forall m: nat ensures !Records(h, actions, m, i) {
        NotThereYet(h, actions, m, i);
      }
    }
  }

  /** The last action, or one before. */
  lemma RecordsSplit(h: Hashes, actions: seq<Action>, i: nat)
    requires actions != []
    ensures
      var n := |actions| - 1;
      (exists m: nat :: Records(h, actions, m, i)) <==>
        Records(h, actions, n, i) || exists m: nat :: Records(h, actions[..n], m, i)
  {
    var n := |actions| - 1;
    var shorter := actions[..n];
    hide Records;
    forall m: nat ensures Records(h, shorter, m, i) ==> m < n && Records(h, actions, m, i) {
      OnlyActionsRecord(h, shorter, m, i);
      if m < n {
        RecordsEarlier(h, actions, m, i);
      }
    }
    forall m: nat ensures Records(h, actions, m, i) ==> m == n || Records(h, shorter, m, i) {
      OnlyActionsRecord(h, actions, m, i);
      if m < n {
        RecordsEarlier(h, actions, m, i);
      }
    }
  }

  lemma OnlyActionsRecord(h: Hashes, actions: seq<Action>, m: nat, i: nat)
    ensures Records(h, actions, m, i) ==> m < |actions|
  {
    hide History;
  }

  lemma LastRecords(h: Hashes, actions: seq<Action>, i: nat)
    requires actions != [] && i < |History(h, actions[..|actions| - 1]).runs|
    ensures
      var n, before := |actions| - 1, History(h, actions[..|actions| - 1]);
      Records(h, actions, n, i) <==>
        && actions[n].Act? && actions[n].run == i && before.runs[i].pc.Completing?
        && actions[n].choice.clock.Some? && actions[n].choice.write != Unchanged
  {
    hide History;
  }

  lemma NotThereYet(h: Hashes, actions: seq<Action>, m: nat, i: nat)
    requires actions != [] && i >= |History(h, actions[..|actions| - 1]).runs|
    ensures !Records(h, actions, m, i)
  {
    if m < |actions| {
      RunsStay(h, actions[..|actions| - 1], m);
      assert actions[..|actions| - 1][..m] == actions[..m];
    }
    hide History;
  }
}
