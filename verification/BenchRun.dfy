/** The execution of one run (src/bench_run.rs): which file is written when, and what happens when a
    step fails. The work between the steps (configuration, inputs, workspaces, Candidate, Judge) is
    reduced to whether it fails and to the data it produces. */
module BenchRun {
  import opened Wrappers
  import opened Journals
  import opened ResultStore
  import opened RunOutcomes

  /** The state directory of the benchmark. */
  class StateRoot {
    const runs: RunsDirectory
    var results: map<string, Record>
    var logs: map<string, seq<byte>>
    var latest: Option<string>

    constructor (runs: RunsDirectory)
      ensures this.runs == runs && results == map[] && logs == map[] && latest == None
    {
      this.runs, results, logs, latest := runs, map[], map[], None;
    }

    function View(): Disk
      reads this, runs
    {
      Disk(runs.files, results, logs, latest)
    }

    method PersistEvents(id: string, events: seq<byte>, write: Write) returns (ok: bool)
      modifies this`logs
      ensures ok == (write == Written)
      ensures logs == if write == Unchanged then old(logs) else old(logs)[id := events]
    {
      if write != Unchanged {
        logs := logs[id := events];
      }
      return write == Written;
    }

    /** Saves the record of a run, unless it is not valid. */
    method Save(h: Hashes, input: Record, write: Write) returns (saved: Option<Record>)
      requires input.resultDigest == ""
      modifies this`results
      ensures
        var record := input.(resultDigest := h.identity(input));
        var valid := ValidRecord(h, record, record.runId);
        && saved == (if valid && write == Written then Some(record) else None)
        && results == (if valid && write != Unchanged then old(results)[record.runId := record] else old(results))
    {
      var record := input.(resultDigest := h.identity(input));
      if !ValidRecord(h, record, record.runId) {
        return None;
      }
      if write != Unchanged {
        results := results[record.runId := record];
      }
      return if write == Written then Some(record) else None;
    }

    method LoadResult(h: Hashes, id: string) returns (loaded: Loaded)
      ensures loaded == Load(h, View(), id)
    {
      if !ValidRunId(id) {
        return Rejected;
      }
      if id !in results {
        return Nothing;
      }
      var record := results[id];
      if !ValidRecord(h, record, id) {
        return Rejected;
      }
      var journal := runs.Load(id);
      if journal.None? || journal.value.stage != Completed {
        return Rejected;
      }
      var j := journal.value;
      if j.taskLock != Some(record.taskLock) || j.candidateLock != Some(record.candidateLock) {
        return Rejected;
      }
      if j.resultDigest != Some(record.resultDigest) || j.resultPath != Some(ResultPath(id)) {
        return Rejected;
      }
      var log := if id in logs then Some(logs[id]) else None;
      if !LogMatches(h, record, log) {
        return Rejected;
      }
      return Found(record);
    }

    method PublishLatest(h: Hashes, id: string, write: Write) returns (ok: bool)
      modifies this`latest
      ensures ok == (Load(h, old(View()), id).Found? && write == Written)
      ensures latest ==
        if Load(h, old(View()), id).Found? && write != Unchanged then Some(id) else old(latest)
    {
      var loaded := LoadResult(h, id);
      if !loaded.Found? {
        return false;
      }
      if write != Unchanged {
        latest := Some(id);
      }
      return write == Written;
    }
  }

  // ------------------------------------------------------------------- the steps, one by one

  /** The objects hold what the step machine says of disk and run. */
  ghost predicate Shows(state: StateRoot, journal: RunJournal, d: Disk, r: Run)
    reads state, state.runs, journal, journal.runs
  {
    state.runs == journal.runs && journal.Valid() && state.View() == d && journal.Memory() == r.memory
  }

  /** Advances the journal after work that may fail. */
  method AdvanceStep(h: Hashes, state: StateRoot, journal: RunJournal, stage: RunStage, c: Choice,
                     ghost d: Disk, ghost r: Run, ghost next: Pc)
    returns (ok: bool, ghost d': Disk, ghost r': Run)
    requires Shows(state, journal, d, r)
    requires
      || (r.pc == Readying && stage == RuntimeReady && next == Binding)
      || (r.pc == Resolving && stage == InputsResolved && next == Starting && LocksBound(r.memory))
      || (r.pc == Starting && stage == CandidateRunning && next == Executing)
      || (r.pc == Collecting && stage == CandidateCompleted && next == Submitting)
      || (r.pc == Submitting && stage == Judging && next == Saving)
    modifies journal, state.runs
    ensures (d', r') == Step(h, d, r, c) && Shows(state, journal, d', r')
    ensures r'.pc == if ok then next else Failing
    ensures r'.taskLock == r.taskLock && r'.candidateLock == r.candidateLock && r'.logDigest == r.logDigest
  {
    d', r' := Step(h, d, r, c).0, Step(h, d, r, c).1;
    if c.trouble {
      return false, d', r';
    }
    ok := journal.AdvanceTo(stage, c.clock, c.write);
  }

  /** Loads the inputs, whose digests the choice provides, and binds them. */
  method BindStep(h: Hashes, state: StateRoot, journal: RunJournal, c: Choice, ghost d: Disk, ghost r: Run)
    returns (ok: bool, ghost d': Disk, ghost r': Run)
    requires Shows(state, journal, d, r) && r.pc == Binding
    modifies journal, state.runs
    ensures (d', r') == Step(h, d, r, c) && Shows(state, journal, d', r')
    ensures if ok then r'.pc == Resolving && LocksBound(r'.memory) else r'.pc == Failing
    ensures ok ==> r'.taskLock == c.taskLock && r'.candidateLock == c.candidateLock
  {
    d', r' := Step(h, d, r, c).0, Step(h, d, r, c).1;
    if c.trouble {
      return false, d', r';
    }
    ok := journal.Bind(c.taskLock, c.candidateLock, c.clock, c.write);
  }

  /** Runs the Candidate. The event log of a Codex run is digested as it stands on disk. */
  method CandidateStep(h: Hashes, state: StateRoot, journal: RunJournal, c: Choice, ghost d: Disk, ghost r: Run)
    returns (ok: bool, digest: Option<string>, ghost d': Disk, ghost r': Run)
    requires Shows(state, journal, d, r) && r.pc == Executing
    modifies state`logs
    ensures (d', r') == Step(h, d, r, c) && Shows(state, journal, d', r')
    ensures if ok then r'.pc == Collecting && r'.logDigest == digest else r'.pc == Failing
    ensures r'.taskLock == r.taskLock && r'.candidateLock == r.candidateLock
  {
    d', r' := Step(h, d, r, c).0, Step(h, d, r, c).1;
    if c.trouble {
      return false, None, d', r';
    }
    if !c.codex {
      return true, None, d', r';
    }
    var id := journal.runId;
    var written := state.PersistEvents(id, c.events, c.write);
    if !written || c.lateTrouble {
      return false, None, d', r';
    }
    return true, Some(h.ofBytes(state.logs[id])), d', r';
  }

  /** Judges the submission and saves the result under the identity of the run. */
  method SaveStepOf(h: Hashes, state: StateRoot, journal: RunJournal, c: Choice,
                    taskLock: string, candidateLock: string, digest: Option<string>,
                    ghost d: Disk, ghost r: Run)
    returns (saved: Option<Record>, ghost d': Disk, ghost r': Run)
    requires Shows(state, journal, d, r) && r.pc == Saving
    requires r.taskLock == taskLock && r.candidateLock == candidateLock && r.logDigest == digest
    modifies state`results
    ensures (d', r') == Step(h, d, r, c) && Shows(state, journal, d', r')
    ensures r'.pc == if saved.Some? then Completing(saved.value) else Failing
  {
    d', r' := Step(h, d, r, c).0, Step(h, d, r, c).1;
    if c.trouble {
      return None, d', r';
    }
    var input := c.record.(schema := V6, resultDigest := "", runId := journal.runId,
                           taskLock := taskLock, candidateLock := candidateLock, eventLog := digest);
    saved := state.Save(h, input, c.write);
    hide ValidRecord;
  }

  method CompleteStep(h: Hashes, state: StateRoot, journal: RunJournal, record: Record, c: Choice,
                      ghost d: Disk, ghost r: Run)
    returns (ok: bool, ghost d': Disk, ghost r': Run)
    requires Shows(state, journal, d, r) && r.pc == Completing(record)
    modifies journal, state.runs
    ensures (d', r') == Step(h, d, r, c) && Shows(state, journal, d', r')
    ensures r'.pc == if ok then Publishing else Failing
  {
    d', r' := Step(h, d, r, c).0, Step(h, d, r, c).1;
    ok := journal.CompleteWith(ResultPath(journal.runId), record.resultDigest, c.clock, c.write);
  }

  method PublishAndPrint(h: Hashes, state: StateRoot, journal: RunJournal, c: Choice, ghost d: Disk, ghost r: Run)
    returns (ok: bool, ghost d': Disk, ghost r': Run)
    requires Shows(state, journal, d, r) && r.pc == Publishing
    modifies state`latest
    ensures (d', r') == Step(h, d, r, c) && Shows(state, journal, d', r')
    ensures r'.pc == if ok then Finished(true) else Failing
  {
    d', r' := Step(h, d, r, c).0, Step(h, d, r, c).1;
    ok := state.PublishLatest(h, journal.runId, c.write);
    ok := ok && !c.lateTrouble;
    hide Load;
  }

  // --------------------------------------------------------------------------- the whole run

  /** The objects are where `n` steps lead. */
  ghost predicate Reached(
    h: Hashes, state: StateRoot, journal: RunJournal, d: Disk, r: Run, env: nat -> Choice, n: nat)
    reads state, state.runs, journal, journal.runs
  {
    var s := Steps(h, d, r, env, n);
    Shows(state, journal, s.0, s.1)
  }

  /** Runtime, inputs and locks. */
  method ResolveInputs(h: Hashes, state: StateRoot, journal: RunJournal, env: nat -> Choice,
                       ghost d: Disk, ghost r: Run)
    returns (ok: bool, taken: nat)
    requires Shows(state, journal, d, r) && r.pc == Readying
    modifies journal, state.runs
    ensures taken <= 3 && Reached(h, state, journal, d, r, env, taken)
    ensures if ok then taken == 3 && Steps(h, d, r, env, 3).1.pc == Starting
            else Steps(h, d, r, env, taken).1.pc == Failing
    ensures ok ==>
      && Steps(h, d, r, env, 3).1.taskLock == env(1).taskLock
      && Steps(h, d, r, env, 3).1.candidateLock == env(1).candidateLock
  {
    StepsGo(h, d, r, env, 0);
    StepsGo(h, d, r, env, 1);
    StepsGo(h, d, r, env, 2);
    StepsBegin(h, d, r, env);
    hide Steps, Step, Shows, LocksBound;
    ghost var d1, r1;
    ok, d1, r1 := AdvanceStep(h, state, journal, RuntimeReady, env(0), d, r, Binding);
    if !ok { return false, 1; }
    ok, d1, r1 := BindStep(h, state, journal, env(1), d1, r1);
    if !ok { return false, 2; }
    ok, d1, r1 := AdvanceStep(h, state, journal, InputsResolved, env(2), d1, r1, Starting);
    taken := 3;
  }

  /** The Candidate, and the way to the Judge. */
  method RunCandidate(h: Hashes, state: StateRoot, journal: RunJournal, env: nat -> Choice,
                      ghost d: Disk, ghost r: Run)
    returns (ok: bool, taken: nat, digest: Option<string>)
    requires Reached(h, state, journal, d, r, env, 3) && Steps(h, d, r, env, 3).1.pc == Starting
    modifies journal, state`logs, state.runs
    ensures taken <= 7 && Reached(h, state, journal, d, r, env, taken)
    ensures if ok then taken == 7 && Steps(h, d, r, env, 7).1.pc == Saving
            else Steps(h, d, r, env, taken).1.pc == Failing
    ensures ok ==>
      && Steps(h, d, r, env, 7).1.logDigest == digest
      && Steps(h, d, r, env, 7).1.taskLock == Steps(h, d, r, env, 3).1.taskLock
      && Steps(h, d, r, env, 7).1.candidateLock == Steps(h, d, r, env, 3).1.candidateLock
  {
    ghost var d1, r1 := Steps(h, d, r, env, 3).0, Steps(h, d, r, env, 3).1;
    StepsGo(h, d, r, env, 3);
    StepsGo(h, d, r, env, 4);
    StepsGo(h, d, r, env, 5);
    StepsGo(h, d, r, env, 6);
    hide Steps, Step, Shows;
    ok, d1, r1 := AdvanceStep(h, state, journal, CandidateRunning, env(3), d1, r1, Executing);
    if !ok { return false, 4, None; }
    ok, digest, d1, r1 := CandidateStep(h, state, journal, env(4), d1, r1);
    if !ok { return false, 5, None; }
    ok, d1, r1 := AdvanceStep(h, state, journal, CandidateCompleted, env(5), d1, r1, Submitting);
    if !ok { return false, 6, None; }
    ok, d1, r1 := AdvanceStep(h, state, journal, Judging, env(6), d1, r1, Saving);
    taken := 7;
  }

  /** The Judge, the result and its publication. */
  method JudgeAndRecord(h: Hashes, state: StateRoot, journal: RunJournal, env: nat -> Choice,
                        taskLock: string, candidateLock: string, digest: Option<string>,
                        ghost d: Disk, ghost r: Run)
    returns (ok: bool, taken: nat)
    requires Reached(h, state, journal, d, r, env, 7) && Steps(h, d, r, env, 7).1.pc == Saving
    requires Steps(h, d, r, env, 7).1.logDigest == digest
    requires Steps(h, d, r, env, 7).1.taskLock == taskLock
    requires Steps(h, d, r, env, 7).1.candidateLock == candidateLock
    modifies journal, state`results, state`latest, state.runs
    ensures taken <= 10 && Reached(h, state, journal, d, r, env, taken)
    ensures Steps(h, d, r, env, taken).1.pc == if ok then Finished(true) else Failing
  {
    ghost var d1, r1 := Steps(h, d, r, env, 7).0, Steps(h, d, r, env, 7).1;
    StepsGo(h, d, r, env, 7);
    StepsGo(h, d, r, env, 8);
    StepsGo(h, d, r, env, 9);
    hide Steps, Step, Shows;
    var saved: Option<Record>;
    saved, d1, r1 := SaveStepOf(h, state, journal, env(7), taskLock, candidateLock, digest, d1, r1);
    if saved.None? { return false, 8; }
    ok, d1, r1 := CompleteStep(h, state, journal, saved.value, env(8), d1, r1);
    if !ok { return false, 9; }
    ok, d1, r1 := PublishAndPrint(h, state, journal, env(9), d1, r1);
    taken := 10;
  }

  /** From the first advance to the published result; the first failure ends it. */
  method ExecuteInner(h: Hashes, state: StateRoot, journal: RunJournal, env: nat -> Choice,
                      ghost d: Disk, ghost r: Run)
    returns (ok: bool, taken: nat)
    requires Shows(state, journal, d, r) && r.pc == Readying
    modifies journal, state, state.runs
    ensures taken <= 10 && Reached(h, state, journal, d, r, env, taken)
    ensures Steps(h, d, r, env, taken).1.pc == if ok then Finished(true) else Failing
  {
    hide *;
    ok, taken := ResolveInputs(h, state, journal, env, d, r);
    if ok {
      var digest: Option<string>;
      ok, taken, digest := RunCandidate(h, state, journal, env, d, r);
      if ok {
        ok, taken := JudgeAndRecord(h, state, journal, env, env(1).taskLock, env(1).candidateLock, digest, d, r);
      }
    }
  }

  /** One run from its first file to its last. Whatever fails, the objects end up where the step machine
      ends up, the journal file has only had lawful contents, and a run that succeeds is published. */
  method ExecuteOptions(h: Hashes, state: StateRoot, now: nat, pid: nat, sequence: nat,
                        task: string, agent: string, begin: Write, env: nat -> Choice)
    returns (ok: bool, journal: RunJournal)
    requires ValidRunId(RunId(now, pid, sequence))
    modifies state, state.runs
    ensures journal.Valid() && journal.runId == RunId(now, pid, sequence)
    ensures state.View() == Ending(h, old(state.View()), Fresh(journal.runId, now, task, agent), begin, env).0
    ensures ok == (Ending(h, old(state.View()), Fresh(journal.runId, now, task, agent), begin, env).1.pc
                   == Finished(true))
  {
    var id := RunId(now, pid, sequence);
    ghost var start := state.View();
    journal := new RunJournal.Begin(state.runs, id, now, task, agent);
    ghost var newborn := journal.Memory();
    FreshIsInStep(id, now, task, agent, begin);
    ok := journal.PersistFile(begin);
    assert state.View() == PutJournal(start, id, Persist(newborn, begin).file);
    ghost var d, r := FirstDisk(start, newborn, begin), FirstRun(newborn, begin);
    StepsBegin(h, d, r, env);
    if !ok {
      FinishedIsLast(h, d, r, env, 0, 11);
      return false, journal;
    }
    assert Shows(state, journal, d, r);
    var taken: nat;
    ok, taken := ExecuteInner(h, state, journal, env, d, r);
    if !ok {
      var c := env(taken);
      FailureIsLast(h, d, r, env, taken);
      var _ := journal.FailWith(c.message, c.clock, c.write);
    } else {
      FinishedIsLast(h, d, r, env, taken, 11);
    }
  }
}
