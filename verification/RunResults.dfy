/** What a recorded run leaves to be read (src/bench_run.rs, src/result_record.rs): every field of its record
    and the time of its journal, by the choices that its steps met. */
module RunResults {
  import opened Wrappers
  import opened Journals
  import opened ResultStore
  import opened RunOutcomes

  /** The record of a run with these locks and this event log, made of what the work before has produced. */
  predicate Describes(
    h: Hashes, record: Record, id: string, taskLock: string, candidateLock: string, log: Option<string>, input: Record)
  {
    && record.schema == V6 && record.runId == id && record.resultDigest == h.identity(record)
    && record.taskLock == taskLock && record.candidateLock == candidateLock && record.eventLog == log
    && record.execution == input.execution && record.model == input.model && record.usage == input.usage
    && record.details == input.details
  }

  /** A new record keeps its input and is filed under its own digest. */
  lemma NewRecordDescribes(h: Hashes, r: Run, c: Choice)
    requires Sound(h)
    ensures Describes(h, NewRecord(h, r, c), r.memory.runId, r.taskLock, r.candidateLock, r.logDigest, c.record)
  {
    var record := NewRecord(h, r, c);
    assert h.identity(record.(resultDigest := "")) == h.identity(record);
  }

  /** The digest of the event log that the Candidate left, if it is one that leaves any. */
  function LogOf(h: Hashes, c: Choice): Option<string> {
    if c.codex then Some(h.ofBytes(c.events)) else None
  }

  /** What a run that has not failed remembers of its steps: the second bound the locks, the fifth ran the
      Candidate, the eighth saved the record. */
  ghost predicate Remembers(h: Hashes, r: Run, env: nat -> Choice, n: nat) {
    Place(r.pc) == n ==>
      && (2 <= n <= 8 ==> r.taskLock == env(1).taskLock && r.candidateLock == env(1).candidateLock)
      && (5 <= n <= 8 ==> r.logDigest == LogOf(h, env(4)))
      && (n == 8 ==>
            Describes(h, r.pc.record, r.memory.runId, env(1).taskLock, env(1).candidateLock, LogOf(h, env(4)), env(7).record))
  }

  lemma StepRemembers(h: Hashes, d: Disk, r: Run, env: nat -> Choice, n: nat)
    requires Sound(h) && n <= 10 && Place(r.pc) in {n, 11} && Remembers(h, r, env, n)
    ensures Remembers(h, Step(h, d, r, env(n)).1, env, n + 1)
  {
  }

  /** The files of a recorded run: the record of its eighth step, and the journal with the clock of its ninth. */
  ghost predicate HoldsResult(h: Hashes, f: Files, id: string, env: nat -> Choice) {
    && f.journal.Some? && f.result.Some? && env(8).clock.Some?
    && Describes(h, f.result.value, id, env(1).taskLock, env(1).candidateLock, LogOf(h, env(4)), env(7).record)
    && f.journal.value.updatedAt == env(8).clock.value
    && f.journal.value.resultPath == Some("results/" + id + ".json")
    && f.journal.value.resultDigest == Some(f.result.value.resultDigest)
    && f.journal.value.taskLock == Some(env(1).taskLock) && f.journal.value.candidateLock == Some(env(1).candidateLock)
  }

  lemma CompletingLeavesResult(h: Hashes, d: Disk, r: Run, env: nat -> Choice)
    requires RunOk(h, FilesOfRun(d, r.memory.runId), r) && r.pc.Completing? && Remembers(h, r, env, 8)
    requires env(8).clock.Some? && env(8).write != Unchanged
    ensures HoldsResult(h, FilesOfRun(Step(h, d, r, env(8)).0, r.memory.runId), r.memory.runId, env)
    ensures r.memory.runId in Step(h, d, r, env(8)).0.journals
            && SameReferences(r.memory, Step(h, d, r, env(8)).0.journals[r.memory.runId])
  {
    hide ValidDetails, ValidUsage, LogMatches, Loadable, ValidDigest, Backed;
  }

  lemma {:induction false} RecordedHoldsResult(h: Hashes, d: Disk, r: Run, env: nat -> Choice, n: nat)
    requires Sound(h) && RunOk(h, FilesOfRun(d, r.memory.runId), r) && r.pc == Readying
    requires !HasCompleted(d, r.memory.runId)
    ensures
      var s, id := Steps(h, d, r, env, n), r.memory.runId;
      && s.1.memory.runId == id && RunOk(h, FilesOfRun(s.0, id), s.1)
      && SameReferences(r.memory, s.1.memory)
      && (n <= 11 ==> Remembers(h, s.1, env, n))
      && (HasCompleted(s.0, id) ==>
            && n > 8 && HoldsResult(h, FilesOfRun(s.0, id), id, env)
            && SameReferences(r.memory, s.0.journals[id]))
  {
    hide Steps, Step, RunOk, Remembers, HoldsResult, Place, SameReferences;
    SameReferencesOnward(r.memory, r.memory, r.memory);
    StepsBegin(h, d, r, env);
    if n == 0 {
      NothingToRemember(h, r, env);
    } else {
      var id, before := r.memory.runId, Steps(h, d, r, env, n - 1);
      RecordedHoldsResult(h, d, r, env, n - 1);
      StepsGo(h, d, r, env, n - 1);
      StepKeepsRun(h, before.0, before.1, env(n - 1));
      StepKeepsIdentifier(h, before.0, before.1, env(n - 1));
      StepKeepsReferences(h, before.0, before.1, env(n - 1));
      SameReferencesOnward(r.memory, before.1.memory, Steps(h, d, r, env, n).1.memory);
      if n <= 11 {
        PlaceByStep(h, d, r, env, n - 1);
        StepRemembers(h, before.0, before.1, env, n - 1);
      }
      StepRecordsExactlyWhen(h, before.0, before.1, env(n - 1));
      if HasCompleted(before.0, id) {
        CompletedFilesStay(h, before.0, before.1, env(n - 1));
      } else if before.1.pc.Completing? {
        CompletingIsNinth(h, d, r, env, n - 1);
        if env(8).clock.Some? && env(8).write != Unchanged {
          CompletingLeavesResult(h, before.0, before.1, env);
          SameReferencesOnward(r.memory, before.1.memory, Steps(h, d, r, env, n).0.journals[id]);
        }
      }
    }
  }

  /** A journal keeps the task and the agent it was begun with. */
  predicate SameReferences(m: JournalFile, m': JournalFile) {
    m'.taskReference == m.taskReference && m'.agentReference == m.agentReference
  }

  lemma SameReferencesOnward(a: JournalFile, b: JournalFile, c: JournalFile)
    ensures SameReferences(a, a)
    ensures SameReferences(a, b) && SameReferences(b, c) ==> SameReferences(a, c)
  {
  }

  lemma StepKeepsReferences(h: Hashes, d: Disk, r: Run, c: Choice)
    ensures SameReferences(r.memory, Step(h, d, r, c).1.memory)
  {
    hide ValidDigest, ValidRecord, Load, NewRecord;
  }

  lemma NothingToRemember(h: Hashes, r: Run, env: nat -> Choice)
    requires r.pc == Readying
    ensures Remembers(h, r, env, 0)
  {
  }

  lemma CompletedFilesStay(h: Hashes, d: Disk, r: Run, c: Choice)
    requires RunOk(h, FilesOfRun(d, r.memory.runId), r) && HasCompleted(d, r.memory.runId)
    ensures FilesOfRun(Step(h, d, r, c).0, r.memory.runId) == FilesOfRun(d, r.memory.runId)
  {
    TerminalFilesStay(h, d, r, c);
    hide Step, RunOk;
  }

  lemma CompletingIsNinth(h: Hashes, d: Disk, r: Run, env: nat -> Choice, n: nat)
    requires r.pc == Readying && Steps(h, d, r, env, n).1.pc.Completing?
    ensures n == 8
  {
    hide Steps;
    if n <= 10 {
      PlaceByStep(h, d, r, env, n);
    } else {
      PlaceByStep(h, d, r, env, 11);
      FinishedIsLast(h, d, r, env, 11, n);
    }
  }

  /** In every history of any number of runs, for each run that is recorded and the choices of its own steps:
      loading finds the record of its eighth step, with execution, usage, model and details as they were handed
      in, under the locks of its second step and with the digest of the event log of its fifth; and its journal
      names its task, its agent and its result file and has the time of its ninth step, which completed it. */
  lemma ResultOfARun(h: Hashes, actions: seq<Action>, i: nat)
    requires Sound(h) && i < |History(h, actions).runs|
    requires HasCompleted(History(h, actions).disk, History(h, actions).runs[i].memory.runId)
    ensures
      var d, id, choices :=
        History(h, actions).disk, History(h, actions).runs[i].memory.runId, ChoicesOf(h, actions, i);
      && |choices| > 8 && choices[8].clock.Some?
      && id in d.journals && d.journals[id].updatedAt == choices[8].clock.value
      && d.journals[id].resultPath == Some("results/" + id + ".json")
      && BeginOf(h, actions, i).Begin?
      && d.journals[id].taskReference == BeginOf(h, actions, i).task
      && d.journals[id].agentReference == BeginOf(h, actions, i).agent
      && Load(h, d, id).Found?
      && Describes(h, Load(h, d, id).record, id, choices[1].taskLock, choices[1].candidateLock,
                   LogOf(h, choices[4]), choices[7].record)
  {
    var s, a, choices := History(h, actions), BeginOf(h, actions, i), ChoicesOf(h, actions, i);
    var id := s.runs[i].memory.runId;
    RunsAreLikeAlone(h, actions, i);
    LoadFindsTheCompleted(h, actions, id);
    hide History, BeginOf, ChoicesOf, Sound;
    LoneResult(h, a, choices);
    assert FilesOfRun(s.disk, id) == FilesOfRun(Alone(h, a, choices).0, id);
    hide Alone, Describes, Load, LogOf;
  }

  lemma LoneResult(h: Hashes, a: Action, choices: seq<Choice>)
    requires Sound(h) && a.Begin? && ValidRunId(IdOf(a)) && HasCompleted(Alone(h, a, choices).0, IdOf(a))
    ensures |choices| > 8
    ensures HoldsResult(h, FilesOfRun(Alone(h, a, choices).0, IdOf(a)), IdOf(a), Playing(choices))
    ensures SameReferences(NewbornOf(a), Alone(h, a, choices).0.journals[IdOf(a)])
            && NewbornOf(a).taskReference == a.task && NewbornOf(a).agentReference == a.agent
  {
    var env, n := Playing(choices), |choices|;
    var d, r := FirstDisk(Empty().disk, NewbornOf(a), a.write), FirstRun(NewbornOf(a), a.write);
    FreshRunIsOk(h, Empty().disk, IdOf(a), a);
    hide Steps, HoldsResult, Remembers, RunId, ValidRunId, SameReferences;
    StepsBegin(h, d, r, env);
    if a.write == Written {
      RecordedHoldsResult(h, d, r, env, n);
    } else {
      FinishedIsLast(h, d, r, env, 0, n);
    }
  }
}
