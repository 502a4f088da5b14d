/** The files a run leaves behind (src/result_record.rs) and the order in which it writes them
    (src/bench_run.rs): journal, event log, result record, latest pointer. Any number of runs take
    their steps in any order, each step may fail, and a run may be cut off after any of them. */
module ResultStore {
  import opened Wrappers
  import opened Journals
  import Decimals

  // --------------------------------------------------------------------------- the records

  datatype RecordSchema = V4 | V5 | V6 | OtherVersion

  datatype CandidateExecution = CandidateCompletion(timeoutSec: Option<nat>) | TimedOut(timeoutSec: Option<nat>)

  datatype TokenUsage = TokenUsage(prompt: nat, completion: nat, total: nat)

  /** The fields that only have to be well-formed. */
  datatype Details = Details(
    localUnofficial: bool,
    taskId: string, agent: string, agentIdentity: string, judgeIdentity: string, runtimeProvider: string,
    primaryMetric: string, score: string,
    judgeSchemaV1: bool, verdictValid: bool, metrics: map<string, string>)

  datatype Record = Record(
    schema: RecordSchema, resultDigest: string, runId: string, taskLock: string, candidateLock: string,
    execution: Option<CandidateExecution>, model: Option<string>, usage: Option<TokenUsage>,
    eventLog: Option<string>, details: Details)

  /** The two digests of the store. What they compute is not modelled. */
  datatype Hashes = Hashes(identity: Record -> string, ofBytes: seq<byte> -> string)

  /** Digests have the right form, and a record's own digest field is not part of its identity. */
  ghost predicate Sound(h: Hashes) {
    && (forall r: Record :: ValidDigest(h.identity(r)))
    && (forall bytes :: ValidDigest(h.ofBytes(bytes)))
    && (forall r: Record, digest: string :: h.identity(r.(resultDigest := digest)) == h.identity(r))
  }

  /** There are such digests. */
  lemma SoundHashes() returns (h: Hashes)
    ensures Sound(h)
  {
    var digest := "sha256:" + seq(64, k => '0');
    h := Hashes((r: Record) => digest, (bytes: seq<byte>) => digest);
  }

  predicate Blank(s: string) {
    forall c :: c in s ==> Whitespace(c)
  }

  predicate ValidExecution(e: CandidateExecution) {
    match e
    case CandidateCompletion(timeout) => timeout.None?
    case TimedOut(timeout) => timeout.Some? && timeout.value > 0
  }

  predicate ValidDetails(d: Details) {
    && d.localUnofficial
    && !Blank(d.taskId) && !Blank(d.agent) && !Blank(d.agentIdentity) && !Blank(d.judgeIdentity)
    && !Blank(d.runtimeProvider) && !Blank(d.primaryMetric)
    && Decimals.CanonicalDecimal(d.score) && d.judgeSchemaV1 && d.verdictValid
    && d.primaryMetric in d.metrics && d.metrics[d.primaryMetric] == d.score
  }

  predicate ValidUsage(r: Record) {
    var timedOut := r.execution.Some? && r.execution.value.TimedOut?;
    && (r.model.Some? ==> !Blank(r.model.value) && (timedOut <==> r.usage.None?))
    && (r.model.None? && timedOut ==> r.usage.None?)
    && (r.usage.Some? ==> r.usage.value.prompt + r.usage.value.completion == r.usage.value.total)
  }

  predicate ValidRecord(h: Hashes, r: Record, runId: string) {
    && ValidRunId(r.runId) && r.runId == runId
    && (match r.schema
        case V4 => r.execution.None? && r.eventLog.None?
        case V5 => r.execution.Some? && ValidExecution(r.execution.value) && r.eventLog.None?
        case V6 => r.execution.Some? && ValidExecution(r.execution.value)
        case OtherVersion => false)
    && ValidDigest(r.resultDigest) && h.identity(r) == r.resultDigest
    && ValidDigest(r.taskLock) && ValidDigest(r.candidateLock)
    && ValidUsage(r) && ValidDetails(r.details)
  }

  /** What a record must be, field by field. A model that timed out reports no usage and one that completed
      does; usage adds up; the score is the one that the Judge gave for the primary metric. */
  lemma RecordIsValidExactlyWhen(h: Hashes, r: Record, runId: string)
    ensures ValidRecord(h, r, runId) <==>
      && r.runId == runId && ValidRunId(runId) && r.schema != OtherVersion
      && (r.schema == V4 <==> r.execution == None) && (r.eventLog != None ==> r.schema == V6)
      && (r.execution.Some? ==>
            if r.execution.value.TimedOut? then exists n :: n > 0 && r.execution.value.timeoutSec == Some(n)
            else r.execution.value.timeoutSec == None)
      && r.resultDigest == h.identity(r)
      && ValidDigest(r.resultDigest) && ValidDigest(r.taskLock) && ValidDigest(r.candidateLock)
      && (r.execution.Some? && r.execution.value.TimedOut? ==> r.usage == None)
      && (r.model.Some? && r.usage == None ==> r.execution.Some? && r.execution.value.TimedOut?)
      && (r.usage.Some? ==> r.usage.value.total == r.usage.value.prompt + r.usage.value.completion)
      && Filled(r.details.taskId) && Filled(r.details.agent) && Filled(r.details.agentIdentity)
      && Filled(r.details.judgeIdentity) && Filled(r.details.runtimeProvider) && Filled(r.details.primaryMetric)
      && (r.model.Some? ==> Filled(r.model.value))
      && Decimals.CanonicalDecimal(r.details.score)
      && r.details.localUnofficial && r.details.judgeSchemaV1 && r.details.verdictValid
      && r.details.primaryMetric in r.details.metrics.Keys
      && r.details.metrics[r.details.primaryMetric] == r.details.score
  {
    forall text ensures Filled(text) <==> !Blank(text) {
      NotBlank(text);
    }
    hide ValidRunId, ValidDigest, Decimals.CanonicalDecimal, Blank, Filled;
  }

  /** There is something to read in the text. */
  predicate Filled(text: string) {
    exists k :: 0 <= k < |text| && !Whitespace(text[k])
  }

  lemma NotBlank(text: string)
    ensures Filled(text) <==> !Blank(text)
  {
    if !Blank(text) {
      var c :| c in text && !Whitespace(c);
      var k :| 0 <= k < |text| && text[k] == c;
      assert !Whitespace(text[k]);
    }
    hide Whitespace;
  }

  // ------------------------------------------------------------------------------ the files

  datatype Disk = Disk(
    journals: map<string, JournalFile>, results: map<string, Record>, logs: map<string, seq<byte>>,
    latest: Option<string>)

  /** The files of one run. */
  datatype Files = Files(journal: Option<JournalFile>, result: Option<Record>, log: Option<seq<byte>>)

  function Get<T>(m: map<string, T>, id: string): Option<T> {
    if id in m then Some(m[id]) else None
  }

  function FilesOfRun(d: Disk, id: string): Files {
    Files(Get(d.journals, id), Get(d.results, id), Get(d.logs, id))
  }

  function ResultPath(id: string): string {
    "results/" + id + ".json"
  }

  /** The event log is bound into the record, or there is none. Older records do not mention it. */
  predicate LogMatches(h: Hashes, r: Record, log: Option<seq<byte>>) {
    r.schema != V6
    || match r.eventLog
       case Some(digest) => ValidDigest(digest) && log.Some? && h.ofBytes(log.value) == digest
       case None => log.None?
  }

  /** The result of a run is valid and backed by its completed journal. */
  predicate Backed(h: Hashes, id: string, f: Files) {
    && f.result.Some? && ValidRecord(h, f.result.value, id)
    && f.journal.Some? && Loadable(f.journal.value, id) && f.journal.value.stage == Completed
    && f.journal.value.taskLock == Some(f.result.value.taskLock)
    && f.journal.value.candidateLock == Some(f.result.value.candidateLock)
    && f.journal.value.resultDigest == Some(f.result.value.resultDigest)
    && f.journal.value.resultPath == Some(ResultPath(id))
    && LogMatches(h, f.result.value, f.log)
  }

  datatype Loaded = Nothing | Rejected | Found(record: Record)

  /** Loading: an identifier that is not one, and any check that fails, is an error; a missing file is not. */
  function Load(h: Hashes, d: Disk, id: string): Loaded {
    if !ValidRunId(id) then Rejected
    else if id !in d.results then Nothing
    else if Backed(h, id, FilesOfRun(d, id)) then Found(d.results[id])
    else Rejected
  }

  /** What has to be there for a result to be found, by the files. */
  lemma LoadFindsExactlyWhen(h: Hashes, d: Disk, id: string)
    ensures Load(h, d, id).Found? ==> Load(h, d, id).record == d.results[id]
    ensures Load(h, d, id).Found? <==>
      && id in d.results && id in d.journals
      && var (r, j) := (d.results[id], d.journals[id]);
      && ValidRecord(h, r, id) && Loadable(j, id) && j.stage == Completed
      && j.taskLock == Some(r.taskLock) && j.candidateLock == Some(r.candidateLock)
      && j.resultDigest == Some(r.resultDigest) && j.resultPath == Some("results/" + id + ".json")
      && (r.schema == V6 && r.eventLog == None ==> id !in d.logs)
      && (r.schema == V6 && r.eventLog.Some? ==>
            ValidDigest(r.eventLog.value) && id in d.logs && h.ofBytes(d.logs[id]) == r.eventLog.value)
  {
    hide ValidDigest, ValidDetails, ValidUsage, Loadable;
  }

  // ------------------------------------------------------------------------ the steps of a run

  datatype Pc =
    | Readying | Binding | Resolving | Starting | Executing | Collecting | Submitting | Saving
    | Completing(record: Record) | Publishing | Failing | Finished(ok: bool)

  datatype Run = Run(
    pc: Pc, memory: JournalFile, taskLock: string, candidateLock: string, logDigest: Option<string>)

  /** What the environment decides in one step: whether the work before or after the step's file
      operation fails, the clock, the write, and the data that the work produces. */
  datatype Choice = Choice(
    trouble: bool, lateTrouble: bool, clock: Option<nat>, write: Write,
    taskLock: string, candidateLock: string, codex: bool, events: seq<byte>, record: Record, message: string)

  function PutJournal(d: Disk, id: string, file: Option<JournalFile>): Disk {
    d.(journals := PutFile(d.journals, id, file))
  }

  /** A journal call, and where the run goes from there. */
  function JournalStep(d: Disk, r: Run, o: Outcome, next: Pc): (Disk, Run) {
    (PutJournal(d, r.memory.runId, o.file), r.(memory := o.memory, pc := if o.ok then next else Failing))
  }

  /** The Candidate. Codex writes its event log, which is then read back and digested; no other
      Candidate has one. */
  function ExecuteStep(h: Hashes, d: Disk, r: Run, c: Choice): (Disk, Run) {
    var id := r.memory.runId;
    if !c.codex then (d, r.(logDigest := None, pc := Collecting))
    else
      var d' := if c.write == Unchanged then d else d.(logs := d.logs[id := c.events]);
      if c.write != Written || c.lateTrouble then (d', r.(pc := Failing))
      else (d', r.(logDigest := Some(h.ofBytes(c.events)), pc := Collecting))
  }

  /** The record that is saved for a run. */
  function NewRecord(h: Hashes, r: Run, c: Choice): Record {
    var blank := c.record.(schema := V6, resultDigest := "", runId := r.memory.runId,
                           taskLock := r.taskLock, candidateLock := r.candidateLock, eventLog := r.logDigest);
    blank.(resultDigest := h.identity(blank))
  }

  /** An invalid record is refused before anything is written. */
  function SaveStep(h: Hashes, d: Disk, r: Run, c: Choice): (Disk, Run) {
    var id, record := r.memory.runId, NewRecord(h, r, c);
    if !ValidRecord(h, record, id) then (d, r.(pc := Failing))
    else
      var d' := if c.write == Unchanged then d else d.(results := d.results[id := record]);
      (d', if c.write == Written then r.(pc := Completing(record)) else r.(pc := Failing))
  }

  function PublishStep(h: Hashes, d: Disk, r: Run, c: Choice): (Disk, Run) {
    var id := r.memory.runId;
    var published := Load(h, d, id).Found?;
    var d' := if published && c.write != Unchanged then d.(latest := Some(id)) else d;
    (d', r.(pc := if published && c.write == Written && !c.lateTrouble then Finished(true) else Failing))
  }

  /** One step of a run. Work that fails at any point before the result is saved takes the run to its
      failure handling; so does every file operation that fails. */
  function Step(h: Hashes, d: Disk, r: Run, c: Choice): (Disk, Run) {
    var m, id := r.memory, r.memory.runId;
    if c.trouble && !r.pc.Completing? && !r.pc.Publishing? && !r.pc.Failing? && !r.pc.Finished? then
      (d, r.(pc := Failing))
    else
      match r.pc
      case Readying => JournalStep(d, r, Advance(m, RuntimeReady, c.clock, c.write), Binding)
      case Binding =>
        JournalStep(d, r.(taskLock := c.taskLock, candidateLock := c.candidateLock),
                    BindLocks(m, c.taskLock, c.candidateLock, c.clock, c.write), Resolving)
      case Resolving => JournalStep(d, r, Advance(m, InputsResolved, c.clock, c.write), Starting)
      case Starting => JournalStep(d, r, Advance(m, CandidateRunning, c.clock, c.write), Executing)
      case Executing => ExecuteStep(h, d, r, c)
      case Collecting => JournalStep(d, r, Advance(m, CandidateCompleted, c.clock, c.write), Submitting)
      case Submitting => JournalStep(d, r, Advance(m, Judging, c.clock, c.write), Saving)
      case Saving => SaveStep(h, d, r, c)
      case Completing(record) =>
        JournalStep(d, r, Complete(m, ResultPath(id), record.resultDigest, c.clock, c.write), Publishing)
      case Publishing => PublishStep(h, d, r, c)
      case Failing =>
        var o := Fail(m, c.message, c.clock, c.write);
        (PutJournal(d, id, o.file), r.(memory := o.memory, pc := Finished(false)))
      case Finished(_) => (d, r)
  }

  // ------------------------------------------------------------------------ the whole system

  datatype System = System(disk: Disk, runs: seq<Run>)

  datatype Action =
    | Begin(now: nat, pid: nat, sequence: nat, task: string, agent: string, write: Write)
    | Act(run: nat, choice: Choice)
    | Republish(id: string, write: Write)

  predicate Taken(runs: seq<Run>, id: string) {
    exists i :: 0 <= i < |runs| && runs[i].memory.runId == id
  }

  /** A run begins with its journal file; if that fails it never starts, though the file may be there.
      No two runs have one identifier. */
  function Next(h: Hashes, s: System, a: Action): System {
    match a
    case Begin(now, pid, sequence, task, agent, write) =>
      var id := RunId(now, pid, sequence);
      if Taken(s.runs, id) || !ValidRunId(id) then s
      else
        var o := Persist(Fresh(id, now, task, agent), write);
        System(PutJournal(s.disk, id, o.file),
               s.runs + [Run(if o.ok then Readying else Finished(false), o.memory, "", "", None)])
    case Act(i, choice) =>
      if i >= |s.runs| then s
      else
        var (disk, run) := Step(h, s.disk, s.runs[i], choice);
        System(disk, s.runs[i := run])
    case Republish(id, write) =>
      if Load(h, s.disk, id).Found? && write != Unchanged then s.(disk := s.disk.(latest := Some(id))) else s
  }

  function Empty(): System {
    System(Disk(map[], map[], map[], None), [])
  }

  function History(h: Hashes, actions: seq<Action>): System {
    if actions == [] then Empty()
    else Next(h, History(h, actions[..|actions| - 1]), actions[|actions| - 1])
  }

  // ----------------------------------------------------------------- what every run keeps

  /** File and memory of the journal of a run. */
  ghost predicate JournalOk(m: JournalFile, file: Option<JournalFile>) {
    && ValidRunId(m.runId) && (Terminal(m.stage) || Loadable(m, m.runId))
    && (file.Some? ==>
          && Loadable(file.value, m.runId)
          && Rank(file.value.stage) <= Rank(m.stage)
          && (Terminal(file.value.stage) ==> m == file.value))
  }

  predicate Unbound(m: JournalFile) {
    m.taskLock.None? && m.candidateLock.None?
  }

  predicate BoundTo(m: JournalFile, r: Run) {
    m.taskLock == Some(r.taskLock) && m.candidateLock == Some(r.candidateLock)
  }

  /** The event log is the one whose digest the run remembers. */
  predicate LogBound(h: Hashes, digest: Option<string>, log: Option<seq<byte>>) {
    match digest
    case Some(d) => log.Some? && h.ofBytes(log.value) == d
    case None => log.None?
  }

  /** What holds of a run and its files between two steps. */
  ghost predicate AtPc(h: Hashes, f: Files, r: Run) {
    var m := r.memory;
    match r.pc
    case Readying => m.stage == Planned && Unbound(m) && f.log.None? && f.result.None?
    case Binding => m.stage == RuntimeReady && Unbound(m) && f.log.None? && f.result.None?
    case Resolving => m.stage == RuntimeReady && BoundTo(m, r) && f.log.None? && f.result.None?
    case Starting => m.stage == InputsResolved && BoundTo(m, r) && f.log.None? && f.result.None?
    case Executing => m.stage == CandidateRunning && BoundTo(m, r) && f.log.None? && f.result.None?
    case Collecting =>
      m.stage == CandidateRunning && BoundTo(m, r) && LogBound(h, r.logDigest, f.log) && f.result.None?
    case Submitting =>
      m.stage == CandidateCompleted && BoundTo(m, r) && LogBound(h, r.logDigest, f.log) && f.result.None?
    case Saving => m.stage == Judging && BoundTo(m, r) && LogBound(h, r.logDigest, f.log) && f.result.None?
    case Completing(record) =>
      && m.stage == Judging && BoundTo(m, r) && f.result == Some(record)
      && ValidRecord(h, record, m.runId) && LogMatches(h, record, f.log)
      && record.taskLock == r.taskLock && record.candidateLock == r.candidateLock
    case Publishing => m.stage == Completed
    case Failing => true
    case Finished(ok) => ok ==> m.stage == Completed
  }

  ghost predicate RunOk(h: Hashes, f: Files, r: Run) {
    && JournalOk(r.memory, f.journal) && AtPc(h, f, r)
    && (r.pc != Failing && r.pc != Finished(false) ==> f.journal == Some(r.memory))
    && (f.journal.Some? && f.journal.value.stage == Completed ==> Backed(h, r.memory.runId, f))
  }

  ghost predicate RunsOk(h: Hashes, d: Disk, runs: seq<Run>) {
    forall i :: 0 <= i < |runs| ==> RunOk(h, FilesOfRun(d, runs[i].memory.runId), runs[i])
  }

  predicate IdsDiffer(runs: seq<Run>) {
    forall i, j :: 0 <= i < j < |runs| ==> runs[i].memory.runId != runs[j].memory.runId
  }

  /** Every file belongs to a run. */
  ghost predicate FilesOwned(d: Disk, runs: seq<Run>) {
    forall id :: FilesOfRun(d, id) != Files(None, None, None) ==> Taken(runs, id)
  }

  /** The latest pointer names a run that can be loaded. */
  ghost predicate LatestBacked(h: Hashes, d: Disk) {
    d.latest.Some? ==> Backed(h, d.latest.value, FilesOfRun(d, d.latest.value))
  }

  ghost predicate Consistent(h: Hashes, s: System) {
    RunsOk(h, s.disk, s.runs) && IdsDiffer(s.runs) && FilesOwned(s.disk, s.runs) && LatestBacked(h, s.disk)
  }

  // --------------------------------------------------------------------- one step, one run

  /** A step touches the files of its own run only. */
  lemma StepTouchesOwnFiles(h: Hashes, d: Disk, r: Run, c: Choice, other: string)
    requires other != r.memory.runId
    ensures FilesOfRun(Step(h, d, r, c).0, other) == FilesOfRun(d, other)
  {
    hide Load, Backed, ValidRecord, NewRecord, Advance, BindLocks, Complete, Fail, ResultPath;
  }

  lemma StepKeepsIdentifier(h: Hashes, d: Disk, r: Run, c: Choice)
    ensures Step(h, d, r, c).1.memory.runId == r.memory.runId
  {
    hide Load, Backed, ValidRecord, NewRecord, ValidDigest;
  }

  /** A call on the journal keeps file and memory together, and does not touch a completed file. */
  lemma CallKeepsJournal(d: Disk, r: Run, call: Call, clock: Option<nat>, write: Write)
    requires JournalOk(r.memory, Get(d.journals, r.memory.runId)) && Allowed(r.memory, call)
    ensures
      var o := Perform(r.memory, call, clock, write);
      && o.memory.runId == r.memory.runId
      && JournalOk(o.memory, Get(PutJournal(d, r.memory.runId, o.file).journals, r.memory.runId))
  {
    var m := r.memory;
    if Terminal(m.stage) {
      TerminalIsFinal(m, call, clock, write);
    } else {
      CallMovesOn(m, m.runId, call, clock, write);
      CallKeepsId(m, call, clock, write);
      hide Perform, Loadable;
    }
  }

  lemma CallKeepsId(m: JournalFile, call: Call, clock: Option<nat>, write: Write)
    ensures Perform(m, call, clock, write).memory.runId == m.runId
  {
  }

  /** A journal call that does not complete the run leaves result and log alone, and whatever file it
      writes is not a completed one. */
  lemma CallKeepsBacking(h: Hashes, d: Disk, r: Run, call: Call, clock: Option<nat>, write: Write)
    requires RunOk(h, FilesOfRun(d, r.memory.runId), r) && Allowed(r.memory, call) && !call.CallComplete?
    ensures
      var o := Perform(r.memory, call, clock, write);
      var f := FilesOfRun(d, r.memory.runId);
      var f' := FilesOfRun(PutJournal(d, r.memory.runId, o.file), r.memory.runId);
      && f'.result == f.result && f'.log == f.log
      && f'.journal == (if o.file.Some? then o.file else f.journal)
      && (f'.journal.Some? && f'.journal.value.stage == Completed ==> Backed(h, r.memory.runId, f'))
  {
    hide Backed, AtPc, JournalOk, ValidDigest;
    if Terminal(r.memory.stage) {
      TerminalIsFinal(r.memory, call, clock, write);
    } else {
      NotCompletedByOthers(r.memory, call, clock, write);
    }
  }

  lemma NotCompletedByOthers(m: JournalFile, call: Call, clock: Option<nat>, write: Write)
    requires !call.CallComplete? && !Terminal(m.stage)
    ensures Perform(m, call, clock, write).memory.stage != Completed
    ensures Perform(m, call, clock, write).file.Some? ==>
      Perform(m, call, clock, write).file.value == Perform(m, call, clock, write).memory
  {
    hide ValidDigest;
  }

  /** The stage that a step advances to, and where the run goes from there. */
  function Advancing(pc: Pc): Option<(RunStage, Pc)> {
    match pc
    case Readying => Some((RuntimeReady, Binding))
    case Resolving => Some((InputsResolved, Starting))
    case Starting => Some((CandidateRunning, Executing))
    case Collecting => Some((CandidateCompleted, Submitting))
    case Submitting => Some((Judging, Saving))
    case _ => None
  }

  lemma AdvancingStep(h: Hashes, d: Disk, r: Run, c: Choice)
    requires !c.trouble && Advancing(r.pc).Some?
    ensures Step(h, d, r, c) ==
      JournalStep(d, r, Advance(r.memory, Advancing(r.pc).value.0, c.clock, c.write), Advancing(r.pc).value.1)
  {
    hide Advance, JournalStep;
  }

  lemma AdvancingKeepsRun(h: Hashes, d: Disk, r: Run, c: Choice)
    requires RunOk(h, FilesOfRun(d, r.memory.runId), r) && !c.trouble && Advancing(r.pc).Some?
    ensures RunOk(h, FilesOfRun(Step(h, d, r, c).0, r.memory.runId), Step(h, d, r, c).1)
  {
    var (stage, next) := Advancing(r.pc).value;
    AdvancingStep(h, d, r, c);
    CallKeepsJournal(d, r, CallAdvance(stage), c.clock, c.write);
    CallKeepsBacking(h, d, r, CallAdvance(stage), c.clock, c.write);
    hide Step, Backed, JournalOk, LogBound, Loadable, ValidRecord, LogMatches;
  }

  lemma BindingKeepsRun(h: Hashes, d: Disk, r: Run, c: Choice)
    requires RunOk(h, FilesOfRun(d, r.memory.runId), r) && !c.trouble && r.pc == Binding
    ensures RunOk(h, FilesOfRun(Step(h, d, r, c).0, r.memory.runId), Step(h, d, r, c).1)
  {
    CallKeepsJournal(d, r, CallBind(c.taskLock, c.candidateLock), c.clock, c.write);
    CallKeepsBacking(h, d, r, CallBind(c.taskLock, c.candidateLock), c.clock, c.write);
    hide Backed, JournalOk, LogBound, ValidDigest, Loadable;
  }

  lemma FailingKeepsRun(h: Hashes, d: Disk, r: Run, c: Choice)
    requires RunOk(h, FilesOfRun(d, r.memory.runId), r) && r.pc == Failing
    ensures RunOk(h, FilesOfRun(Step(h, d, r, c).0, r.memory.runId), Step(h, d, r, c).1)
  {
    CallKeepsJournal(d, r, CallFail(c.message), c.clock, c.write);
    CallKeepsBacking(h, d, r, CallFail(c.message), c.clock, c.write);
    hide Backed, JournalOk, LogBound, Loadable;
  }

  lemma ExecutingKeepsRun(h: Hashes, d: Disk, r: Run, c: Choice)
    requires RunOk(h, FilesOfRun(d, r.memory.runId), r) && !c.trouble && r.pc == Executing
    ensures RunOk(h, FilesOfRun(Step(h, d, r, c).0, r.memory.runId), Step(h, d, r, c).1)
  {
    assert FilesOfRun(d, r.memory.runId).journal.Some? ==>
      FilesOfRun(d, r.memory.runId).journal.value.stage != Completed;
    hide Backed, Loadable;
  }

  lemma NewRecordIsBound(h: Hashes, r: Run, c: Choice)
    requires Sound(h)
    ensures
      var record := NewRecord(h, r, c);
      && record.taskLock == r.taskLock && record.candidateLock == r.candidateLock
      && (forall log :: LogBound(h, r.logDigest, log) ==> LogMatches(h, record, log))
  {
    hide ValidDigest;
  }

  lemma SavingKeepsRun(h: Hashes, d: Disk, r: Run, c: Choice)
    requires Sound(h)
    requires RunOk(h, FilesOfRun(d, r.memory.runId), r) && !c.trouble && r.pc == Saving
    ensures RunOk(h, FilesOfRun(Step(h, d, r, c).0, r.memory.runId), Step(h, d, r, c).1)
  {
    assert FilesOfRun(d, r.memory.runId).journal.Some? ==>
      FilesOfRun(d, r.memory.runId).journal.value.stage != Completed;
    NewRecordIsBound(h, r, c);
    hide Backed, JournalOk, ValidRecord, ValidDigest, NewRecord, LogMatches, LogBound;
  }

  lemma CompletingKeepsRun(h: Hashes, d: Disk, r: Run, c: Choice)
    requires RunOk(h, FilesOfRun(d, r.memory.runId), r) && r.pc.Completing?
    ensures RunOk(h, FilesOfRun(Step(h, d, r, c).0, r.memory.runId), Step(h, d, r, c).1)
  {
    var id, record := r.memory.runId, r.pc.record;
    CallKeepsJournal(d, r, CallComplete(ResultPath(id), record.resultDigest), c.clock, c.write);
    hide Loadable, ValidDetails, ValidUsage, LogMatches;
  }

  lemma PublishingKeepsRun(h: Hashes, d: Disk, r: Run, c: Choice)
    requires RunOk(h, FilesOfRun(d, r.memory.runId), r) && r.pc == Publishing
    ensures RunOk(h, FilesOfRun(Step(h, d, r, c).0, r.memory.runId), Step(h, d, r, c).1)
  {
    hide Backed, Loadable, Load;
  }

  /** Whatever the environment chooses, a step keeps what holds of its run. */
  lemma StepKeepsRun(h: Hashes, d: Disk, r: Run, c: Choice)
    requires Sound(h) && RunOk(h, FilesOfRun(d, r.memory.runId), r)
    ensures RunOk(h, FilesOfRun(Step(h, d, r, c).0, r.memory.runId), Step(h, d, r, c).1)
  {
    hide Backed, JournalOk, ValidRecord, LogBound, LogMatches, Load;
    if c.trouble && !r.pc.Completing? && !r.pc.Publishing? && !r.pc.Failing? && !r.pc.Finished? {
    } else {
      match r.pc
      case Binding => BindingKeepsRun(h, d, r, c);
      case Executing => ExecutingKeepsRun(h, d, r, c);
      case Saving => SavingKeepsRun(h, d, r, c);
      case Completing(_) => CompletingKeepsRun(h, d, r, c);
      case Publishing => PublishingKeepsRun(h, d, r, c);
      case Failing => FailingKeepsRun(h, d, r, c);
      case Finished(_) =>
      case _ => AdvancingKeepsRun(h, d, r, c);
    }
  }

  /** A terminal journal file is never written again, and a completed run keeps all its files. */
  lemma TerminalFilesStay(h: Hashes, d: Disk, r: Run, c: Choice)
    requires RunOk(h, FilesOfRun(d, r.memory.runId), r)
    requires FilesOfRun(d, r.memory.runId).journal.Some?
    ensures
      var f, f' := FilesOfRun(d, r.memory.runId), FilesOfRun(Step(h, d, r, c).0, r.memory.runId);
      && (Terminal(f.journal.value.stage) ==> f'.journal == f.journal)
      && (f.journal.value.stage == Completed ==> f' == f)
  {
    hide Backed, Loadable, ValidRecord, LogBound, LogMatches, Load, ValidDigest, NewRecord;
    if Terminal(FilesOfRun(d, r.memory.runId).journal.value.stage) {
      assert Terminal(r.memory.stage);
      assert r.pc in {Publishing, Failing} || r.pc.Finished? || r.memory.stage == Failed;
    }
  }

  lemma CallWritesMemory(m: JournalFile, call: Call, clock: Option<nat>, write: Write)
    ensures
      var o := Perform(m, call, clock, write);
      o.file.Some? ==> o.file.value == o.memory && Rank(m.stage) <= Rank(o.memory.stage)
  {
    hide ValidDigest;
  }

  /** A step writes the journal it leaves in memory, at a stage no earlier than before, or no journal. */
  lemma StepWritesMemory(h: Hashes, d: Disk, r: Run, c: Choice)
    ensures
      var id, r', f' := r.memory.runId, Step(h, d, r, c).1, FilesOfRun(Step(h, d, r, c).0, r.memory.runId);
      || f'.journal == FilesOfRun(d, id).journal
      || (f'.journal == Some(r'.memory) && Rank(r.memory.stage) <= Rank(r'.memory.stage))
  {
    var call :=
      match r.pc
      case Readying => CallAdvance(RuntimeReady)
      case Binding => CallBind(c.taskLock, c.candidateLock)
      case Resolving => CallAdvance(InputsResolved)
      case Starting => CallAdvance(CandidateRunning)
      case Collecting => CallAdvance(CandidateCompleted)
      case Submitting => CallAdvance(Judging)
      case Completing(record) => CallComplete(ResultPath(r.memory.runId), record.resultDigest)
      case _ => CallFail(c.message);
    CallWritesMemory(r.memory, call, c.clock, c.write);
    hide Backed, ValidRecord, Load, NewRecord, Advance, BindLocks, Complete, Fail, Rank, ResultPath;
  }

  /** Persisted stages never go back. */
  lemma StagesNeverGoBack(h: Hashes, d: Disk, r: Run, c: Choice)
    requires RunOk(h, FilesOfRun(d, r.memory.runId), r)
    requires FilesOfRun(d, r.memory.runId).journal.Some?
    ensures
      var f, f' := FilesOfRun(d, r.memory.runId), FilesOfRun(Step(h, d, r, c).0, r.memory.runId);
      f'.journal.Some? && Rank(f.journal.value.stage) <= Rank(f'.journal.value.stage)
  {
    StepWritesMemory(h, d, r, c);
    hide Step, Backed, AtPc, Loadable;
  }

  /** The latest pointer moves only to a run that can be loaded. */
  lemma StepMovesLatest(h: Hashes, d: Disk, r: Run, c: Choice)
    ensures
      var d' := Step(h, d, r, c).0;
      || d'.latest == d.latest
      || (d'.latest == Some(r.memory.runId) && Load(h, d, r.memory.runId).Found?)
  {
    hide Load, Backed, ValidRecord, NewRecord, ValidDigest;
  }

  lemma LoadedIsBacked(h: Hashes, d: Disk, id: string)
    ensures Load(h, d, id).Found? ==> Backed(h, id, FilesOfRun(d, id)) && Load(h, d, id).record == d.results[id]
    ensures Backed(h, id, FilesOfRun(d, id)) ==> Load(h, d, id).Found?
  {
    hide LogMatches, ValidDigest, ValidDetails, ValidUsage;
  }

  // ------------------------------------------------------------------- any number of runs

  /** What was backed stays backed, and unchanged, through a step of any run. */
  lemma BackedStays(h: Hashes, s: System, i: nat, c: Choice, id: string)
    requires Consistent(h, s) && i < |s.runs| && Backed(h, id, FilesOfRun(s.disk, id))
    ensures FilesOfRun(Step(h, s.disk, s.runs[i], c).0, id) == FilesOfRun(s.disk, id)
  {
    var r := s.runs[i];
    if id == r.memory.runId {
      TerminalFilesStay(h, s.disk, r, c);
    } else {
      StepTouchesOwnFiles(h, s.disk, r, c, id);
    }
  }

  /** The disks agree on every run but one. */
  ghost predicate OnlyTouches(d: Disk, d': Disk, id: string) {
    forall other :: other != id ==> FilesOfRun(d', other) == FilesOfRun(d, other)
  }

  lemma OneRunMoves(h: Hashes, d: Disk, runs: seq<Run>, i: nat, d': Disk, r: Run)
    requires RunsOk(h, d, runs) && IdsDiffer(runs) && FilesOwned(d, runs) && i < |runs|
    requires r.memory.runId == runs[i].memory.runId && OnlyTouches(d, d', r.memory.runId)
    requires RunOk(h, FilesOfRun(d', r.memory.runId), r)
    ensures RunsOk(h, d', runs[i := r]) && IdsDiffer(runs[i := r]) && FilesOwned(d', runs[i := r])
  {
    hide RunOk, FilesOfRun;
    forall id | FilesOfRun(d', id) != Files(None, None, None) ensures Taken(runs[i := r], id) {
      if id == r.memory.runId {
        assert runs[i := r][i].memory.runId == id;
      } else {
        assert Taken(runs, id);
        var j :| 0 <= j < |runs| && runs[j].memory.runId == id;
        assert runs[i := r][j].memory.runId == id;
      }
    }
  }

  lemma OneRunJoins(h: Hashes, d: Disk, runs: seq<Run>, d': Disk, r: Run)
    requires RunsOk(h, d, runs) && IdsDiffer(runs) && FilesOwned(d, runs)
    requires !Taken(runs, r.memory.runId) && OnlyTouches(d, d', r.memory.runId)
    requires RunOk(h, FilesOfRun(d', r.memory.runId), r)
    ensures RunsOk(h, d', runs + [r]) && IdsDiffer(runs + [r]) && FilesOwned(d', runs + [r])
  {
    hide RunOk, FilesOfRun;
    forall id | FilesOfRun(d', id) != Files(None, None, None) ensures Taken(runs + [r], id) {
      if id == r.memory.runId {
        assert (runs + [r])[|runs|].memory.runId == id;
      } else {
        assert Taken(runs, id);
        var j :| 0 <= j < |runs| && runs[j].memory.runId == id;
        assert (runs + [r])[j].memory.runId == id;
      }
    }
  }

  lemma ActKeepsConsistent(h: Hashes, s: System, i: nat, c: Choice)
    requires Sound(h) && Consistent(h, s)
    ensures Consistent(h, Next(h, s, Act(i, c)))
  {
    if i < |s.runs| {
      var r, d', r' := s.runs[i], Step(h, s.disk, s.runs[i], c).0, Step(h, s.disk, s.runs[i], c).1;
      assert Next(h, s, Act(i, c)) == System(d', s.runs[i := r']);
      StepKeepsRun(h, s.disk, r, c);
      StepKeepsIdentifier(h, s.disk, r, c);
      forall other | other != r.memory.runId ensures FilesOfRun(d', other) == FilesOfRun(s.disk, other) {
        StepTouchesOwnFiles(h, s.disk, r, c, other);
      }
      LatestStaysBacked(h, s, i, c);
      hide *;
      assert OnlyTouches(s.disk, d', r.memory.runId) by { OnlyTouchesIs(s.disk, d', r.memory.runId); }
      ConsistentIs(h, s);
      OneRunMoves(h, s.disk, s.runs, i, d', r');
      ConsistentIs(h, System(d', s.runs[i := r']));
    }
  }

  lemma OnlyTouchesIs(d: Disk, d': Disk, id: string)
    ensures OnlyTouches(d, d', id) <==> forall other :: other != id ==> FilesOfRun(d', other) == FilesOfRun(d, other)
  {
  }

  lemma ConsistentIs(h: Hashes, s: System)
    ensures Consistent(h, s) <==>
      RunsOk(h, s.disk, s.runs) && IdsDiffer(s.runs) && FilesOwned(s.disk, s.runs) && LatestBacked(h, s.disk)
  {
  }

  lemma LatestStaysBacked(h: Hashes, s: System, i: nat, c: Choice)
    requires Consistent(h, s) && i < |s.runs|
    ensures LatestBacked(h, Step(h, s.disk, s.runs[i], c).0)
  {
    var id := s.runs[i].memory.runId;
    StepMovesLatest(h, s.disk, s.runs[i], c);
    LoadedIsBacked(h, s.disk, id);
    if s.disk.latest.Some? {
      BackedStays(h, s, i, c, s.disk.latest.value);
    }
    if Load(h, s.disk, id).Found? {
      BackedStays(h, s, i, c, id);
    }
    hide Step, Load, Backed, FilesOfRun, RunsOk, IdsDiffer, FilesOwned;
  }

  lemma BeginKeepsConsistent(h: Hashes, s: System, a: Action)
    requires Consistent(h, s) && a.Begin?
    ensures Consistent(h, Next(h, s, a))
  {
    var id := RunId(a.now, a.pid, a.sequence);
    hide RunId, Backed, ValidRunId;
    if !Taken(s.runs, id) && ValidRunId(id) {
      var o := Persist(Fresh(id, a.now, a.task, a.agent), a.write);
      var run := Run(if o.ok then Readying else Finished(false), o.memory, "", "", None);
      var d' := PutJournal(s.disk, id, o.file);
      assert Next(h, s, a) == System(d', s.runs + [run]);
      assert FilesOfRun(s.disk, id) == Files(None, None, None);
      FreshRunIsOk(h, s.disk, id, a);
      assert OnlyTouches(s.disk, d', id);
      assert s.disk.latest.Some? ==> s.disk.latest.value != id by { NothingIsNotBacked(h, id); }
      assert LatestBacked(h, d');
      hide *;
      ConsistentIs(h, s);
      OneRunJoins(h, s.disk, s.runs, d', run);
      ConsistentIs(h, System(d', s.runs + [run]));
    }
  }

  lemma NothingIsNotBacked(h: Hashes, id: string)
    ensures !Backed(h, id, Files(None, None, None))
  {
  }

  lemma FreshRunIsOk(h: Hashes, d: Disk, id: string, a: Action)
    requires a.Begin? && ValidRunId(id) && FilesOfRun(d, id) == Files(None, None, None)
    ensures
      var o := Persist(Fresh(id, a.now, a.task, a.agent), a.write);
      var run := Run(if o.ok then Readying else Finished(false), o.memory, "", "", None);
      RunOk(h, FilesOfRun(PutJournal(d, id, o.file), id), run) && run.memory.runId == id
  {
    hide Backed, ValidRunId;
  }

  lemma RepublishKeepsConsistent(h: Hashes, s: System, a: Action)
    requires Consistent(h, s) && a.Republish?
    ensures Consistent(h, Next(h, s, a))
  {
    LoadedIsBacked(h, s.disk, a.id);
    var next := Next(h, s, a);
    assert forall id :: FilesOfRun(next.disk, id) == FilesOfRun(s.disk, id);
    hide RunOk, Load, Backed, FilesOfRun, IdsDiffer, Taken;
  }

  /** Every reachable state is consistent. */
  lemma {:induction false} HistoryIsConsistent(h: Hashes, actions: seq<Action>)
    requires Sound(h)
    ensures Consistent(h, History(h, actions))
  {
    if actions != [] {
      var before, a := History(h, actions[..|actions| - 1]), actions[|actions| - 1];
      HistoryIsConsistent(h, actions[..|actions| - 1]);
      match a
      case Begin(_, _, _, _, _, _) => BeginKeepsConsistent(h, before, a);
      case Act(i, c) => ActKeepsConsistent(h, before, i, c);
      case Republish(_, _) => RepublishKeepsConsistent(h, before, a);
    }
  }

  // -------------------------------------------------------------- what holds of the store

  predicate HasCompleted(d: Disk, id: string) {
    id in d.journals && d.journals[id].stage == Completed
  }

  /** Loading finds a record exactly for the runs whose persisted journal is completed, whatever failed
      and wherever the runs were cut off. */
  lemma LoadFindsTheCompleted(h: Hashes, actions: seq<Action>, id: string)
    requires Sound(h)
    ensures
      var d := History(h, actions).disk;
      && (Load(h, d, id).Found? <==> HasCompleted(d, id))
      && (HasCompleted(d, id) ==> id in d.results && Load(h, d, id) == Found(d.results[id]))
  {
    var s := History(h, actions);
    HistoryIsConsistent(h, actions);
    LoadedIsBacked(h, s.disk, id);
    if HasCompleted(s.disk, id) {
      assert FilesOfRun(s.disk, id) != Files(None, None, None);
      var i :| 0 <= i < |s.runs| && s.runs[i].memory.runId == id;
      assert RunOk(h, FilesOfRun(s.disk, id), s.runs[i]);
    }
  }

  /** The latest pointer never dangles. */
  lemma LatestCanBeLoaded(h: Hashes, actions: seq<Action>)
    requires Sound(h)
    ensures
      var d := History(h, actions).disk;
      d.latest.Some? ==> Load(h, d, d.latest.value).Found?
  {
    var d := History(h, actions).disk;
    HistoryIsConsistent(h, actions);
    if d.latest.Some? {
      LoadedIsBacked(h, d, d.latest.value);
    }
  }

  /** A run reported as done is recorded. */
  lemma SuccessIsRecorded(h: Hashes, actions: seq<Action>, i: nat)
    requires Sound(h) && i < |History(h, actions).runs|
    requires History(h, actions).runs[i].pc == Finished(true)
    ensures Load(h, History(h, actions).disk, History(h, actions).runs[i].memory.runId).Found?
  {
    HistoryIsConsistent(h, actions);
    var s := History(h, actions);
    assert RunOk(h, FilesOfRun(s.disk, s.runs[i].memory.runId), s.runs[i]);
    LoadedIsBacked(h, s.disk, s.runs[i].memory.runId);
  }

  /** When the completing step fails, the failure handling writes nothing, because it takes the journal in
      memory for closed: the run is recorded all the same exactly if the write had replaced the file, and
      otherwise its journal stays at judging. */
  lemma FailedCompletionIsNotUndone(h: Hashes, d: Disk, r: Run, c: Choice, then': Choice)
    requires RunOk(h, FilesOfRun(d, r.memory.runId), r) && r.pc.Completing?
    requires Step(h, d, r, c).1.pc == Failing
    ensures
      var (d1, r1) := Step(h, d, r, c);
      var (d2, r2) := Step(h, d1, r1, then');
      && r2.pc == Finished(false) && d2 == d1
      && (HasCompleted(d2, r.memory.runId) <==> c.clock.Some? && c.write == ReplacedThenFailed)
      && (!HasCompleted(d2, r.memory.runId) ==> d2.journals[r.memory.runId].stage == Judging)
  {
    hide Backed, Loadable, ValidDetails, ValidUsage, LogMatches;
  }

  // ----------------------------------------------------------------------- the latest result

  /** Later states keep every journal, at a stage no earlier; terminal journals and all files of every
      completed run stay as they are. */
  ghost predicate Grows(d: Disk, d': Disk) {
    forall id :: id in d.journals ==> JournalGrows(FilesOfRun(d, id), FilesOfRun(d', id))
  }

  ghost predicate JournalGrows(f: Files, f': Files)
    requires f.journal.Some?
  {
    && f'.journal.Some? && Rank(f.journal.value.stage) <= Rank(f'.journal.value.stage)
    && (Terminal(f.journal.value.stage) ==> f'.journal == f.journal)
    && (f.journal.value.stage == Completed ==> f' == f)
  }

  /** Every journal can be read, and every completed one has its result. */
  ghost predicate Accurate(h: Hashes, d: Disk) {
    forall id :: id in d.journals ==>
      Loadable(d.journals[id], id) && (HasCompleted(d, id) ==> Load(h, d, id).Found?)
  }

  lemma HistoryIsAccurate(h: Hashes, actions: seq<Action>)
    requires Sound(h)
    ensures Accurate(h, History(h, actions).disk)
  {
    var s := History(h, actions);
    HistoryIsConsistent(h, actions);
    forall id | id in s.disk.journals
      ensures Loadable(s.disk.journals[id], id) && (HasCompleted(s.disk, id) ==> Load(h, s.disk, id).Found?)
    {
      LoadFindsTheCompleted(h, actions, id);
      assert FilesOfRun(s.disk, id) != Files(None, None, None);
      var i :| 0 <= i < |s.runs| && s.runs[i].memory.runId == id;
      assert RunOk(h, FilesOfRun(s.disk, id), s.runs[i]);
    }
  }

  lemma NextGrows(h: Hashes, s: System, a: Action)
    requires Consistent(h, s)
    ensures Grows(s.disk, Next(h, s, a).disk)
  {
    var d, d' := s.disk, Next(h, s, a).disk;
    forall id | id in d.journals ensures JournalGrows(FilesOfRun(d, id), FilesOfRun(d', id)) {
      if a.Act? && a.run < |s.runs| {
        var r := s.runs[a.run];
        if id == r.memory.runId {
          assert RunOk(h, FilesOfRun(d, id), r);
          TerminalFilesStay(h, d, r, a.choice);
          StagesNeverGoBack(h, d, r, a.choice);
        } else {
          StepTouchesOwnFiles(h, d, r, a.choice, id);
        }
      } else if a.Begin? {
        assert FilesOfRun(d, id) != Files(None, None, None);
      }
      hide Step, RunOk;
    }
  }

  /** Over any history: persisted stages never go back, terminal journals are final, completed runs are
      there for good. */
  lemma {:induction false} HistoryGrows(h: Hashes, actions: seq<Action>, n: nat)
    requires Sound(h) && n <= |actions|
    ensures Grows(History(h, actions[..n]).disk, History(h, actions).disk)
  {
    if n == |actions| {
      assert actions[..n] == actions;
    } else {
      var shorter := actions[..|actions| - 1];
      HistoryGrows(h, shorter, n);
      assert shorter[..n] == actions[..n];
      HistoryIsConsistent(h, shorter);
      NextGrows(h, History(h, shorter), actions[|actions| - 1]);
      GrowsOnward(History(h, actions[..n]).disk, History(h, shorter).disk, History(h, actions).disk);
    }
  }

  lemma GrowsOnward(d: Disk, d': Disk, d'': Disk)
    requires Grows(d, d') && Grows(d', d'')
    ensures Grows(d, d'')
  {
    forall id | id in d.journals ensures JournalGrows(FilesOfRun(d, id), FilesOfRun(d'', id)) {
      assert JournalGrows(FilesOfRun(d, id), FilesOfRun(d', id)) && id in d'.journals;
      assert JournalGrows(FilesOfRun(d', id), FilesOfRun(d'', id));
    }
  }
}
