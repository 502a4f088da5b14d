/** The journal of a run (src/run_journal.rs): one file per run, replaced as a whole at every change.
    Digests, clocks and writes belong to the environment; serialisation is taken to keep every field. */
module Journals {
  import opened Wrappers

  datatype RunStage =
    | Planned | RuntimeReady | InputsResolved | CandidateRunning | CandidateCompleted | Judging
    | Completed | Failed

  function Rank(stage: RunStage): nat {
    match stage
    case Planned => 0
    case RuntimeReady => 1
    case InputsResolved => 2
    case CandidateRunning => 3
    case CandidateCompleted => 4
    case Judging => 5
    case Completed => 6
    case Failed => 6
  }

  predicate Terminal(stage: RunStage) {
    stage.Completed? || stage.Failed?
  }

  /** Version 3 of the journal schema, or any other text in its place. */
  datatype Schema = RunJournalV3 | OtherSchema(name: string)

  /** What a journal file holds. */
  datatype JournalFile = JournalFile(
    schema: Schema, runId: string, taskReference: string, agentReference: string,
    taskLock: Option<string>, candidateLock: Option<string>,
    stage: RunStage, updatedAt: nat,
    resultPath: Option<string>, resultDigest: Option<string>, failure: Option<string>)

  // ------------------------------------------------------------------- identifiers and digests

  predicate Alphanumeric(c: char) {
    'a' <= c <= 'z' || 'A' <= c <= 'Z' || '0' <= c <= '9'
  }

  predicate ValidRunId(id: string) {
    "local-" <= id && |id| <= 128 && forall c :: c in id ==> Alphanumeric(c) || c == '-'
  }

  /** An identifier by position. */
  lemma RunIdByPosition(id: string)
    ensures ValidRunId(id) <==>
      && 6 <= |id| <= 128 && id[..6] == "local-"
      && forall k :: 0 <= k < |id| ==>
           id[k] == '-' || '0' <= id[k] <= '9' || 'A' <= id[k] <= 'Z' || 'a' <= id[k] <= 'z'
  {
    assert |id| >= 6 ==> ("local-" <= id <==> id[..6] == "local-");
    assert forall k :: 0 <= k < |id| ==> id[k] in id;
    forall c | c in id ensures exists k :: 0 <= k < |id| && id[k] == c {
      var k :| 0 <= k < |id| && id[k] == c;
    }
  }

  predicate Hex(c: char) {
    '0' <= c <= '9' || 'a' <= c <= 'f' || 'A' <= c <= 'F'
  }

  predicate ValidDigest(digest: string) {
    "sha256:" <= digest && |digest| == 71 && forall c :: c in digest[7..] ==> Hex(c)
  }

  /** A digest by position. */
  lemma DigestByPosition(digest: string)
    ensures ValidDigest(digest) <==>
      && |digest| == 71 && digest[..7] == "sha256:"
      && forall k :: 7 <= k < 71 ==> digest[k] in "0123456789abcdefABCDEF"
  {
    if |digest| == 71 {
      forall k | 7 <= k < 71 ensures Hex(digest[k]) <==> digest[k] in "0123456789abcdefABCDEF" {
        HexIs(digest[k]);
      }
      assert forall k :: 7 <= k < 71 ==> digest[k] == digest[7..][k - 7];
      assert "sha256:" <= digest <==> digest[..7] == "sha256:";
    }
    hide Hex;
  }

  lemma HexIs(c: char)
    ensures Hex(c) <==> c in "0123456789abcdefABCDEF"
  {
    var hex := "0123456789abcdefABCDEF";
    if '0' <= c <= '9' {
      assert hex[c as int - '0' as int] == c;
    } else if 'a' <= c <= 'f' {
      assert hex[10 + c as int - 'a' as int] == c;
    } else if 'A' <= c <= 'F' {
      assert hex[16 + c as int - 'A' as int] == c;
    }
  }

  function Decimal(n: nat): (s: string)
    ensures s != [] && forall c :: c in s ==> '0' <= c <= '9'
  {
    if n < 10 then ['0' + n as char] else Decimal(n / 10) + ['0' + (n % 10) as char]
  }

  function RunId(now: nat, pid: nat, sequence: nat): string {
    "local-" + Decimal(now) + "-" + Decimal(pid) + "-" + Decimal(sequence)
  }

  // ----------------------------------------------------------------- what a reader demands

  predicate LocksBound(j: JournalFile) {
    j.taskLock.Some? && j.candidateLock.Some?
  }

  predicate DigestIfAny(digest: Option<string>) {
    digest.Some? ==> ValidDigest(digest.value)
  }

  /** The checks a file has to pass before it is used. */
  predicate Loadable(j: JournalFile, runId: string) {
    && ValidRunId(runId) && j.schema == RunJournalV3 && j.runId == runId
    && (j.taskLock.Some? <==> j.candidateLock.Some?)
    && DigestIfAny(j.taskLock) && DigestIfAny(j.candidateLock) && DigestIfAny(j.resultDigest)
    && (j.stage == Failed || Rank(j.stage) < Rank(InputsResolved) || j.taskLock.Some?)
    && (j.stage == Completed <==> j.resultPath.Some?)
    && (j.stage == Completed <==> j.resultDigest.Some?)
    && (j.stage == Failed <==> j.failure.Some?)
  }

  // --------------------------------------------------------------------- what the calls do

  /** A write replaces the file at once or leaves it; it may also fail after it has replaced it, when
      the directory cannot be synchronised. */
  datatype Write = Written | Unchanged | ReplacedThenFailed

  /** The journal in memory after a call, what the call put on disk, and whether it succeeded. */
  datatype Outcome = Outcome(memory: JournalFile, file: Option<JournalFile>, ok: bool)

  function Persist(m: JournalFile, write: Write): Outcome {
    Outcome(m, if write == Unchanged then None else Some(m), write == Written)
  }

  function Fresh(runId: string, now: nat, task: string, agent: string): JournalFile {
    JournalFile(RunJournalV3, runId, task, agent, None, None, Planned, now, None, None, None)
  }

  /** A clock that cannot be read makes a call fail after it has set the fields before the time. */
  function Advance(m: JournalFile, stage: RunStage, clock: Option<nat>, write: Write): Outcome {
    if Terminal(m.stage) || Terminal(stage) || Rank(stage) != Rank(m.stage) + 1 then Outcome(m, None, false)
    else
      var moved := m.(stage := stage);
      if clock.None? then Outcome(moved, None, false) else Persist(moved.(updatedAt := clock.value), write)
  }

  function BindLocks(m: JournalFile, task: string, candidate: string, clock: Option<nat>, write: Write): Outcome {
    if m.stage != RuntimeReady || m.taskLock.Some? || m.candidateLock.Some?
       || !ValidDigest(task) || !ValidDigest(candidate) then Outcome(m, None, false)
    else
      var bound := m.(taskLock := Some(task), candidateLock := Some(candidate));
      if clock.None? then Outcome(bound, None, false) else Persist(bound.(updatedAt := clock.value), write)
  }

  function Complete(m: JournalFile, path: string, digest: string, clock: Option<nat>, write: Write): Outcome {
    if m.stage != Judging || !ValidDigest(digest) then Outcome(m, None, false)
    else
      var closed := m.(stage := Completed);
      if clock.None? then Outcome(closed, None, false)
      else
        Persist(closed.(updatedAt := clock.value, resultPath := Some(path), resultDigest := Some(digest)), write)
  }

  /** On a terminal journal this succeeds without doing anything. */
  function Fail(m: JournalFile, message: string, clock: Option<nat>, write: Write): Outcome {
    if Terminal(m.stage) then Outcome(m, None, true)
    else
      var closed := m.(stage := Failed);
      if clock.None? then Outcome(closed, None, false)
      else Persist(closed.(updatedAt := clock.value, failure := Some(message)), write)
  }

  // -------------------------------------------------------------------------- whole histories

  /** A file history is lawful when every file could be read back, stages never go back, and nothing
      follows a terminal file. */
  ghost predicate Lawful(history: seq<JournalFile>, runId: string) {
    && (forall i :: 0 <= i < |history| ==> Loadable(history[i], runId))
    && (forall i, j :: 0 <= i < j < |history| ==> Rank(history[i].stage) <= Rank(history[j].stage))
    && (forall i :: 0 <= i < |history| - 1 ==> !Terminal(history[i].stage))
  }

  /** How memory and file history go together between two calls. Memory may be ahead of the file; a
      journal completed in memory only will never be written again. */
  ghost predicate InStep(m: JournalFile, history: seq<JournalFile>, runId: string) {
    && Lawful(history, runId)
    && (Terminal(m.stage) || Loadable(m, runId))
    && (history != [] ==>
          && Rank(history[|history| - 1].stage) <= Rank(m.stage)
          && (Terminal(history[|history| - 1].stage) ==> m == history[|history| - 1]))
  }

  function Extend(history: seq<JournalFile>, file: Option<JournalFile>): seq<JournalFile> {
    if file.Some? then history + [file.value] else history
  }

  datatype Call =
    | CallAdvance(stage: RunStage)
    | CallBind(task: string, candidate: string)
    | CallComplete(path: string, digest: string)
    | CallFail(message: string)

  function Perform(m: JournalFile, call: Call, clock: Option<nat>, write: Write): Outcome {
    match call
    case CallAdvance(stage) => Advance(m, stage, clock, write)
    case CallBind(task, candidate) => BindLocks(m, task, candidate, clock, write)
    case CallComplete(path, digest) => Complete(m, path, digest, clock, write)
    case CallFail(message) => Fail(m, message, clock, write)
  }

  /** When a call is accepted: an advance by one stage, up to judging; both locks at once, when ready and only
      once; completion from judging; failure of an open journal. */
  predicate Accepted(m: JournalFile, call: Call) {
    match call
    case CallAdvance(stage) => Rank(stage) == Rank(m.stage) + 1 <= 5
    case CallBind(task, candidate) =>
      && m.stage == RuntimeReady && m.taskLock == None && m.candidateLock == None
      && ValidDigest(task) && ValidDigest(candidate)
    case CallComplete(path, digest) => m.stage == Judging && ValidDigest(digest)
    case CallFail(message) => Rank(m.stage) <= 5
  }

  /** What a call puts on disk, field by field: the time is that of its clock, and only the fields that belong
      to the call are new. */
  lemma WrittenFieldByField(m: JournalFile, call: Call, clock: Option<nat>, write: Write)
    ensures
      var o := Perform(m, call, clock, write);
      && (o.file.Some? <==> Accepted(m, call) && clock.Some? && write != Unchanged)
      && (o.ok <==> (o.file.Some? && write == Written) || (call.CallFail? && Rank(m.stage) == 6))
      && (o.file.Some? ==>
            var f := o.file.value;
            && o.memory == f && clock == Some(f.updatedAt)
            && f.schema == m.schema && f.runId == m.runId
            && f.taskReference == m.taskReference && f.agentReference == m.agentReference
            && (call.CallAdvance? ==> f.stage == call.stage)
            && (call.CallBind? ==> f.stage == m.stage)
            && (call.CallComplete? ==> f.stage == Completed)
            && (call.CallFail? ==> f.stage == Failed)
            && (f.taskLock, f.candidateLock)
               == (if call.CallBind? then (Some(call.task), Some(call.candidate)) else (m.taskLock, m.candidateLock))
            && (f.resultPath, f.resultDigest)
               == (if call.CallComplete? then (Some(call.path), Some(call.digest)) else (m.resultPath, m.resultDigest))
            && f.failure == (if call.CallFail? then Some(call.message) else m.failure))
  {
    hide ValidDigest;
  }

  /** The one call the journal itself does not guard: inputs are resolved only with the locks bound. */
  predicate Allowed(m: JournalFile, call: Call) {
    call == CallAdvance(InputsResolved) ==> LocksBound(m)
  }

  lemma FreshIsInStep(runId: string, now: nat, task: string, agent: string, write: Write)
    requires ValidRunId(runId)
    ensures InStep(Fresh(runId, now, task, agent),
                   Extend([], Persist(Fresh(runId, now, task, agent), write).file), runId)
  {
  }

  /** Moving on to a journal that could be read back keeps step, and so does writing it. */
  lemma MoveKeepsStep(m: JournalFile, history: seq<JournalFile>, runId: string, next: JournalFile)
    requires InStep(m, history, runId) && !Terminal(m.stage) && Rank(m.stage) <= Rank(next.stage)
    ensures Loadable(next, runId) || Terminal(next.stage) ==> InStep(next, history, runId)
    ensures Loadable(next, runId) ==> InStep(next, history + [next], runId)
  {
    hide Loadable;
  }

  /** What an allowed call makes of a journal is no earlier in its life, and what it writes can be read
      back; what it leaves in memory only can be read back too, unless it is terminal. */
  lemma CallMovesOn(m: JournalFile, runId: string, call: Call, clock: Option<nat>, write: Write)
    requires Loadable(m, runId) && !Terminal(m.stage) && Allowed(m, call)
    ensures
      var o := Perform(m, call, clock, write);
      && Rank(m.stage) <= Rank(o.memory.stage)
      && (Loadable(o.memory, runId) || Terminal(o.memory.stage))
      && (o.file.Some? ==> o.file.value == o.memory && Loadable(o.memory, runId))
  {
    hide ValidDigest, ValidRunId;
  }

  /** A terminal journal refuses every call. */
  lemma TerminalIsFinal(m: JournalFile, call: Call, clock: Option<nat>, write: Write)
    requires Terminal(m.stage)
    ensures Perform(m, call, clock, write).memory == m && Perform(m, call, clock, write).file == None
  {
  }

  /** Whatever the clock and the disk do, an allowed call keeps the history lawful. */
  lemma CallKeepsStep(
    m: JournalFile, history: seq<JournalFile>, runId: string, call: Call, clock: Option<nat>, write: Write)
    requires InStep(m, history, runId) && Allowed(m, call)
    ensures
      var o := Perform(m, call, clock, write);
      InStep(o.memory, Extend(history, o.file), runId)
  {
    if Terminal(m.stage) {
      TerminalIsFinal(m, call, clock, write);
    } else {
      CallMovesOn(m, runId, call, clock, write);
      MoveKeepsStep(m, history, runId, Perform(m, call, clock, write).memory);
      hide *;
    }
  }

  /** The guard is needed, and it is the only one: a file that a call writes can be read back exactly
      when the call was allowed. */
  lemma WrittenFileLoadsIffAllowed(
    m: JournalFile, runId: string, call: Call, clock: Option<nat>, write: Write)
    requires Loadable(m, runId) && Perform(m, call, clock, write).file.Some?
    ensures Loadable(Perform(m, call, clock, write).file.value, runId) <==> Allowed(m, call)
  {
  }

  /** Without the locks the journal still moves on, and the file it writes cannot be loaded. */
  lemma UnboundJournalIsLost(runId: string, task: string, agent: string)
    requires ValidRunId(runId)
    ensures
      var ready := Advance(Fresh(runId, 0, task, agent), RuntimeReady, Some(1), Written);
      var resolved := Advance(ready.memory, InputsResolved, Some(2), Written);
      ready.ok && resolved.ok && resolved.file.Some? && !Loadable(resolved.file.value, runId)
  {
  }

  datatype Turn = Turn(call: Call, clock: Option<nat>, write: Write)

  function MemoryAfter(m: JournalFile, turns: seq<Turn>): JournalFile
    decreases |turns|
  {
    if turns == [] then m
    else MemoryAfter(Perform(m, turns[0].call, turns[0].clock, turns[0].write).memory, turns[1..])
  }

  /** The files written on the way. */
  function FilesOf(m: JournalFile, turns: seq<Turn>): seq<JournalFile>
    decreases |turns|
  {
    if turns == [] then []
    else
      var o := Perform(m, turns[0].call, turns[0].clock, turns[0].write);
      Extend([], o.file) + FilesOf(o.memory, turns[1..])
  }

  predicate AllAllowed(m: JournalFile, turns: seq<Turn>)
    decreases |turns|
  {
    turns != [] ==>
      && Allowed(m, turns[0].call)
      && AllAllowed(Perform(m, turns[0].call, turns[0].clock, turns[0].write).memory, turns[1..])
  }

  /** Any calls in any order, each of which may fail at its clock or at its write, leave a lawful history
      as long as inputs are never resolved without the locks. */
  lemma {:induction false} AllowedCallsAreLawful(
    m: JournalFile, history: seq<JournalFile>, runId: string, turns: seq<Turn>)
    requires InStep(m, history, runId) && AllAllowed(m, turns)
    ensures InStep(MemoryAfter(m, turns), history + FilesOf(m, turns), runId)
    decreases |turns|
  {
    if turns == [] {
      assert history + [] == history;
    } else {
      var o := Perform(m, turns[0].call, turns[0].clock, turns[0].write);
      CallKeepsStep(m, history, runId, turns[0].call, turns[0].clock, turns[0].write);
      assert AllAllowed(o.memory, turns[1..]) && MemoryAfter(m, turns) == MemoryAfter(o.memory, turns[1..]);
      assert FilesOf(m, turns) == Extend([], o.file) + FilesOf(o.memory, turns[1..]);
      hide *;
      AllowedCallsAreLawful(o.memory, Extend(history, o.file), runId, turns[1..]);
      ExtendFromEmpty(history, o.file, FilesOf(o.memory, turns[1..]));
    }
  }

  lemma ExtendFromEmpty(history: seq<JournalFile>, file: Option<JournalFile>, rest: seq<JournalFile>)
    ensures history + (Extend([], file) + rest) == Extend(history, file) + rest
  {
  }

  // ------------------------------------------------------------------------ run identifiers

  lemma {:induction false} DecimalIsInjective(m: nat, n: nat)
    requires Decimal(m) == Decimal(n)
    ensures m == n
  {
    if m >= 10 && n >= 10 {
      var a, b := Decimal(m / 10), Decimal(n / 10);
      assert Decimal(m)[..|a|] == a && Decimal(n)[..|b|] == b;
      DecimalIsInjective(m / 10, n / 10);
      assert Decimal(m)[|a|] == Decimal(n)[|a|];
    }
  }

  /** A dash cannot be part of a number, so it separates two of them. */
  lemma DashSeparates(a: string, b: string, rest: string, other: string)
    requires '-' !in a && '-' !in b
    requires a + "-" + rest == b + "-" + other
    ensures a == b && rest == other
  {
    FirstDash(a, rest);
    FirstDash(b, other);
    var s, t := a + "-" + rest, b + "-" + other;
    assert |a| == |b|;
    assert s[..|a|] == a && t[..|b|] == b;
    assert s[|a| + 1..] == rest && t[|b| + 1..] == other;
  }

  lemma FirstDash(a: string, rest: string)
    requires '-' !in a
    ensures (a + "-" + rest)[|a|] == '-'
    ensures forall k :: 0 <= k < |a| ==> (a + "-" + rest)[k] != '-'
  {
    forall k | 0 <= k < |a| ensures (a + "-" + rest)[k] != '-' {
      assert (a + "-" + rest)[k] == a[k] && a[k] in a;
    }
  }

  /** Two runs have the same identifier only if time, process and sequence number all agree. */
  lemma RunIdsDiffer(now: nat, pid: nat, sequence: nat, now': nat, pid': nat, sequence': nat)
    requires RunId(now, pid, sequence) == RunId(now', pid', sequence')
    ensures now == now' && pid == pid' && sequence == sequence'
  {
    hide Decimal;
    var p, q := Decimal(pid) + "-" + Decimal(sequence), Decimal(pid') + "-" + Decimal(sequence');
    assert RunId(now, pid, sequence) == "local-" + (Decimal(now) + "-" + p);
    assert RunId(now', pid', sequence') == "local-" + (Decimal(now') + "-" + q);
    assert RunId(now, pid, sequence)[6..] == Decimal(now) + "-" + p;
    assert RunId(now', pid', sequence')[6..] == Decimal(now') + "-" + q;
    DashSeparates(Decimal(now), Decimal(now'), p, q);
    DashSeparates(Decimal(pid), Decimal(pid'), Decimal(sequence), Decimal(sequence'));
    DecimalIsInjective(now, now');
    DecimalIsInjective(pid, pid');
    DecimalIsInjective(sequence, sequence');
  }

  function Power(n: nat): (p: nat)
    ensures p >= 1
  {
    if n == 0 then 1 else 10 * Power(n - 1)
  }

  lemma {:induction false} DecimalLength(n: nat, digits: nat)
    requires digits >= 1 && n < Power(digits)
    ensures |Decimal(n)| <= digits
  {
    if n >= 10 {
      DecimalLength(n / 10, digits - 1);
    }
  }

  /** Every generated identifier passes the check on identifiers: the time has 128 bits, a process number
      32 and the sequence number 64. */
  lemma RunIdIsValid(now: nat, pid: nat, sequence: nat)
    requires now < Power(39) && pid < Power(10) && sequence < Power(20)
    ensures ValidRunId(RunId(now, pid, sequence))
  {
    hide Power, Decimal;
    var a, b, c := Decimal(now), Decimal(pid), Decimal(sequence);
    DecimalLength(now, 39);
    DecimalLength(pid, 10);
    DecimalLength(sequence, 20);
    JoinedWithDashes(a, b, c);
  }

  lemma JoinedWithDashes(a: string, b: string, c: string)
    requires forall k :: k in a || k in b || k in c ==> '0' <= k <= '9'
    requires |a| <= 39 && |b| <= 10 && |c| <= 20
    ensures ValidRunId("local-" + a + "-" + b + "-" + c)
  {
    var front := "local-" + a;
    var id := front + "-" + b + "-" + c;
    assert front[..6] == "local-" && id[..|front|] == front && id[..6] == "local-";
    assert forall k :: k in front ==> Alphanumeric(k) || k == '-';
    assert forall k :: k in id ==> k in front || k in b || k in c || k == '-';
  }

  // ------------------------------------------------------------------------------ the objects

  /** The directory of journal files. */
  class RunsDirectory {
    var files: map<string, JournalFile>

    constructor ()
      ensures files == map[]
    {
      files := map[];
    }

    method Replace(runId: string, file: JournalFile, write: Write) returns (ok: bool)
      modifies this
      ensures ok == (write == Written)
      ensures files == if write == Unchanged then old(files) else old(files)[runId := file]
    {
      if write != Unchanged {
        files := files[runId := file];
      }
      return write == Written;
    }

    /** A journal read back from its file. */
    method Load(runId: string) returns (journal: Option<JournalFile>)
      ensures journal.Some? <==> runId in files && Loadable(files[runId], runId)
      ensures journal.Some? ==> journal.value == files[runId]
    {
      if !ValidRunId(runId) || runId !in files {
        return None;
      }
      var j := files[runId];
      if j.schema != RunJournalV3 || j.runId != runId || j.taskLock.Some? != j.candidateLock.Some? {
        return None;
      }
      if (j.taskLock.Some? && !ValidDigest(j.taskLock.value))
         || (j.candidateLock.Some? && !ValidDigest(j.candidateLock.value)) {
        return None;
      }
      if !(j.stage == Failed || Rank(j.stage) < Rank(InputsResolved) || j.taskLock.Some?) {
        return None;
      }
      if (j.stage == Completed) != j.resultPath.Some? || (j.stage == Completed) != j.resultDigest.Some? {
        return None;
      }
      if j.resultDigest.Some? && !ValidDigest(j.resultDigest.value) {
        return None;
      }
      if (j.stage == Failed) != j.failure.Some? {
        return None;
      }
      return Some(j);
    }
  }

  class RunJournal {
    const runs: RunsDirectory
    const runId: string
    const taskReference: string
    const agentReference: string
    var taskLock: Option<string>
    var candidateLock: Option<string>
    var stage: RunStage
    var updatedAt: nat
    var resultPath: Option<string>
    var resultDigest: Option<string>
    var failure: Option<string>
    /** Every content the file of this run has had. */
    ghost var history: seq<JournalFile>

    function Memory(): JournalFile
      reads this
    {
      JournalFile(RunJournalV3, runId, taskReference, agentReference, taskLock, candidateLock, stage, updatedAt,
                  resultPath, resultDigest, failure)
    }

    ghost predicate Valid()
      reads this, runs
    {
      InStep(Memory(), history, runId) && FileIsLast(runs.files, runId, history)
    }

    constructor Begin(runs: RunsDirectory, runId: string, now: nat, task: string, agent: string)
      requires ValidRunId(runId)
      ensures Valid() && this.runs == runs && history == [] && Memory() == Fresh(runId, now, task, agent)
    {
      this.runs, this.runId, taskReference, agentReference := runs, runId, task, agent;
      taskLock, candidateLock, stage, updatedAt := None, None, Planned, now;
      resultPath, resultDigest, failure, history := None, None, None, [];
    }

    method PersistFile(write: Write) returns (ok: bool)
      requires FileIsLast(runs.files, runId, history)
      modifies this`history, runs
      ensures ok == Persist(Memory(), write).ok
      ensures history == Extend(old(history), Persist(Memory(), write).file)
      ensures runs.files == PutFile(old(runs.files), runId, Persist(Memory(), write).file)
      ensures FileIsLast(runs.files, runId, history)
    {
      ok := runs.Replace(runId, Memory(), write);
      if write != Unchanged {
        history := history + [Memory()];
      }
    }

    /** The journal does not ask for bound locks here; without them what it writes cannot be loaded. */
    method AdvanceTo(next: RunStage, clock: Option<nat>, write: Write) returns (ok: bool)
      requires Valid()
      modifies this, runs
      ensures Did(old(history), old(runs.files), Advance(old(Memory()), next, clock, write), ok)
      ensures FileIsLast(runs.files, runId, history)
      ensures Allowed(old(Memory()), CallAdvance(next)) ==> Valid()
    {
      if Allowed(Memory(), CallAdvance(next)) {
        CallKeepsStep(Memory(), history, runId, CallAdvance(next), clock, write);
      }
      ghost var o := Advance(Memory(), next, clock, write);
      assert Allowed(Memory(), CallAdvance(next)) ==> InStep(o.memory, Extend(history, o.file), runId);
      hide Allowed, Perform, InStep, ValidDigest, FileIsLast;
      if Terminal(stage) || Terminal(next) || Rank(next) != Rank(stage) + 1 {
        return false;
      }
      stage := next;
      if clock.None? {
        return false;
      }
      updatedAt := clock.value;
      ok := PersistFile(write);
    }

    method Bind(task: string, candidate: string, clock: Option<nat>, write: Write) returns (ok: bool)
      requires Valid()
      modifies this, runs
      ensures Valid() && Did(old(history), old(runs.files), BindLocks(old(Memory()), task, candidate, clock, write), ok)
    {
      CallKeepsStep(Memory(), history, runId, CallBind(task, candidate), clock, write);
      ghost var o := BindLocks(Memory(), task, candidate, clock, write);
      assert InStep(o.memory, Extend(history, o.file), runId);
      hide Perform, InStep, ValidDigest, FileIsLast;
      if stage != RuntimeReady || taskLock.Some? || candidateLock.Some? {
        return false;
      }
      if !ValidDigest(task) || !ValidDigest(candidate) {
        return false;
      }
      taskLock, candidateLock := Some(task), Some(candidate);
      if clock.None? {
        return false;
      }
      updatedAt := clock.value;
      ok := PersistFile(write);
    }

    method CompleteWith(path: string, digest: string, clock: Option<nat>, write: Write) returns (ok: bool)
      requires Valid()
      modifies this, runs
      ensures Valid() && Did(old(history), old(runs.files), Complete(old(Memory()), path, digest, clock, write), ok)
    {
      CallKeepsStep(Memory(), history, runId, CallComplete(path, digest), clock, write);
      ghost var o := Complete(Memory(), path, digest, clock, write);
      assert InStep(o.memory, Extend(history, o.file), runId);
      hide Perform, InStep, ValidDigest, FileIsLast;
      if stage != Judging || !ValidDigest(digest) {
        return false;
      }
      stage := Completed;
      if clock.Some? {
        updatedAt, resultPath, resultDigest := clock.value, Some(path), Some(digest);
        assert o == Persist(Memory(), write);
        hide Complete;
        ok := PersistFile(write);
      } else {
        ok := false;
      }
    }

    method FailWith(message: string, clock: Option<nat>, write: Write) returns (ok: bool)
      requires Valid()
      modifies this, runs
      ensures Valid() && Did(old(history), old(runs.files), Fail(old(Memory()), message, clock, write), ok)
    {
      CallKeepsStep(Memory(), history, runId, CallFail(message), clock, write);
      ghost var o := Fail(Memory(), message, clock, write);
      assert InStep(o.memory, Extend(history, o.file), runId);
      hide Perform, InStep, ValidDigest, FileIsLast;
      if Terminal(stage) {
        return true;
      }
      stage := Failed;
      if clock.Some? {
        updatedAt, failure := clock.value, Some(message);
        assert o == Persist(Memory(), write);
        hide Fail;
        ok := PersistFile(write);
      } else {
        ok := false;
      }
    }

    /** The object now holds what the outcome says, and the file has been given what it says. */
    ghost predicate Did(
      before: seq<JournalFile>, files: map<string, JournalFile>, o: Outcome, ok: bool)
      reads this, runs
    {
      && Memory() == o.memory && history == Extend(before, o.file) && ok == o.ok
      && runs.files == PutFile(files, runId, o.file)
    }
  }

  predicate FileIsLast(files: map<string, JournalFile>, runId: string, history: seq<JournalFile>) {
    history != [] ==> runId in files && files[runId] == history[|history| - 1]
  }

  function PutFile(files: map<string, JournalFile>, runId: string, file: Option<JournalFile>): map<string, JournalFile> {
    if file.Some? then files[runId := file.value] else files
  }
}
