/** The game Judge's session registry (runtime_assets/game_server_app.py): one session, the
    registry, and every handler as a sequence of critical sections run by any number of threads. */
module GameServer {
  import opened Wrappers

  // ------------------------------------------------------------------------ one session

  /** One recorded move. */
  datatype Move = Move(move: nat, action: string, score: int, peak: int, done: bool)

  /** A session; `live` holds until the environment is closed by archiving. */
  datatype Session = Session(
    number: nat,
    maximum: int,
    moves: nat,
    score: int,
    peak: int,
    done: bool,
    steps: seq<Move>,
    live: bool)

  /** A history entry. */
  datatype Entry = Entry(
    number: nat,
    score: int,
    finalScore: int,
    peak: int,
    maximum: int,
    moves: nat,
    steps: seq<Move>,
    passRate: real)

  /** The final values a close request reports. */
  datatype Reply = Reply(number: nat, finalScore: int, peak: int, maximum: int, moves: nat)

  function Max(a: int, b: int): int {
    if a > b then a else b
  }

  function NewSession(number: nat, maximum: int): Session {
    Session(number, maximum, 0, 0, 0, false, [], true)
  }

  /** One accepted move, given what the environment answers. */
  function Played(s: Session, action: string, score: int, done: bool): Session {
    var peak := Max(s.peak, score);
    s.(moves := s.moves + 1, score := score, peak := peak, done := done,
       steps := s.steps + [Move(s.moves + 1, action, score, peak, done)])
  }

  function EntryOf(s: Session): Entry {
    Entry(s.number, s.score, s.score, s.peak, s.maximum, s.moves, s.steps,
      if s.maximum > 0 then s.score as real / s.maximum as real else 0.0)
  }

  function ReplyOf(s: Session): Reply {
    Reply(s.number, s.score, s.peak, s.maximum, s.moves)
  }

  function ReplyOfEntry(e: Entry): Reply {
    Reply(e.number, e.finalScore, e.peak, e.maximum, e.moves)
  }

  /** The largest of zero and the scores of the moves. */
  function PeakOf(steps: seq<Move>): int {
    if steps == [] then 0 else Max(PeakOf(steps[..|steps| - 1]), steps[|steps| - 1].score)
  }

  /** A session's counters agree with its recorded moves, and only the last move can end a game. */
  ghost predicate Consistent(s: Session) {
    && s.moves == |s.steps|
    && s.score == (if s.steps == [] then 0 else s.steps[|s.steps| - 1].score)
    && s.peak == PeakOf(s.steps)
    && s.done == (s.steps != [] && s.steps[|s.steps| - 1].done)
    && (forall k :: 0 <= k < |s.steps| - 1 ==> !s.steps[k].done)
    && (forall k :: 0 <= k < |s.steps| ==> s.steps[k].move == k + 1 && s.steps[k].peak == PeakOf(s.steps[..k + 1]))
  }

  lemma PlayKeepsConsistent(s: Session, action: string, score: int, done: bool)
    requires Consistent(s) && !s.done
    ensures Consistent(Played(s, action, score, done))
  {
    var after := Played(s, action, score, done);
    var n := |s.steps|;
    assert after.steps[..n] == s.steps;
    assert after.steps[..n + 1] == after.steps;
    forall k | 0 <= k < n ensures after.steps[k].move == k + 1 && after.steps[k].peak == PeakOf(after.steps[..k + 1]) {
      assert after.steps[..k + 1] == s.steps[..k + 1];
      assert after.steps[k] == s.steps[k];
    }
  }

  /** The peak is the largest of zero and all move scores. */
  lemma {:induction false} PeakIsMaximum(steps: seq<Move>)
    ensures PeakOf(steps) >= 0 && forall k :: 0 <= k < |steps| ==> steps[k].score <= PeakOf(steps)
    ensures PeakOf(steps) == 0 || exists k :: 0 <= k < |steps| && steps[k].score == PeakOf(steps)
  {
    if steps != [] {
      var init := steps[..|steps| - 1];
      PeakIsMaximum(init);
      if PeakOf(steps) == PeakOf(init) {
        if PeakOf(init) != 0 {
          var k :| 0 <= k < |init| && init[k].score == PeakOf(init);
          assert steps[k] == init[k];
        }
      } else {
        assert steps[|steps| - 1].score == PeakOf(steps);
      }
      forall k | 0 <= k < |steps| ensures steps[k].score <= PeakOf(steps) {
        if k < |init| { assert steps[k] == init[k]; }
      }
    }
  }

  /** A session object; its methods are the critical sections under the session's own lock. */
  class GameSessionState {
    const number: nat
    const maximum: int
    var moves: nat
    var score: int
    var peak: int
    var done: bool
    var steps: seq<Move>
    var hasEnv: bool

    function Value(): Session
      reads this
    {
      Session(number, maximum, moves, score, peak, done, steps, hasEnv)
    }

    constructor (number: nat, maximum: int)
      ensures Value() == NewSession(number, maximum)
    {
      this.number, this.maximum := number, maximum;
      moves, score, peak, done, steps, hasEnv := 0, 0, 0, false, [], true;
    }

    /** A step request; `score` and `done` are the environment's answer. Refused once the game is
        over or archived. */
    method Step(action: string, score: int, done: bool) returns (accepted: bool)
      modifies this
      ensures accepted == (!old(Value()).done && old(Value()).live)
      ensures Value() == if accepted then Played(old(Value()), action, score, done) else old(Value())
    {
      if this.done || !hasEnv {
        return false;
      }
      this.done := done;
      moves := moves + 1;
      this.score := score;
      if score > peak {
        peak := score;
      }
      steps := steps + [Move(moves, action, score, peak, done)];
      return true;
    }

    /** Builds the history entry and closes the environment. */
    method Freeze() returns (entry: Entry)
      modifies this`hasEnv
      ensures entry == EntryOf(old(Value()))
      ensures Value() == old(Value()).(live := false)
    {
      var passRate := if maximum > 0 then score as real / maximum as real else 0.0;
      entry := Entry(number, score, score, peak, maximum, moves, steps, passRate);
      if hasEnv {
        hasEnv := false;
      }
    }
  }

  // ------------------------------------------------------------------------ the registry

  /** A registered session: its identifier and its game number, in insertion order. */
  datatype Slot = Slot(id: string, number: nat)

  /** What the registry lock protects. */
  datatype Store = Store(registry: seq<Slot>, history: seq<Entry>, nextNumber: nat)

  function Lookup(registry: seq<Slot>, id: string): Option<nat> {
    if registry == [] then None
    else if registry[0].id == id then Some(registry[0].number)
    else Lookup(registry[1..], id)
  }

  /** Removes the slot with this identifier. */
  function Without(registry: seq<Slot>, id: string): seq<Slot> {
    if registry == [] then []
    else if registry[0].id == id then registry[1..]
    else [registry[0]] + Without(registry[1..], id)
  }

  /** Dictionary assignment: replaces the slot with this identifier, or adds one at the end. */
  function With(registry: seq<Slot>, id: string, number: nat): seq<Slot> {
    if registry == [] then [Slot(id, number)]
    else if registry[0].id == id then [Slot(id, number)] + registry[1..]
    else [registry[0]] + With(registry[1..], id, number)
  }

  function Numbers(registry: seq<Slot>): seq<nat> {
    seq(|registry|, k requires 0 <= k < |registry| => registry[k].number)
  }

  /** The registry object; each method is one critical section under the registry lock. */
  class State {
    const maxActiveSessions: nat
    var sessions: seq<Slot>
    var history: seq<Entry>
    var nextGameNumber: nat

    function Value(): Store
      reads this
    {
      Store(sessions, history, nextGameNumber)
    }

    constructor (maxActiveSessions: nat)
      requires maxActiveSessions >= 1
      ensures Value() == Store([], [], 1) && this.maxActiveSessions == maxActiveSessions
    {
      this.maxActiveSessions := maxActiveSessions;
      sessions, history, nextGameNumber := [], [], 1;
    }

    /** The session a request names, if it is registered. */
    method Find(id: string) returns (number: Option<nat>)
      ensures number == Lookup(sessions, id)
    {
      var k := 0;
      assert sessions[0..] == sessions;
      while k < |sessions|
        invariant 0 <= k <= |sessions|
        invariant Lookup(sessions[k..], id) == Lookup(sessions, id)
      {
        if sessions[k].id == id {
          return Some(sessions[k].number);
        }
        k := k + 1;
      }
      return None;
    }

    /** Makes room for a new session: takes the oldest out when the registry is full. */
    method Evict() returns (oldest: Option<nat>)
      requires maxActiveSessions >= 1
      modifies this`sessions
      ensures (sessions, oldest) == MakeRoom(old(sessions), maxActiveSessions)
    {
      if |sessions| >= maxActiveSessions {
        oldest := Some(sessions[0].number);
        sessions := sessions[1..];
      } else {
        oldest := None;
      }
    }

    /** Registers a new session under the next game number. */
    method Register(id: string) returns (number: nat)
      modifies this`sessions, this`nextGameNumber
      ensures number == old(nextGameNumber) && nextGameNumber == old(nextGameNumber) + 1
      ensures sessions == With(old(sessions), id, number)
    {
      number := nextGameNumber;
      nextGameNumber := nextGameNumber + 1;
      sessions := With(sessions, id, number);
    }

    /** Takes out the session a close request names. */
    method Take(id: string) returns (number: Option<nat>)
      modifies this`sessions
      ensures number == Lookup(old(sessions), id)
      ensures sessions == if number.Some? then Without(old(sessions), id) else old(sessions)
    {
      number := Find(id);
      if number.Some? {
        sessions := Without(sessions, id);
      }
    }

    /** Takes out a finished session, unless someone else has taken it out already. */
    method TakeIfSame(id: string, number: nat) returns (archive: bool)
      modifies this`sessions
      ensures archive == (Lookup(old(sessions), id) == Some(number))
      ensures sessions == if archive then Without(old(sessions), id) else old(sessions)
    {
      var registered := Find(id);
      archive := registered == Some(number);
      if archive {
        sessions := Without(sessions, id);
      }
    }

    method TakeAll() returns (numbers: seq<nat>)
      modifies this`sessions
      ensures numbers == Numbers(old(sessions)) && sessions == []
    {
      numbers := Numbers(sessions);
      sessions := [];
    }

    method Append(entry: Entry)
      modifies this`history
      ensures history == old(history) + [entry]
    {
      history := history + [entry];
    }
  }

  /** The capacity decision: the registry afterwards and the session taken out, if any. */
  function MakeRoom(registry: seq<Slot>, max: nat): (seq<Slot>, Option<nat>)
    requires max >= 1
  {
    if |registry| >= max then (registry[1..], Some(registry[0].number)) else (registry, None)
  }

  // --------------------------------------------------------------------- the threads

  /** What a handler does once its sessions are archived. */
  datatype Then = ThenCreate(id: string) | ThenEnd | ThenReply(number: nat)

  /** Where a request handler stands, always between two critical sections. */
  datatype Pc =
    | WaitNew                                    // /new, before taking new_lock
    | HoldNew                                    // /new, before the capacity decision
    | CreateEnv(id: string)                      // /new, before the environment starts
    | Insert(id: string, maximum: int)           // /new, before registering the session
    | FindStep(id: string, action: string)       // step, before the lookup
    | Play(id: string, number: nat, action: string)
    | AfterPlay(id: string, number: nat, done: bool)
    | FindClose(id: string)
    | FindAll
    | Archiving(queue: seq<nat>, entry: Option<Entry>, next: Then)
    | Answer(number: nat)                        // close, before reading the final values
    | Ended

  datatype Request = NewGame | StepGame(id: string, action: string) | CloseGame(id: string) | CloseAll

  /** The environment's answers at one step of a thread: the random identifier, whether starting a
      game fails, its maximum score, and the score and end mark of a move. */
  datatype Choice = Choice(id: string, fails: bool, maximum: int, score: int, done: bool)

  datatype Event = Begin(request: Request) | Go(thread: nat, choice: Choice)

  /** The whole server: what the locks protect, the sessions by game number, the holder of
      new_lock, every thread, and the close responses sent so far. */
  datatype Server = Server(
    store: Store,
    sessions: map<nat, Session>,
    newLock: Option<nat>,
    threads: seq<Pc>,
    replies: seq<Reply>)

  function Initial(): Server {
    Server(Store([], [], 1), map[], None, [], [])
  }

  function Entrance(request: Request): Pc {
    match request
    case NewGame => WaitNew
    case StepGame(id, action) => FindStep(id, action)
    case CloseGame(id) => FindClose(id)
    case CloseAll => FindAll
  }

  /** Where a thread goes when its queue of sessions to archive is empty. */
  function Resume(next: Then): Pc {
    match next
    case ThenCreate(id) => CreateEnv(id)
    case ThenEnd => Ended
    case ThenReply(number) => Answer(number)
  }

  function Put(s: Server, t: nat, pc: Pc): Server
    requires t < |s.threads|
  {
    s.(threads := s.threads[t := pc])
  }

  /** The critical sections of a /new request. */
  function CreateSection(s: Server, t: nat, c: Choice, max: nat): Server
    requires t < |s.threads| && max >= 1
  {
    match s.threads[t]
    case WaitNew => if s.newLock.Some? then s else Put(s, t, HoldNew).(newLock := Some(t))
    case HoldNew =>
      if Lookup(s.store.registry, c.id).Some? then s
      else
        var (registry, oldest) := MakeRoom(s.store.registry, max);
        var queue := if oldest.Some? then [oldest.value] else [];
        Put(s, t, Archiving(queue, None, ThenCreate(c.id))).(store := s.store.(registry := registry))
    case CreateEnv(id) =>
      if c.fails then Put(s, t, Ended).(newLock := None) else Put(s, t, Insert(id, c.maximum))
    case Insert(id, maximum) =>
      var number := s.store.nextNumber;
      Put(s, t, Ended).(
        newLock := None,
        store := s.store.(nextNumber := number + 1, registry := With(s.store.registry, id, number)),
        sessions := s.sessions[number := NewSession(number, maximum)])
    case _ => s
  }

  /** The critical sections of a step request. */
  function StepSection(s: Server, t: nat, c: Choice): Server
    requires t < |s.threads|
  {
    match s.threads[t]
    case FindStep(id, action) =>
      (match Lookup(s.store.registry, id)
       case None => Put(s, t, Ended)
       case Some(number) => Put(s, t, Play(id, number, action)))
    case Play(id, number, action) =>
      if number !in s.sessions || s.sessions[number].done || !s.sessions[number].live then Put(s, t, Ended)
      else
        Put(s, t, AfterPlay(id, number, c.done)).(
          sessions := s.sessions[number := Played(s.sessions[number], action, c.score, c.done)])
    case AfterPlay(id, number, done) =>
      if done && Lookup(s.store.registry, id) == Some(number) then
        Put(s, t, Archiving([number], None, ThenEnd)).(
          store := s.store.(registry := Without(s.store.registry, id)))
      else Put(s, t, Ended)
    case _ => s
  }

  /** The critical sections of the two close requests, up to the archiving and after it. */
  function CloseSection(s: Server, t: nat): Server
    requires t < |s.threads|
  {
    match s.threads[t]
    case FindClose(id) =>
      (match Lookup(s.store.registry, id)
       case None => Put(s, t, Ended)
       case Some(number) =>
         Put(s, t, Archiving([number], None, ThenReply(number))).(
           store := s.store.(registry := Without(s.store.registry, id))))
    case FindAll =>
      Put(s, t, Archiving(Numbers(s.store.registry), None, ThenEnd)).(store := s.store.(registry := []))
    case Answer(number) =>
      if number !in s.sessions then s
      else Put(s, t, Ended).(replies := s.replies + [ReplyOf(s.sessions[number])])
    case _ => s
  }

  /** Archiving one session takes two critical sections: its own lock, then the registry's. */
  function ArchiveSection(s: Server, t: nat): Server
    requires t < |s.threads|
  {
    match s.threads[t]
    case Archiving(queue, entry, next) =>
      if entry.Some? then
        Put(s, t, Archiving(if queue == [] then [] else queue[1..], None, next)).(
          store := s.store.(history := s.store.history + [entry.value]))
      else if queue == [] then Put(s, t, Resume(next))
      else if queue[0] !in s.sessions then s
      else
        Put(s, t, Archiving(queue, Some(EntryOf(s.sessions[queue[0]])), next)).(
          sessions := s.sessions[queue[0] := s.sessions[queue[0]].(live := false)])
    case _ => s
  }

  /** One critical section of thread `t`; a thread that cannot move leaves the server as it is. */
  function Advance(s: Server, t: nat, c: Choice, max: nat): Server
    requires t < |s.threads| && max >= 1
  {
    var pc := s.threads[t];
    if pc.WaitNew? || pc.HoldNew? || pc.CreateEnv? || pc.Insert? then CreateSection(s, t, c, max)
    else if pc.FindStep? || pc.Play? || pc.AfterPlay? then StepSection(s, t, c)
    else if pc.Archiving? then ArchiveSection(s, t)
    else CloseSection(s, t)
  }

  lemma AdvanceIsSection(s: Server, t: nat, c: Choice, max: nat)
    requires t < |s.threads| && max >= 1
    ensures
      var pc := s.threads[t];
      Advance(s, t, c, max) ==
        if pc.WaitNew? || pc.HoldNew? || pc.CreateEnv? || pc.Insert? then CreateSection(s, t, c, max)
        else if pc.FindStep? || pc.Play? || pc.AfterPlay? then StepSection(s, t, c)
        else if pc.Archiving? then ArchiveSection(s, t)
        else CloseSection(s, t)
  {
    hide CreateSection, StepSection, ArchiveSection, CloseSection;
  }

  function Next(s: Server, e: Event, max: nat): Server
    requires max >= 1
  {
    match e
    case Begin(request) => s.(threads := s.threads + [Entrance(request)])
    case Go(t, choice) => if t < |s.threads| then Advance(s, t, choice, max) else s
  }

  /** The server after any interleaving of any requests. */
  function Run(s: Server, events: seq<Event>, max: nat): Server
    requires max >= 1
    decreases |events|
  {
    if events == [] then s else Run(Next(s, events[0], max), events[1..], max)
  }

  // ----------------------------------------------------------- where every game number is

  function HistoryNumbers(history: seq<Entry>): seq<nat> {
    seq(|history|, k requires 0 <= k < |history| => history[k].number)
  }

  /** The sessions a thread has taken out of the registry and not yet put into the history. */
  function QueueOf(pc: Pc): seq<nat> {
    if pc.Archiving? then pc.queue else []
  }

  function Queues(threads: seq<Pc>): multiset<nat> {
    if threads == [] then multiset{} else multiset(QueueOf(threads[0])) + Queues(threads[1..])
  }

  /** All game numbers handed out before `next`, once each. */
  function Issued(next: nat): multiset<nat> {
    if next <= 1 then multiset{} else Issued(next - 1) + multiset{next - 1}
  }

  /** Every place a game number can be, with repetitions. */
  function Places(s: Server): multiset<nat> {
    multiset(Numbers(s.store.registry)) + Queues(s.threads) + multiset(HistoryNumbers(s.store.history))
  }

  ghost predicate Partitioned(s: Server) {
    s.store.nextNumber >= 1 && Places(s) == Issued(s.store.nextNumber)
  }

  lemma {:induction false} QueuesUpdate(threads: seq<Pc>, t: nat, pc: Pc)
    requires t < |threads|
    ensures Queues(threads[t := pc]) + multiset(QueueOf(threads[t])) == Queues(threads) + multiset(QueueOf(pc))
  {
    var rest, after := threads[1..], threads[t := pc];
    if t == 0 {
      assert after[1..] == rest;
    } else {
      assert after[1..] == rest[t - 1 := pc] && after[0] == threads[0] && rest[t - 1] == threads[t];
      QueuesUpdate(rest, t - 1, pc);
      AddToBoth(multiset(QueueOf(threads[0])), Queues(rest[t - 1 := pc]), multiset(QueueOf(threads[t])), Queues(rest), multiset(QueueOf(pc)));
    }
  }

  lemma AddToBoth(x: multiset<nat>, a: multiset<nat>, b: multiset<nat>, c: multiset<nat>, d: multiset<nat>)
    requires a + b == c + d
    ensures x + a + b == x + c + d
  {
    assert x + a + b == x + (a + b);
  }

  lemma {:induction false} QueuesAppend(threads: seq<Pc>, pc: Pc)
    requires QueueOf(pc) == []
    ensures Queues(threads + [pc]) == Queues(threads)
  {
    if threads == [] {
      assert threads + [pc] == [pc];
      assert [pc][1..] == [];
      assert Queues([pc]) == multiset(QueueOf(pc)) + Queues([]);
    } else {
      QueuesAppend(threads[1..], pc);
      assert (threads + [pc])[1..] == threads[1..] + [pc];
    }
  }

  lemma {:induction false} WithoutNumbers(registry: seq<Slot>, id: string)
    requires Lookup(registry, id).Some?
    ensures multiset(Numbers(Without(registry, id))) + multiset{Lookup(registry, id).value} == multiset(Numbers(registry))
  {
    NumbersCons(registry);
    if registry[0].id != id {
      WithoutNumbers(registry[1..], id);
      NumbersCons(Without(registry, id));
      assert Without(registry, id)[1..] == Without(registry[1..], id);
    }
  }

  lemma NumbersCons(registry: seq<Slot>)
    requires registry != []
    ensures Numbers(registry) == [registry[0].number] + Numbers(registry[1..])
    ensures multiset(Numbers(registry)) == multiset{registry[0].number} + multiset(Numbers(registry[1..]))
  {
    assert Numbers(registry) == [registry[0].number] + Numbers(registry[1..]);
  }

  lemma NumbersAppend(registry: seq<Slot>, slot: Slot)
    ensures Numbers(registry + [slot]) == Numbers(registry) + [slot.number]
  {
  }

  lemma HistoryAppend(history: seq<Entry>, entry: Entry)
    ensures HistoryNumbers(history + [entry]) == HistoryNumbers(history) + [entry.number]
  {
  }

  lemma {:induction false} WithFresh(registry: seq<Slot>, id: string, number: nat)
    requires Lookup(registry, id).None?
    ensures With(registry, id, number) == registry + [Slot(id, number)]
  {
    if registry != [] {
      WithFresh(registry[1..], id, number);
    }
  }

  // ---------------------------------------------------------------------- the invariant

  ghost predicate Increasing(registry: seq<Slot>) {
    forall i, j :: 0 <= i < j < |registry| ==> registry[i].number < registry[j].number
  }

  predicate HoldsNew(pc: Pc) {
    pc.HoldNew? || pc.CreateEnv? || pc.Insert? || (pc.Archiving? && pc.next.ThenCreate?)
  }

  /** The identifier chosen for a session that is not registered yet. */
  function Chosen(pc: Pc): Option<string> {
    match pc
    case CreateEnv(id) => Some(id)
    case Insert(id, _) => Some(id)
    case Archiving(_, _, ThenCreate(id)) => Some(id)
    case _ => None
  }

  /** The session is archived and its history entry holds its values. */
  predicate InHistory(s: Server, number: nat) {
    number in s.sessions && EntryOf(s.sessions[number]) in s.store.history
  }

  predicate ArchivingOk(s: Server, queue: seq<nat>, entry: Option<Entry>, next: Then) {
    && (forall k :: 0 <= k < |queue| ==> queue[k] in s.sessions)
    && (entry.Some? ==> queue != [] && entry.value == EntryOf(s.sessions[queue[0]]) && !s.sessions[queue[0]].live)
    && (next.ThenReply? ==> queue == [next.number] || (queue == [] && InHistory(s, next.number) && !s.sessions[next.number].live))
  }

  predicate ThreadOk(s: Server, pc: Pc) {
    match pc
    case Archiving(queue, entry, next) => ArchivingOk(s, queue, entry, next)
    case Answer(number) => InHistory(s, number) && !s.sessions[number].live
    case _ => true
  }

  ghost predicate Sane(s: Server) {
    && (forall n :: n in s.sessions <==> 1 <= n < s.store.nextNumber)
    && (forall n :: n in s.sessions ==> s.sessions[n].number == n && Consistent(s.sessions[n]))
    && (forall k :: 0 <= k < |s.store.registry| ==> s.store.registry[k].number in s.sessions)
    && Increasing(s.store.registry)
  }

  /** At most one thread is creating a game, and it has room and an unused identifier. */
  ghost predicate NewLockOk(s: Server, max: nat) {
    && (forall t :: 0 <= t < |s.threads| && HoldsNew(s.threads[t]) ==> s.newLock == Some(t))
    && |s.store.registry| <= max
    && (forall t :: 0 <= t < |s.threads| && Chosen(s.threads[t]).Some? ==>
          |s.store.registry| < max && Lookup(s.store.registry, Chosen(s.threads[t]).value).None?)
  }

  /** A history entry or a close response that reports the final values of an archived session. */
  predicate EntryOk(s: Server, e: Entry) {
    e.number in s.sessions && e == EntryOf(s.sessions[e.number]) && !s.sessions[e.number].live
  }

  predicate ReplyOk(s: Server, r: Reply) {
    InHistory(s, r.number) && r == ReplyOf(s.sessions[r.number]) && !s.sessions[r.number].live
  }

  ghost predicate HistoryOk(s: Server) {
    && (forall k :: 0 <= k < |s.store.history| ==> EntryOk(s, s.store.history[k]))
    && (forall k :: 0 <= k < |s.replies| ==> ReplyOk(s, s.replies[k]))
  }

  ghost predicate ThreadsOk(s: Server) {
    forall t :: 0 <= t < |s.threads| ==> ThreadOk(s, s.threads[t])
  }

  ghost predicate Good(s: Server, max: nat) {
    Sane(s) && Partitioned(s) && NewLockOk(s, max) && HistoryOk(s) && ThreadsOk(s)
  }

  lemma InitialIsGood(max: nat)
    requires max >= 1
    ensures Good(Initial(), max)
  {
  }

  // ------------------------------------------------------------ what a step leaves alone

  /** Archived sessions do not change, sessions are never forgotten, the history only grows. */
  ghost predicate Extends(s: Server, s': Server) {
    && (forall n :: n in s.sessions ==> n in s'.sessions)
    && (forall n :: n in s.sessions && !s.sessions[n].live ==> s'.sessions[n] == s.sessions[n])
    && s.store.history <= s'.store.history
    && s.replies <= s'.replies
  }

  lemma AdvanceExtends(s: Server, t: nat, c: Choice, max: nat)
    requires t < |s.threads| && max >= 1 && Sane(s)
    ensures Extends(s, Advance(s, t, c, max))
  {
    hide Consistent, EntryOf, Lookup, Without, With, Numbers;
  }

  lemma AdvanceMovesOneThread(s: Server, t: nat, c: Choice, max: nat)
    requires t < |s.threads| && max >= 1
    ensures var s' := Advance(s, t, c, max);
            |s'.threads| == |s.threads| && s'.threads == s.threads[t := s'.threads[t]]
  {
    hide Lookup, Without, With, Numbers, EntryOf, Played;
  }

  // --------------------------------------------------------------- keeping the partition

  ghost predicate Balanced(s: Server, t: nat, s': Server)
    requires t < |s.threads| && t < |s'.threads|
  {
    multiset(Numbers(s'.store.registry)) + multiset(QueueOf(s'.threads[t])) + multiset(HistoryNumbers(s'.store.history))
    == multiset(Numbers(s.store.registry)) + multiset(QueueOf(s.threads[t])) + multiset(HistoryNumbers(s.store.history))
       + (if s.threads[t].Insert? then multiset{s.store.nextNumber} else multiset{})
  }

  lemma CreateBalances(s: Server, t: nat, c: Choice, max: nat)
    requires t < |s.threads| && max >= 1
    requires s.threads[t].Insert? ==> Lookup(s.store.registry, s.threads[t].id).None?
    ensures Balanced(s, t, CreateSection(s, t, c, max))
  {
    var registry := s.store.registry;
    if s.threads[t].HoldNew? && |registry| >= max {
      NumbersCons(registry);
    }
    if s.threads[t].Insert? {
      WithFresh(registry, s.threads[t].id, s.store.nextNumber);
      NumbersAppend(registry, Slot(s.threads[t].id, s.store.nextNumber));
    }
    hide Numbers, HistoryNumbers, Lookup, With, NewSession;
  }

  lemma StepBalances(s: Server, t: nat, c: Choice)
    requires t < |s.threads| && !s.threads[t].Insert? && !s.threads[t].Archiving?
    ensures Balanced(s, t, StepSection(s, t, c))
  {
    var pc := s.threads[t];
    if pc.AfterPlay? && Lookup(s.store.registry, pc.id) == Some(pc.number) {
      WithoutNumbers(s.store.registry, pc.id);
    }
    hide Numbers, HistoryNumbers, Lookup, Without, Played;
  }

  lemma CloseBalances(s: Server, t: nat)
    requires t < |s.threads| && !s.threads[t].Insert? && !s.threads[t].Archiving?
    ensures Balanced(s, t, CloseSection(s, t))
  {
    var pc := s.threads[t];
    if pc.FindClose? && Lookup(s.store.registry, pc.id).Some? {
      WithoutNumbers(s.store.registry, pc.id);
    }
    assert Numbers([]) == [];
    hide Numbers, HistoryNumbers, Lookup, Without;
  }

  lemma ArchiveBalances(s: Server, t: nat)
    requires t < |s.threads| && Sane(s) && ThreadOk(s, s.threads[t]) && s.threads[t].Archiving?
    ensures Balanced(s, t, ArchiveSection(s, t))
  {
    var queue, entry := s.threads[t].queue, s.threads[t].entry;
    if entry.Some? {
      HistoryAppend(s.store.history, entry.value);
      TakeHead(queue);
      NumberOfEntry(s, queue[0]);
    }
    hide Numbers, HistoryNumbers, Sane, EntryOf, Consistent;
  }

  lemma TakeHead(queue: seq<nat>)
    requires queue != []
    ensures multiset(queue) == multiset{queue[0]} + multiset(queue[1..])
  {
    assert queue == [queue[0]] + queue[1..];
  }

  /** Game numbers move between places; only registering a session adds one. */
  lemma AdvanceBalances(s: Server, t: nat, c: Choice, max: nat)
    requires t < |s.threads| && max >= 1 && Sane(s) && ThreadsOk(s) && NewLockOk(s, max)
    ensures Balanced(s, t, Advance(s, t, c, max))
  {
    hide CreateSection, StepSection, CloseSection, ArchiveSection, Balanced, Sane, Lookup;
    var pc := s.threads[t];
    assert pc.Insert? ==> Chosen(pc).Some?;
    assert ThreadOk(s, pc);
    if pc.WaitNew? || pc.HoldNew? || pc.CreateEnv? || pc.Insert? {
      CreateBalances(s, t, c, max);
    } else if pc.FindStep? || pc.Play? || pc.AfterPlay? {
      StepBalances(s, t, c);
    } else if pc.Archiving? {
      ArchiveBalances(s, t);
    } else {
      CloseBalances(s, t);
    }
  }

  lemma NumberOfEntry(s: Server, n: nat)
    requires Sane(s) && n in s.sessions
    ensures EntryOf(s.sessions[n]).number == n
  {
  }

  lemma AdvanceKeepsPartition(s: Server, t: nat, c: Choice, max: nat)
    requires t < |s.threads| && max >= 1 && Good(s, max)
    ensures Partitioned(Advance(s, t, c, max))
  {
    hide Numbers, HistoryNumbers, Queues, QueueOf, Sane, ThreadsOk, NewLockOk, HistoryOk, Advance;
    var s' := Advance(s, t, c, max);
    AdvanceBalances(s, t, c, max);
    AdvanceMovesOneThread(s, t, c, max);
    AdvanceNumbers(s, t, c, max);
    QueuesUpdate(s.threads, t, s'.threads[t]);
    Rebalance(multiset(Numbers(s.store.registry)), Queues(s.threads), multiset(HistoryNumbers(s.store.history)),
      multiset(Numbers(s'.store.registry)), Queues(s'.threads), multiset(HistoryNumbers(s'.store.history)),
      multiset(QueueOf(s.threads[t])), multiset(QueueOf(s'.threads[t])),
      if s.threads[t].Insert? then multiset{s.store.nextNumber} else multiset{});
  }

  lemma AdvanceNumbers(s: Server, t: nat, c: Choice, max: nat)
    requires t < |s.threads| && max >= 1
    ensures Advance(s, t, c, max).store.nextNumber == s.store.nextNumber + if s.threads[t].Insert? then 1 else 0
  {
    hide Lookup, Without, With, Numbers, EntryOf, Played;
  }

  lemma Rebalance(r: multiset<nat>, q: multiset<nat>, h: multiset<nat>, r': multiset<nat>, q': multiset<nat>, h': multiset<nat>,
                  mine: multiset<nat>, mine': multiset<nat>, fresh_: multiset<nat>)
    requires r' + mine' + h' == r + mine + h + fresh_
    requires q' + mine == q + mine'
    ensures r' + q' + h' == r + q + h + fresh_
  {
    forall n ensures (r' + q' + h')[n] == (r + q + h + fresh_)[n] {
      assert (r' + mine' + h')[n] == (r + mine + h + fresh_)[n];
      assert (q' + mine)[n] == (q + mine')[n];
    }
  }

  // ---------------------------------------------------------- keeping the rest of the invariant

  lemma {:induction false} LookupFinds(registry: seq<Slot>, id: string)
    ensures Lookup(registry, id).Some? ==> exists k :: 0 <= k < |registry| && registry[k] == Slot(id, Lookup(registry, id).value)
    ensures Lookup(registry, id).None? ==> forall k :: 0 <= k < |registry| ==> registry[k].id != id
  {
    if registry != [] && registry[0].id != id {
      LookupFinds(registry[1..], id);
      if Lookup(registry, id).Some? {
        var k :| 0 <= k < |registry[1..]| && registry[1..][k] == Slot(id, Lookup(registry, id).value);
        assert registry[k + 1] == Slot(id, Lookup(registry, id).value);
      }
    }
  }

  lemma {:induction false} LookupMisses(registry: seq<Slot>, id: string)
    requires forall k :: 0 <= k < |registry| ==> registry[k].id != id
    ensures Lookup(registry, id).None?
  {
    if registry != [] {
      LookupMisses(registry[1..], id);
    }
  }

  lemma {:induction false} WithoutKeeps(registry: seq<Slot>, id: string)
    ensures |Without(registry, id)| <= |registry|
    ensures forall slot :: slot in Without(registry, id) ==> slot in registry
    ensures Increasing(registry) ==> Increasing(Without(registry, id))
  {
    if registry != [] && registry[0].id != id {
      var rest := Without(registry[1..], id);
      WithoutKeeps(registry[1..], id);
      if Increasing(registry) {
        forall j | 0 <= j < |rest| ensures registry[0].number < rest[j].number {
          assert rest[j] in registry[1..];
        }
      }
    }
  }

  /** A registry made of some of the slots of another finds no more identifiers. */
  lemma FewerSlotsFindLess(registry: seq<Slot>, fewer: seq<Slot>, id: string)
    requires Lookup(registry, id).None? && forall slot :: slot in fewer ==> slot in registry
    ensures Lookup(fewer, id).None?
  {
    LookupFinds(registry, id);
    forall k | 0 <= k < |fewer| ensures fewer[k].id != id {
      assert fewer[k] in registry;
    }
    LookupMisses(fewer, id);
  }

  /** How a step changes the registry: it removes slots, or it registers the next game number. */
  ghost predicate RegistryStep(s: Server, t: nat, s': Server)
    requires t < |s.threads|
  {
    var before, after := s.store.registry, s'.store.registry;
    if s.threads[t].Insert? then
      after == With(before, s.threads[t].id, s.store.nextNumber)
    else
      |after| <= |before| && (forall slot :: slot in after ==> slot in before) && (Increasing(before) ==> Increasing(after))
  }

  lemma AdvanceRegistry(s: Server, t: nat, c: Choice, max: nat)
    requires t < |s.threads| && max >= 1
    ensures RegistryStep(s, t, Advance(s, t, c, max))
  {
    match s.threads[t]
    case AfterPlay(id, number, done) => WithoutKeeps(s.store.registry, id);
    case FindClose(id) => WithoutKeeps(s.store.registry, id);
    case _ =>
  }

  lemma AdvanceKeepsSane(s: Server, t: nat, c: Choice, max: nat)
    requires t < |s.threads| && max >= 1 && Good(s, max)
    ensures Sane(Advance(s, t, c, max))
  {
    assert s.store.nextNumber >= 1;
    hide Advance, Sane, Partitioned, HistoryOk, ThreadsOk, NewLockOk, RegistryStep;
    var s' := Advance(s, t, c, max);
    AdvanceRegistry(s, t, c, max);
    AdvanceNumbers(s, t, c, max);
    AdvanceSessions(s, t, c, max);
    RegistryStaysSane(s, t, s', max);
    StaysSane(s, t, s');
  }

  lemma StaysSane(s: Server, t: nat, s': Server)
    requires t < |s.threads| && Sane(s) && s.store.nextNumber >= 1
    requires s'.store.nextNumber == s.store.nextNumber + if s.threads[t].Insert? then 1 else 0
    requires s'.sessions.Keys == s.sessions.Keys + (if s.threads[t].Insert? then {s.store.nextNumber} else {})
    requires forall n :: n in s'.sessions ==> s'.sessions[n].number == n && Consistent(s'.sessions[n])
    requires Increasing(s'.store.registry)
    requires forall k :: 0 <= k < |s'.store.registry| ==> s'.store.registry[k].number in s'.sessions
    ensures Sane(s')
  {
    hide Consistent, Increasing;
    forall n ensures n in s'.sessions <==> 1 <= n < s'.store.nextNumber {
      assert n in s'.sessions.Keys <==> n in s.sessions.Keys || (s.threads[t].Insert? && n == s.store.nextNumber);
    }
  }

  lemma RegistryStaysSane(s: Server, t: nat, s': Server, max: nat)
    requires t < |s.threads| && Sane(s) && NewLockOk(s, max) && RegistryStep(s, t, s')
    requires s'.sessions.Keys == s.sessions.Keys + (if s.threads[t].Insert? then {s.store.nextNumber} else {})
    ensures Increasing(s'.store.registry)
    ensures forall k :: 0 <= k < |s'.store.registry| ==> s'.store.registry[k].number in s'.sessions
  {
    hide Consistent, Lookup, With;
    var before, after := s.store.registry, s'.store.registry;
    if s.threads[t].Insert? {
      assert Lookup(before, Chosen(s.threads[t]).value).None?;
      WithFresh(before, s.threads[t].id, s.store.nextNumber);
    } else {
      forall k | 0 <= k < |after| ensures after[k].number in s'.sessions {
        assert after[k] in before;
      }
    }
  }

  /** How a step changes the sessions: one of them, or none. */
  predicate SessionStep(s: Server, t: nat, c: Choice, s': Server)
    requires t < |s.threads|
  {
    match s.threads[t]
    case Insert(_, maximum) =>
      s'.sessions == s.sessions[s.store.nextNumber := NewSession(s.store.nextNumber, maximum)]
    case Play(_, number, action) =>
      if number in s.sessions && !s.sessions[number].done && s.sessions[number].live then
        s'.sessions == s.sessions[number := Played(s.sessions[number], action, c.score, c.done)]
      else s'.sessions == s.sessions
    case Archiving(queue, entry, next) =>
      if entry.None? && queue != [] && queue[0] in s.sessions then
        s'.sessions == s.sessions[queue[0] := s.sessions[queue[0]].(live := false)]
      else s'.sessions == s.sessions
    case _ => s'.sessions == s.sessions
  }

  lemma AdvanceIsSessionStep(s: Server, t: nat, c: Choice, max: nat)
    requires t < |s.threads| && max >= 1
    ensures SessionStep(s, t, c, Advance(s, t, c, max))
  {
    hide Lookup, Without, With, Numbers, EntryOf, MakeRoom, NewSession, Played;
  }

  /** Sessions keep their numbers and stay consistent; only registering adds one. */
  lemma AdvanceSessions(s: Server, t: nat, c: Choice, max: nat)
    requires t < |s.threads| && max >= 1 && Sane(s)
    ensures var s' := Advance(s, t, c, max);
            && s'.sessions.Keys == s.sessions.Keys + (if s.threads[t].Insert? then {s.store.nextNumber} else {})
            && forall n :: n in s'.sessions ==> s'.sessions[n].number == n && Consistent(s'.sessions[n])
  {
    AdvanceIsSessionStep(s, t, c, max);
    hide Advance, Increasing;
    SessionStepKeeps(s, t, c, Advance(s, t, c, max));
  }

  lemma SessionStepKeeps(s: Server, t: nat, c: Choice, s': Server)
    requires t < |s.threads| && SessionStep(s, t, c, s')
    requires forall n :: n in s.sessions ==> s.sessions[n].number == n && Consistent(s.sessions[n])
    ensures s'.sessions.Keys == s.sessions.Keys + (if s.threads[t].Insert? then {s.store.nextNumber} else {})
    ensures forall n :: n in s'.sessions ==> s'.sessions[n].number == n && Consistent(s'.sessions[n])
  {
    hide Consistent;
    match s.threads[t]
    case Play(_, number, action) =>
      if number in s.sessions && !s.sessions[number].done {
        PlayKeepsConsistent(s.sessions[number], action, c.score, c.done);
      }
    case Insert(_, maximum) => NewIsConsistent(s.store.nextNumber, maximum);
    case Archiving(queue, entry, next) =>
      if queue != [] && queue[0] in s.sessions {
        FrozenIsConsistent(s.sessions[queue[0]]);
      }
    case _ =>
  }

  lemma NewIsConsistent(number: nat, maximum: int)
    ensures Consistent(NewSession(number, maximum))
  {
  }

  lemma FrozenIsConsistent(s: Session)
    requires Consistent(s)
    ensures Consistent(s.(live := false)) && EntryOf(s.(live := false)) == EntryOf(s)
  {
  }

  lemma ChosenHolds(pc: Pc)
    ensures Chosen(pc).Some? ==> HoldsNew(pc)
  {
  }

  /** How a step changes the creating of a game. */
  predicate CreatingStep(s: Server, t: nat, c: Choice, s': Server)
    requires t < |s.threads| && t < |s'.threads|
  {
    var before, after := s.threads[t], s'.threads[t];
    && (HoldsNew(after) ==> s'.newLock == Some(t) || (HoldsNew(before) && s'.newLock == s.newLock))
    && (s'.newLock != s.newLock ==> s.newLock.None? || (HoldsNew(before) && s'.newLock.None? && !HoldsNew(after)))
    && (Chosen(after).Some? && !before.HoldNew? ==> Chosen(after) == Chosen(before) && !before.Insert?)
    && (Chosen(after).Some? && before.HoldNew? ==> Chosen(after) == Some(c.id) && Lookup(s.store.registry, c.id).None?)
  }

  lemma CreateIsCreatingStep(s: Server, t: nat, c: Choice, max: nat)
    requires t < |s.threads| && max >= 1
    ensures CreatingStep(s, t, c, CreateSection(s, t, c, max))
  {
    hide Lookup, With, MakeRoom, NewSession;
  }

  lemma StepIsCreatingStep(s: Server, t: nat, c: Choice)
    requires t < |s.threads|
    requires s.threads[t].FindStep? || s.threads[t].Play? || s.threads[t].AfterPlay?
    ensures CreatingStep(s, t, c, StepSection(s, t, c))
  {
    hide Lookup, Without, Played;
  }

  lemma CloseIsCreatingStep(s: Server, t: nat, c: Choice)
    requires t < |s.threads|
    requires s.threads[t].FindClose? || s.threads[t].FindAll? || s.threads[t].Answer? || s.threads[t].Ended?
    ensures CreatingStep(s, t, c, CloseSection(s, t))
  {
    hide Lookup, Without, Numbers, ReplyOf;
  }

  lemma ArchiveIsCreatingStep(s: Server, t: nat, c: Choice)
    requires t < |s.threads| && s.threads[t].Archiving?
    ensures CreatingStep(s, t, c, ArchiveSection(s, t))
  {
    hide Lookup, EntryOf;
  }

  lemma AdvanceCreating(s: Server, t: nat, c: Choice, max: nat)
    requires t < |s.threads| && max >= 1
    ensures CreatingStep(s, t, c, Advance(s, t, c, max))
  {
    hide CreateSection, StepSection, CloseSection, ArchiveSection, CreatingStep;
    var pc := s.threads[t];
    if pc.WaitNew? || pc.HoldNew? || pc.CreateEnv? || pc.Insert? {
      CreateIsCreatingStep(s, t, c, max);
    } else if pc.FindStep? || pc.Play? || pc.AfterPlay? {
      StepIsCreatingStep(s, t, c);
    } else if pc.Archiving? {
      ArchiveIsCreatingStep(s, t, c);
    } else {
      CloseIsCreatingStep(s, t, c);
    }
  }

  /** The capacity decision leaves room for one more session. */
  lemma CapacityLeavesRoom(s: Server, t: nat, c: Choice, max: nat)
    requires t < |s.threads| && max >= 1 && s.threads[t].HoldNew?
    requires Lookup(s.store.registry, c.id).None? && |s.store.registry| <= max
    ensures |Advance(s, t, c, max).store.registry| < max
  {
    hide Lookup;
  }

  lemma AdvanceKeepsNewLock(s: Server, t: nat, c: Choice, max: nat)
    requires t < |s.threads| && max >= 1 && NewLockOk(s, max)
    ensures NewLockOk(Advance(s, t, c, max), max)
  {
    var s' := Advance(s, t, c, max);
    AdvanceMovesOneThread(s, t, c, max);
    AdvanceCreating(s, t, c, max);
    AdvanceRegistry(s, t, c, max);
    if s.threads[t].HoldNew? && Lookup(s.store.registry, c.id).None? {
      CapacityLeavesRoom(s, t, c, max);
    }
    hide Advance, Lookup, With, Increasing;
    var before, after := s.store.registry, s'.store.registry;
    ChosenHolds(s.threads[t]);
    if s.threads[t].Insert? {
      assert Lookup(before, Chosen(s.threads[t]).value).None?;
      WithFresh(before, s.threads[t].id, s.store.nextNumber);
    }
    forall u | 0 <= u < |s'.threads| && Chosen(s'.threads[u]).Some?
      ensures |after| < max && Lookup(after, Chosen(s'.threads[u]).value).None?
    {
      ChosenHolds(s'.threads[u]);
      assert u != t ==> s'.threads[u] == s.threads[u] && s.newLock == Some(u);
      FewerSlotsFindLess(before, after, Chosen(s'.threads[u]).value);
    }
  }

  lemma ThreadOkSurvives(s: Server, s': Server, pc: Pc)
    requires ThreadOk(s, pc) && Extends(s, s')
    ensures ThreadOk(s', pc)
  {
    hide EntryOf;
  }

  lemma AdvanceKeepsThreads(s: Server, t: nat, c: Choice, max: nat)
    requires t < |s.threads| && max >= 1 && Good(s, max)
    ensures ThreadsOk(Advance(s, t, c, max))
  {
    var s' := Advance(s, t, c, max);
    AdvanceMovesOneThread(s, t, c, max);
    AdvanceExtends(s, t, c, max);
    forall u | 0 <= u < |s'.threads| ensures ThreadOk(s', s'.threads[u]) {
      if u == t {
        AdvancedThreadIsOk(s, t, c, max);
      } else {
        ThreadOkSurvives(s, s', s.threads[u]);
      }
    }
  }

  lemma AdvancedThreadIsOk(s: Server, t: nat, c: Choice, max: nat)
    requires t < |s.threads| && max >= 1 && Sane(s) && ThreadOk(s, s.threads[t])
    ensures var s' := Advance(s, t, c, max); ThreadOk(s', s'.threads[t])
  {
    var s' := Advance(s, t, c, max);
    match s.threads[t]
    case HoldNew =>
    case AfterPlay(id, number, done) => LookupFinds(s.store.registry, id);
    case FindClose(id) => LookupFinds(s.store.registry, id);
    case FindAll =>
    case Archiving(queue, entry, next) =>
      if entry.Some? {
        assert entry.value in s'.store.history by { assert s'.store.history[|s.store.history|] == entry.value; }
      }
    case _ =>
  }

  /** How a step changes the history and the replies: by at most one entry each. */
  predicate RecordStep(s: Server, t: nat, s': Server)
    requires t < |s.threads|
  {
    var pc := s.threads[t];
    && s'.store.history ==
         (if pc.Archiving? && pc.entry.Some? then s.store.history + [pc.entry.value] else s.store.history)
    && s'.replies ==
         (if pc.Answer? && pc.number in s.sessions then s.replies + [ReplyOf(s.sessions[pc.number])] else s.replies)
  }

  lemma AdvanceIsRecordStep(s: Server, t: nat, c: Choice, max: nat)
    requires t < |s.threads| && max >= 1
    ensures RecordStep(s, t, Advance(s, t, c, max))
  {
    hide Lookup, Without, With, Numbers, EntryOf, MakeRoom, NewSession, Played, ReplyOf;
  }

  lemma RecordsSurvive(s: Server, s': Server)
    requires HistoryOk(s) && Extends(s, s')
    ensures forall k :: 0 <= k < |s.store.history| ==> EntryOk(s', s.store.history[k])
    ensures forall k :: 0 <= k < |s.replies| ==> ReplyOk(s', s.replies[k])
  {
    hide EntryOf, ReplyOf;
  }

  lemma NewRecordIsOk(s: Server, t: nat, c: Choice, max: nat)
    requires t < |s.threads| && max >= 1 && Sane(s) && ThreadOk(s, s.threads[t])
    requires Extends(s, Advance(s, t, c, max))
    ensures var pc, s' := s.threads[t], Advance(s, t, c, max);
            && (pc.Archiving? && pc.entry.Some? ==> EntryOk(s', pc.entry.value))
            && (pc.Answer? ==> pc.number in s.sessions && ReplyOk(s', ReplyOf(s.sessions[pc.number])))
  {
    var pc := s.threads[t];
    hide Advance, Consistent, Increasing, EntryOf;
    if pc.Archiving? && pc.entry.Some? {
      NumberOfEntry(s, pc.queue[0]);
    }
  }

  lemma AdvanceKeepsHistory(s: Server, t: nat, c: Choice, max: nat)
    requires t < |s.threads| && max >= 1 && Good(s, max)
    ensures HistoryOk(Advance(s, t, c, max))
  {
    var s', pc := Advance(s, t, c, max), s.threads[t];
    assert ThreadOk(s, pc);
    hide Advance, Extends, Sane, Partitioned, NewLockOk, ThreadOk, ThreadsOk, HistoryOk, RecordStep, EntryOk, ReplyOk;
    AdvanceExtends(s, t, c, max);
    AdvanceIsRecordStep(s, t, c, max);
    RecordsSurvive(s, s');
    NewRecordIsOk(s, t, c, max);
    RecordsAreOk(s, t, s');
  }

  lemma RecordsAreOk(s: Server, t: nat, s': Server)
    requires t < |s.threads| && RecordStep(s, t, s')
    requires forall k :: 0 <= k < |s.store.history| ==> EntryOk(s', s.store.history[k])
    requires forall k :: 0 <= k < |s.replies| ==> ReplyOk(s', s.replies[k])
    requires s.threads[t].Archiving? && s.threads[t].entry.Some? ==> EntryOk(s', s.threads[t].entry.value)
    requires s.threads[t].Answer? ==>
      s.threads[t].number in s.sessions && ReplyOk(s', ReplyOf(s.sessions[s.threads[t].number]))
    ensures HistoryOk(s')
  {
    hide EntryOk, ReplyOk, ReplyOf;
  }

  lemma BeginKeeps(s: Server, request: Request, max: nat)
    requires max >= 1 && Good(s, max)
    ensures Good(Next(s, Begin(request), max), max)
  {
    BeginKeepsThreads(s, request, max);
    BeginKeepsNewLock(s, request, max);
    QueuesAppend(s.threads, Entrance(request));
    var s' := Next(s, Begin(request), max);
    assert Extends(s, s');
    RecordsSurvive(s, s');
    assert Sane(s');
    hide Sane, Extends, EntryOk, ReplyOk, ThreadsOk, NewLockOk, Queues, Numbers, HistoryNumbers, Entrance;
  }

  lemma BeginKeepsNewLock(s: Server, request: Request, max: nat)
    requires max >= 1 && NewLockOk(s, max)
    ensures NewLockOk(Next(s, Begin(request), max), max)
  {
    assert !HoldsNew(Entrance(request)) && Chosen(Entrance(request)).None?;
    hide Lookup, Entrance, HoldsNew, Chosen;
  }

  lemma BeginKeepsThreads(s: Server, request: Request, max: nat)
    requires max >= 1 && ThreadsOk(s)
    ensures ThreadsOk(Next(s, Begin(request), max))
  {
    var s' := Next(s, Begin(request), max);
    assert Extends(s, s');
    hide Extends;
    forall u | 0 <= u < |s'.threads| ensures ThreadOk(s', s'.threads[u]) {
      if u < |s.threads| {
        ThreadOkSurvives(s, s', s.threads[u]);
      }
    }
  }

  lemma NextKeeps(s: Server, e: Event, max: nat)
    requires max >= 1 && Good(s, max)
    ensures Good(Next(s, e, max), max)
  {
    hide Advance, Sane, Partitioned, NewLockOk, HistoryOk, ThreadsOk;
    match e
    case Begin(request) => BeginKeeps(s, request, max);
    case Go(t, c) =>
      if t < |s.threads| {
        AdvanceKeepsSane(s, t, c, max);
        AdvanceKeepsPartition(s, t, c, max);
        AdvanceKeepsNewLock(s, t, c, max);
        AdvanceKeepsHistory(s, t, c, max);
        AdvanceKeepsThreads(s, t, c, max);
      }
  }

  /** Safety over every interleaving of any number of requests. */
  lemma {:induction false} RunKeeps(s: Server, events: seq<Event>, max: nat)
    requires max >= 1 && Good(s, max)
    ensures Good(Run(s, events, max), max)
    decreases |events|
  {
    if events != [] {
      NextKeeps(s, events[0], max);
      RunKeeps(Next(s, events[0], max), events[1..], max);
    }
  }

  // ------------------------------------------------------------------------ the main results

  lemma {:induction false} IssuedOnce(next: nat, n: nat)
    ensures Issued(next)[n] == if 1 <= n < next then 1 else 0
  {
    if next > 1 {
      IssuedOnce(next - 1, n);
    }
  }

  lemma {:induction false} IssuedCount(next: nat)
    requires next >= 1
    ensures |Issued(next)| == next - 1
  {
    if next > 1 {
      IssuedCount(next - 1);
    }
  }

  /** Whatever the interleaving: the registry never exceeds its capacity. */
  lemma RegistryIsBounded(events: seq<Event>, max: nat)
    requires max >= 1
    ensures |Run(Initial(), events, max).store.registry| <= max
  {
    InitialIsGood(max);
    RunKeeps(Initial(), events, max);
  }

  /** Whatever the interleaving: every created game number is in exactly one place (registered,
      being archived by one thread, or in the history), nothing else is anywhere, and the three
      places together hold all the numbers handed out. */
  lemma EveryGameIsInOnePlace(events: seq<Event>, max: nat, n: nat)
    requires max >= 1
    ensures var s := Run(Initial(), events, max);
            && multiset(Numbers(s.store.registry))[n] + Queues(s.threads)[n] + multiset(HistoryNumbers(s.store.history))[n]
               == (if 1 <= n < s.store.nextNumber then 1 else 0)
            && s.store.nextNumber - 1 == |s.store.registry| + |Queues(s.threads)| + |s.store.history|
  {
    InitialIsGood(max);
    RunKeeps(Initial(), events, max);
    var s := Run(Initial(), events, max);
    hide Run;
    IssuedOnce(s.store.nextNumber, n);
    IssuedCount(s.store.nextNumber);
    assert Places(s)[n] == Issued(s.store.nextNumber)[n];
    assert |Places(s)| == |Numbers(s.store.registry)| + |Queues(s.threads)| + |HistoryNumbers(s.store.history)|;
  }

  predicate AllEnded(threads: seq<Pc>) {
    forall t :: 0 <= t < |threads| ==> threads[t].Ended?
  }

  lemma {:induction false} EndedThreadsHoldNothing(threads: seq<Pc>)
    requires AllEnded(threads)
    ensures Queues(threads) == multiset{}
  {
    if threads != [] {
      EndedThreadsHoldNothing(threads[1..]);
    }
  }

  /** When every request has been served, each game is registered or archived, exactly once. */
  lemma QuietServerLosesNothing(events: seq<Event>, max: nat, n: nat)
    requires max >= 1
    requires AllEnded(Run(Initial(), events, max).threads)
    ensures var s := Run(Initial(), events, max);
            multiset(Numbers(s.store.registry))[n] + multiset(HistoryNumbers(s.store.history))[n]
            == if 1 <= n < s.store.nextNumber then 1 else 0
  {
    var s := Run(Initial(), events, max);
    EndedThreadsHoldNothing(s.threads);
    EveryGameIsInOnePlace(events, max, n);
  }

  /** A full registry gives up the smallest active game number, which goes to the new request's
      archiving queue; every other session stays. */
  lemma EvictionTakesOldest(events: seq<Event>, max: nat, t: nat, c: Choice)
    requires max >= 1
    requires var s := Run(Initial(), events, max);
             && t < |s.threads| && s.threads[t].HoldNew? && Lookup(s.store.registry, c.id).None?
             && |s.store.registry| >= max
    ensures var s := Run(Initial(), events, max);
            var s' := Next(s, Go(t, c), max);
            && s'.threads[t] == Archiving([s.store.registry[0].number], None, ThenCreate(c.id))
            && s'.store.registry == s.store.registry[1..]
            && forall k :: 1 <= k < |s.store.registry| ==> s.store.registry[0].number < s.store.registry[k].number
  {
    InitialIsGood(max);
    RunKeeps(Initial(), events, max);
    hide Run;
  }

  /** Once archived, a session never changes, whatever happens afterwards. */
  lemma {:induction false} ArchivedIsFinal(s: Server, events: seq<Event>, max: nat)
    requires max >= 1 && Good(s, max)
    ensures Extends(s, Run(s, events, max))
    decreases |events|
  {
    if events != [] {
      var s1 := Next(s, events[0], max);
      NextKeeps(s, events[0], max);
      if events[0].Go? && events[0].thread < |s.threads| {
        AdvanceExtends(s, events[0].thread, events[0].choice, max);
      }
      ArchivedIsFinal(s1, events[1..], max);
      ExtendsTransitive(s, s1, Run(s1, events[1..], max));
    }
  }

  lemma ExtendsTransitive(a: Server, b: Server, c: Server)
    requires Extends(a, b) && Extends(b, c)
    ensures Extends(a, c)
  {
  }

  /** Every close response reports the values of the one history entry of its game. */
  lemma RepliesMatchHistory(events: seq<Event>, max: nat, k: nat)
    requires max >= 1 && k < |Run(Initial(), events, max).replies|
    ensures var s := Run(Initial(), events, max);
            var r := s.replies[k];
            && (exists i :: 0 <= i < |s.store.history| && ReplyOfEntry(s.store.history[i]) == r)
            && forall i :: 0 <= i < |s.store.history| && s.store.history[i].number == r.number
                 ==> ReplyOfEntry(s.store.history[i]) == r
  {
    InitialIsGood(max);
    RunKeeps(Initial(), events, max);
    var s := Run(Initial(), events, max);
    hide Run, Sane, Partitioned, NewLockOk, ThreadsOk;
    var r := s.replies[k];
    assert ReplyOk(s, r);
    var i :| 0 <= i < |s.store.history| && s.store.history[i] == EntryOf(s.sessions[r.number]);
    assert ReplyOfEntry(s.store.history[i]) == r;
    forall j | 0 <= j < |s.store.history| && s.store.history[j].number == r.number
      ensures ReplyOfEntry(s.store.history[j]) == r
    {
      assert EntryOk(s, s.store.history[j]);
    }
  }

  predicate AccurateEntry(e: Entry) {
    && e.score == e.finalScore && e.moves == |e.steps| && e.peak == PeakOf(e.steps)
    && e.score == (if e.steps == [] then 0 else e.steps[|e.steps| - 1].score)
  }

  predicate Accurate(history: seq<Entry>) {
    forall k :: 0 <= k < |history| ==> AccurateEntry(history[k])
  }

  /** In every reachable state, every session and every history entry has counters that agree with
      its recorded moves: the score is the last move's, the peak the largest of zero and all of
      them, and only the last move can have ended the game. */
  lemma ReachableSessionsAreConsistent(events: seq<Event>, max: nat)
    requires max >= 1
    ensures var s := Run(Initial(), events, max);
            (forall n :: n in s.sessions ==> Consistent(s.sessions[n])) && Accurate(s.store.history)
  {
    InitialIsGood(max);
    RunKeeps(Initial(), events, max);
    var s := Run(Initial(), events, max);
    hide Run, PeakOf;
    forall k | 0 <= k < |s.store.history| ensures AccurateEntry(s.store.history[k]) {
      assert EntryOk(s, s.store.history[k]);
    }
  }
}
