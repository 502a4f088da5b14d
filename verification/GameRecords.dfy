/** What the game server (runtime_assets/game_server_app.py) records is what the environments answered: the
    moves of every session and of every history entry are those that were accepted, in their order. */
module GameRecords {
  import opened Wrappers
  import opened GameServer
  import opened GameProgress

  /** A move as the environment answered it. */
  datatype Answered = Answered(action: string, score: int, done: bool)

  /** The event is a step request at its move, in a session that is neither over nor archived. */
  predicate Accepts(s: Server, e: Event, n: nat) {
    && e.Go? && e.thread < |s.threads| && s.threads[e.thread].Play? && s.threads[e.thread].number == n
    && n in s.sessions && !s.sessions[n].done && s.sessions[n].live
  }

  function AnswerAt(s: Server, e: Event): Answered
    requires e.Go? && e.thread < |s.threads| && s.threads[e.thread].Play?
  {
    Answered(s.threads[e.thread].action, e.choice.score, e.choice.done)
  }

  /** The answers to the moves of game `n` that are accepted while the events happen. */
  function Answers(s: Server, events: seq<Event>, max: nat, n: nat): seq<Answered>
    requires max >= 1
    decreases |events|
  {
    if events == [] then []
    else
      (if Accepts(s, events[0], n) then [AnswerAt(s, events[0])] else [])
      + Answers(Next(s, events[0], max), events[1..], max, n)
  }

  /** What the recorded moves say. */
  function Told(steps: seq<Move>): seq<Answered> {
    seq(|steps|, k requires 0 <= k < |steps| => Answered(steps[k].action, steps[k].score, steps[k].done))
  }

  lemma ToldAppend(steps: seq<Move>, m: Move)
    ensures Told(steps + [m]) == Told(steps) + [Answered(m.action, m.score, m.done)]
  {
  }

  /** An accepted move: the session gets the score and the end mark that the environment answered, its peak
      rises to that score if it was lower, and exactly this is recorded; nothing else changes. */
  lemma MoveIsRecorded(s: Server, t: nat, c: Choice, max: nat, n: nat)
    requires max >= 1 && Accepts(s, Go(t, c), n)
    ensures
      var s', id, action := Next(s, Go(t, c), max), s.threads[t].id, s.threads[t].action;
      && n in s'.sessions && s'.threads == s.threads[t := AfterPlay(id, n, c.done)]
      && var before, after := s.sessions[n], s'.sessions[n];
      && after.score == c.score && after.done == c.done && after.moves == before.moves + 1
      && after.peak == (if c.score > before.peak then c.score else before.peak)
      && after.steps == before.steps + [Move(before.moves + 1, action, c.score, after.peak, c.done)]
      && after.number == before.number && after.maximum == before.maximum && after.live
      && s'.sessions.Keys == s.sessions.Keys
      && (forall other :: other in s.sessions && other != n ==> s'.sessions[other] == s.sessions[other])
      && s'.store == s.store && s'.replies == s.replies && s'.newLock == s.newLock
  {
  }

  /** A step request at the move of a session that is over or archived is refused and changes nothing else. */
  lemma MoveIsRefused(s: Server, t: nat, c: Choice, max: nat)
    requires max >= 1 && t < |s.threads| && s.threads[t].Play? && !Accepts(s, Go(t, c), s.threads[t].number)
    ensures Next(s, Go(t, c), max) == s.(threads := s.threads[t := Ended])
  {
  }

  /** A game begins without moves, with the maximum score that its environment answered when it started. */
  lemma GameBegins(s: Server, t: nat, c: Choice, max: nat)
    requires max >= 1 && t < |s.threads|
    ensures
      var s' := Next(s, Go(t, c), max);
      && (s.threads[t].CreateEnv? && !c.fails ==> s'.threads[t] == Insert(s.threads[t].id, c.maximum))
      && (s.threads[t].Insert? ==>
            var n := s.store.nextNumber;
            n in s'.sessions
            && s'.sessions[n] == Session(n, s.threads[t].maximum, 0, 0, 0, false, [], true))
  {
    hide With;
  }

  /** A created game is registered last, under the next number and the identifier of its request. */
  lemma NewGameIsRegistered(s: Server, t: nat, c: Choice, max: nat)
    requires max >= 1 && NewLockOk(s, max) && t < |s.threads| && s.threads[t].Insert?
    ensures
      var s' := Next(s, Go(t, c), max);
      && s'.store.registry == s.store.registry + [Slot(s.threads[t].id, s.store.nextNumber)]
      && s'.store.nextNumber == s.store.nextNumber + 1 && s'.newLock == None && s'.threads[t] == Ended
  {
    assert Lookup(s.store.registry, Chosen(s.threads[t]).value).None?;
    WithFresh(s.store.registry, s.threads[t].id, s.store.nextNumber);
    hide Lookup, With, NewSession;
  }

  /** How a step changes what a session has recorded. */
  lemma StepTold(s: Server, t: nat, c: Choice, s': Server, n: nat)
    requires t < |s.threads| && SessionStep(s, t, c, s') && n in s.sessions
    requires s.threads[t].Insert? ==> s.store.nextNumber !in s.sessions
    requires s.threads[t].Play? ==> PlayTold(s, t, c, n)
    ensures n in s'.sessions && s'.sessions[n].maximum == s.sessions[n].maximum
    ensures Told(s'.sessions[n].steps)
            == Told(s.sessions[n].steps) + if Accepts(s, Go(t, c), n) then [AnswerAt(s, Go(t, c))] else []
  {
    hide Told, Played, NewSession;
    assert Told(s.sessions[n].steps) + [] == Told(s.sessions[n].steps);
  }

  /** What one accepted move adds to the record. */
  predicate PlayTold(s: Server, t: nat, c: Choice, n: nat)
    requires t < |s.threads| && s.threads[t].Play? && n in s.sessions
  {
    var after := Played(s.sessions[n], s.threads[t].action, c.score, c.done);
    && after.maximum == s.sessions[n].maximum
    && Told(after.steps) == Told(s.sessions[n].steps) + [Answered(s.threads[t].action, c.score, c.done)]
  }

  lemma PlayIsTold(s: Server, t: nat, c: Choice, n: nat)
    requires t < |s.threads| && s.threads[t].Play? && n in s.sessions
    ensures PlayTold(s, t, c, n)
  {
    var before := s.sessions[n].steps;
    ToldAppend(before, Played(s.sessions[n], s.threads[t].action, c.score, c.done).steps[|before|]);
    hide Told;
  }

  lemma NextTold(s: Server, e: Event, max: nat, n: nat)
    requires max >= 1 && Sane(s) && n in s.sessions
    ensures
      var s' := Next(s, e, max);
      && n in s'.sessions && s'.sessions[n].maximum == s.sessions[n].maximum
      && Told(s'.sessions[n].steps)
         == Told(s.sessions[n].steps) + if Accepts(s, e, n) then [AnswerAt(s, e)] else []
  {
    assert s.store.nextNumber !in s.sessions;
    hide Advance, Told, Sane, SessionStep, PlayTold;
    assert Told(s.sessions[n].steps) + [] == Told(s.sessions[n].steps);
    if e.Go? && e.thread < |s.threads| {
      var t, c := e.thread, e.choice;
      AdvanceIsSessionStep(s, t, c, max);
      if s.threads[t].Play? {
        PlayIsTold(s, t, c, n);
      }
      StepTold(s, t, c, Advance(s, t, c, max), n);
    }
  }

  /** A game that is not there has no moves yet. */
  lemma NewIsSilent(s: Server, e: Event, max: nat, n: nat)
    requires max >= 1 && n !in s.sessions
    ensures !Accepts(s, e, n)
    ensures var s' := Next(s, e, max); n in s'.sessions ==> s'.sessions[n].steps == []
  {
    hide Advance;
    if e.Go? && e.thread < |s.threads| {
      AdvanceIsSessionStep(s, e.thread, e.choice, max);
    }
  }

  /** Over any events: what a session has recorded grows by exactly the answers to its accepted moves. */
  lemma {:induction false} RunTold(s: Server, events: seq<Event>, max: nat, n: nat)
    requires max >= 1 && Good(s, max)
    ensures
      var final := Run(s, events, max);
      && (n in s.sessions ==>
            n in final.sessions && final.sessions[n].maximum == s.sessions[n].maximum
            && Told(final.sessions[n].steps) == Told(s.sessions[n].steps) + Answers(s, events, max, n))
      && (n !in s.sessions && n in final.sessions ==>
            Told(final.sessions[n].steps) == Answers(s, events, max, n))
    decreases |events|
  {
    hide Next, Good, Told, AnswerAt;
    if events == [] {
      if n in s.sessions {
        assert Told(s.sessions[n].steps) + [] == Told(s.sessions[n].steps);
      }
    } else {
      var e, rest := events[0], events[1..];
      var s1 := Next(s, e, max);
      NextKeeps(s, e, max);
      RunTold(s1, rest, max, n);
      if n in s.sessions {
        GoodIsSane(s, max);
        NextTold(s, e, max, n);
        var now := if Accepts(s, e, n) then [AnswerAt(s, e)] else [];
        AppendAnswers(Told(s.sessions[n].steps), now, Answers(s1, rest, max, n));
      } else {
        NewIsSilent(s, e, max, n);
        NothingTold();
        NothingFirst(Answers(s1, rest, max, n));
      }
    }
  }

  lemma GoodIsSane(s: Server, max: nat)
    requires Good(s, max)
    ensures Sane(s)
  {
  }

  lemma NothingTold()
    ensures Told([]) == []
  {
  }

  lemma NothingFirst(a: seq<Answered>)
    ensures [] + a == a
  {
  }

  lemma AppendAnswers(a: seq<Answered>, b: seq<Answered>, c: seq<Answered>)
    ensures a + (b + c) == a + b + c
  {
  }

  /** The score that the answers leave: the last one, or nothing. */
  function LastScore(answers: seq<Answered>): int {
    if answers == [] then 0 else answers[|answers| - 1].score
  }

  /** Whatever the interleaving: the moves of every session are the accepted ones of its game, with the
      scores and end marks that the environment answered, and its score is the last of these. */
  lemma SessionsRecordTheAnswers(events: seq<Event>, max: nat, n: nat)
    requires max >= 1 && n in Run(Initial(), events, max).sessions
    ensures
      var session, answers := Run(Initial(), events, max).sessions[n], Answers(Initial(), events, max, n);
      && session.number == n && Told(session.steps) == answers && session.moves == |answers|
      && session.score == LastScore(answers)
      && session.done == (answers != [] && answers[|answers| - 1].done)
  {
    InitialIsGood(max);
    RunKeeps(Initial(), events, max);
    RunTold(Initial(), events, max, n);
    GoodIsSane(Run(Initial(), events, max), max);
    hide Run, Good, Answers, PeakOf, Increasing;
  }

  /** So are those of every history entry, whose final score is the last answer of its game. */
  lemma HistoryRecordsTheAnswers(events: seq<Event>, max: nat, k: nat)
    requires max >= 1 && k < |Run(Initial(), events, max).store.history|
    ensures
      var s := Run(Initial(), events, max);
      var entry := s.store.history[k];
      var answers := Answers(Initial(), events, max, entry.number);
      && entry.number in s.sessions && entry.maximum == s.sessions[entry.number].maximum
      && Told(entry.steps) == answers && entry.moves == |answers|
      && entry.score == entry.finalScore == LastScore(answers)
      && entry.passRate == (if entry.maximum > 0 then entry.score as real / entry.maximum as real else 0.0)
  {
    InitialIsGood(max);
    RunKeeps(Initial(), events, max);
    var s := Run(Initial(), events, max);
    assert EntryOk(s, s.store.history[k]);
    SessionsRecordTheAnswers(events, max, s.store.history[k].number);
    hide Run, Good, Answers, Told;
  }

  // ------------------------------------------------------------------- why sessions leave the registry

  /** Why a step takes a registered session out: it is the oldest and a new one needs room, its last move has
      just ended it, it is closed, or all are. */
  predicate TakenOut(s: Server, t: nat, c: Choice, max: nat, slot: Slot)
    requires t < |s.threads| && max >= 1
  {
    match s.threads[t]
    case HoldNew =>
      && (forall other :: other in s.store.registry ==> other.id != c.id)
      && |s.store.registry| >= max && slot == s.store.registry[0]
    case AfterPlay(id, number, done) => done && slot == Slot(id, number)
    case FindClose(id) => slot.id == id
    case FindAll => true
    case _ => false
  }

  /** A registered session stays registered but for these reasons. */
  lemma TakenOutExactlyWhen(s: Server, t: nat, c: Choice, max: nat, slot: Slot)
    requires max >= 1 && Serving(s, max) && t < |s.threads| && slot in s.store.registry
    ensures slot !in Next(s, Go(t, c), max).store.registry <==> TakenOut(s, t, c, max, slot)
  {
    var pc := s.threads[t];
    assert Increasing(s.store.registry) && SlotsDiffer(s.store.registry) && NewLockOk(s, max);
    AdvanceIsSection(s, t, c, max);
    hide Advance, Serving, Good, RegisteredOk, LockIsUsed, Increasing, SlotsDiffer, CreateSection, StepSection,
      CloseSection, ArchiveSection, NewLockOk, TakenOut;
    if pc.WaitNew? || pc.HoldNew? || pc.CreateEnv? || pc.Insert? {
      CreateTakesOut(s, t, c, max, slot);
    } else if pc.FindStep? || pc.Play? || pc.AfterPlay? {
      StepTakesOut(s, t, c, max, slot);
    } else if pc.Archiving? {
      ArchiveTakesOut(s, t, c, max, slot);
    } else {
      CloseTakesOut(s, t, c, max, slot);
    }
  }

  lemma CreateTakesOut(s: Server, t: nat, c: Choice, max: nat, slot: Slot)
    requires max >= 1 && NewLockOk(s, max) && Increasing(s.store.registry) && t < |s.threads|
    requires var pc := s.threads[t]; pc.WaitNew? || pc.HoldNew? || pc.CreateEnv? || pc.Insert?
    requires slot in s.store.registry
    ensures slot !in CreateSection(s, t, c, max).store.registry <==> TakenOut(s, t, c, max, slot)
  {
    var registry, pc := s.store.registry, s.threads[t];
    NotFoundExactlyWhen(registry, c.id);
    FirstIsGone(registry, slot);
    if pc.Insert? {
      assert Lookup(registry, Chosen(pc).value).None?;
      WithFresh(registry, pc.id, s.store.nextNumber);
    }
    hide Lookup, With, Increasing, NewLockOk, NewSession;
  }

  lemma StepTakesOut(s: Server, t: nat, c: Choice, max: nat, slot: Slot)
    requires max >= 1 && Increasing(s.store.registry) && SlotsDiffer(s.store.registry) && t < |s.threads|
    requires var pc := s.threads[t]; pc.FindStep? || pc.Play? || pc.AfterPlay?
    requires slot in s.store.registry
    ensures slot !in StepSection(s, t, c).store.registry <==> TakenOut(s, t, c, max, slot)
  {
    var registry, pc := s.store.registry, s.threads[t];
    FoundExactlyWhen(registry, slot);
    if pc.AfterPlay? && Lookup(registry, pc.id).Some? {
      WithoutExactly(registry, pc.id, slot);
    }
    hide Lookup, Without, Increasing, SlotsDiffer, Played;
  }

  lemma CloseTakesOut(s: Server, t: nat, c: Choice, max: nat, slot: Slot)
    requires max >= 1 && Increasing(s.store.registry) && SlotsDiffer(s.store.registry) && t < |s.threads|
    requires var pc := s.threads[t]; pc.FindClose? || pc.FindAll? || pc.Answer? || pc.Ended?
    requires slot in s.store.registry
    ensures slot !in CloseSection(s, t).store.registry <==> TakenOut(s, t, c, max, slot)
  {
    var registry, pc := s.store.registry, s.threads[t];
    FoundExactlyWhen(registry, slot);
    if pc.FindClose? {
      NotFoundExactlyWhen(registry, pc.id);
      if Lookup(registry, pc.id).Some? {
        WithoutExactly(registry, pc.id, slot);
        FoundExactlyWhen(registry, Slot(pc.id, Lookup(registry, pc.id).value));
        OneSlotForIdentifier(registry, slot, Slot(pc.id, Lookup(registry, pc.id).value));
      }
    }
    hide Lookup, Without, Increasing, SlotsDiffer, Numbers, ReplyOf;
  }

  lemma OneSlotForIdentifier(registry: seq<Slot>, a: Slot, b: Slot)
    requires SlotsDiffer(registry) && a in registry && b in registry
    ensures a.id == b.id <==> a == b
  {
  }

  lemma ArchiveTakesOut(s: Server, t: nat, c: Choice, max: nat, slot: Slot)
    requires max >= 1 && t < |s.threads| && s.threads[t].Archiving? && slot in s.store.registry
    ensures slot in ArchiveSection(s, t).store.registry && !TakenOut(s, t, c, max, slot)
  {
    hide EntryOf;
  }

  lemma FirstIsGone(registry: seq<Slot>, slot: Slot)
    requires Increasing(registry) && slot in registry
    ensures slot in registry[1..] <==> slot != registry[0]
  {
    var k :| 0 <= k < |registry| && registry[k] == slot;
    if k > 0 {
      assert registry[1..][k - 1] == slot && registry[0].number < registry[k].number;
    } else {
      forall j | 0 <= j < |registry[1..]| ensures registry[1..][j] != slot {
        assert registry[0].number < registry[j + 1].number;
      }
    }
  }

  lemma FoundExactlyWhen(registry: seq<Slot>, slot: Slot)
    requires SlotsDiffer(registry)
    ensures Lookup(registry, slot.id) == Some(slot.number) <==> slot in registry
  {
    LookupFinds(registry, slot.id);
    hide Lookup;
    if slot in registry && Lookup(registry, slot.id).Some? {
      assert Slot(slot.id, Lookup(registry, slot.id).value) in registry;
    }
  }

  lemma NotFoundExactlyWhen(registry: seq<Slot>, id: string)
    ensures Lookup(registry, id).None? <==> forall other :: other in registry ==> other.id != id
  {
    LookupFinds(registry, id);
    hide Lookup;
    if Lookup(registry, id).Some? {
      assert Slot(id, Lookup(registry, id).value) in registry;
    }
  }

  lemma {:induction false} WithoutExactly(registry: seq<Slot>, id: string, slot: Slot)
    requires Increasing(registry) && Lookup(registry, id).Some? && slot in registry
    ensures slot in Without(registry, id) <==> slot != Slot(id, Lookup(registry, id).value)
  {
    FirstIsGone(registry, slot);
    if registry[0].id != id {
      if slot in registry[1..] {
        WithoutExactly(registry[1..], id, slot);
      } else {
        LookupFinds(registry[1..], id);
      }
    }
  }

  /** A step request goes on with the session registered under its identifier, or ends. */
  lemma StepFindsItsGame(s: Server, t: nat, c: Choice, max: nat, slot: Slot)
    requires max >= 1 && t < |s.threads| && s.threads[t].FindStep? && SlotsDiffer(s.store.registry)
    ensures
      var (pc, pc') := (s.threads[t], Next(s, Go(t, c), max).threads[t]);
      && (slot in s.store.registry && slot.id == pc.id ==> pc' == Play(pc.id, slot.number, pc.action))
      && ((forall other :: other in s.store.registry ==> other.id != pc.id) ==> pc' == Ended)
  {
    FoundExactlyWhen(s.store.registry, Slot(s.threads[t].id, slot.number));
    NotFoundExactlyWhen(s.store.registry, s.threads[t].id);
    hide Lookup, SlotsDiffer;
  }

  /** So does a close request, which archives the session before it answers. */
  lemma CloseFindsItsGame(s: Server, t: nat, c: Choice, max: nat, slot: Slot)
    requires max >= 1 && t < |s.threads| && s.threads[t].FindClose? && SlotsDiffer(s.store.registry)
    ensures
      var (pc, pc') := (s.threads[t], Next(s, Go(t, c), max).threads[t]);
      && (slot in s.store.registry && slot.id == pc.id ==>
            pc' == Archiving([slot.number], None, ThenReply(slot.number)))
      && ((forall other :: other in s.store.registry ==> other.id != pc.id) ==> pc' == Ended)
  {
    FoundExactlyWhen(s.store.registry, Slot(s.threads[t].id, slot.number));
    NotFoundExactlyWhen(s.store.registry, s.threads[t].id);
    hide Lookup, Without, SlotsDiffer;
  }

  /** A step request that has ended its game archives it if it is still registered. */
  lemma FinishedGameIsArchived(s: Server, t: nat, c: Choice, max: nat)
    requires max >= 1 && t < |s.threads| && s.threads[t].AfterPlay? && SlotsDiffer(s.store.registry)
    ensures
      var AfterPlay(id, number, done) := s.threads[t];
      Next(s, Go(t, c), max).threads[t] ==
        if done && Slot(id, number) in s.store.registry then Archiving([number], None, ThenEnd) else Ended
  {
    FoundExactlyWhen(s.store.registry, Slot(s.threads[t].id, s.threads[t].number));
    hide Lookup, Without, SlotsDiffer;
  }

  /** A request to close all takes the sessions in the order in which they were registered. */
  lemma CloseAllTakesAll(s: Server, t: nat, c: Choice, max: nat)
    requires max >= 1 && t < |s.threads| && s.threads[t].FindAll?
    ensures
      var s' := Next(s, Go(t, c), max);
      && s'.store.registry == [] && s'.threads[t].Archiving?
      && s'.threads[t].entry == None && s'.threads[t].next == ThenEnd
      && |s'.threads[t].queue| == |s.store.registry|
      && forall k :: 0 <= k < |s.store.registry| ==> s'.threads[t].queue[k] == s.store.registry[k].number
  {
  }

  /** Archiving takes the sessions one by one, the values of each in one section and its entry in the next. */
  lemma ArchivingGoesOn(s: Server, t: nat, c: Choice, max: nat)
    requires max >= 1 && t < |s.threads| && s.threads[t].Archiving? && ThreadOk(s, s.threads[t])
    ensures
      var s', Archiving(queue, entry, next) := Next(s, Go(t, c), max), s.threads[t];
      if entry.Some? then
        s'.threads[t] == Archiving(queue[1..], None, next) && s'.store.history == s.store.history + [entry.value]
        && s'.sessions == s.sessions
      else if queue != [] then
        && s'.threads[t].Archiving? && s'.threads[t].queue == queue && s'.threads[t].next == next
        && s'.threads[t].entry.Some? && s'.threads[t].entry.value.number == s.sessions[queue[0]].number
        && s'.sessions == s.sessions[queue[0] := s.sessions[queue[0]].(live := false)]
        && s'.store == s.store
      else
        && s'.store == s.store && s'.sessions == s.sessions
        && (next.ThenCreate? ==> s'.threads[t] == CreateEnv(next.id))
        && (next.ThenEnd? ==> s'.threads[t] == Ended)
        && (next.ThenReply? ==> s'.threads[t] == Answer(next.number))
  {
    hide InHistory;
  }

  // ------------------------------------------------------------------------ closing is answered

  /** The close request has taken its session out and has not answered yet. */
  function Owed(pc: Pc): multiset<nat> {
    match pc
    case Archiving(_, _, ThenReply(number)) => multiset{number}
    case Answer(number) => multiset{number}
    case _ => multiset{}
  }

  function AllOwed(threads: seq<Pc>): multiset<nat> {
    if threads == [] then multiset{} else Owed(threads[0]) + AllOwed(threads[1..])
  }

  function Replied(replies: seq<Reply>): multiset<nat> {
    if replies == [] then multiset{} else Replied(replies[..|replies| - 1]) + multiset{replies[|replies| - 1].number}
  }

  /** The session that a close request takes out with this event. */
  function ClosedBy(s: Server, e: Event): multiset<nat> {
    if e.Go? && e.thread < |s.threads| && s.threads[e.thread].FindClose? then
      match Lookup(s.store.registry, s.threads[e.thread].id)
      case Some(number) => multiset{number}
      case None => multiset{}
    else multiset{}
  }

  /** All sessions taken out by close requests while the events happen. */
  function Closed(s: Server, events: seq<Event>, max: nat): multiset<nat>
    requires max >= 1
    decreases |events|
  {
    if events == [] then multiset{} else ClosedBy(s, events[0]) + Closed(Next(s, events[0], max), events[1..], max)
  }

  lemma {:induction false} OwedUpdate(threads: seq<Pc>, t: nat, pc: Pc)
    requires t < |threads|
    ensures AllOwed(threads[t := pc]) + Owed(threads[t]) == AllOwed(threads) + Owed(pc)
  {
    var rest, after := threads[1..], threads[t := pc];
    if t == 0 {
      assert after[1..] == rest;
    } else {
      assert after[1..] == rest[t - 1 := pc] && after[0] == threads[0] && rest[t - 1] == threads[t];
      OwedUpdate(rest, t - 1, pc);
      AddToBoth(Owed(threads[0]), AllOwed(rest[t - 1 := pc]), Owed(threads[t]), AllOwed(rest), Owed(pc));
    }
  }

  lemma {:induction false} OwedAppend(threads: seq<Pc>, pc: Pc)
    requires Owed(pc) == multiset{}
    ensures AllOwed(threads + [pc]) == AllOwed(threads)
  {
    if threads == [] {
      assert (threads + [pc])[1..] == [] && (threads + [pc])[0] == pc;
    } else {
      OwedAppend(threads[1..], pc);
      assert (threads + [pc])[1..] == threads[1..] + [pc];
    }
  }

  lemma RepliedAppend(replies: seq<Reply>, r: Reply)
    ensures Replied(replies + [r]) == Replied(replies) + multiset{r.number}
  {
    assert (replies + [r])[..|replies|] == replies;
  }

  /** One step: what is owed becomes a reply, and only a close request that takes a session out owes more. */
  lemma StepOwes(s: Server, t: nat, c: Choice, max: nat)
    requires max >= 1 && t < |s.threads| && Sane(s) && ThreadOk(s, s.threads[t])
    ensures
      var s' := Next(s, Go(t, c), max);
      && |s'.threads| == |s.threads|
      && Owed(s'.threads[t]) + Replied(s'.replies) == Owed(s.threads[t]) + Replied(s.replies) + ClosedBy(s, Go(t, c))
  {
    var pc := s.threads[t];
    AdvanceIsSection(s, t, c, max);
    hide Advance, CreateSection, StepSection, CloseSection, ArchiveSection, Sane, Lookup, Replied, Owed, ThreadOk, ClosedBy;
    if pc.WaitNew? || pc.HoldNew? || pc.CreateEnv? || pc.Insert? {
      CreateOwes(s, t, c, max);
    } else if pc.FindStep? || pc.Play? || pc.AfterPlay? {
      PlayOwes(s, t, c);
    } else if pc.Archiving? {
      ArchiveOwes(s, t);
      OnlyClosingCloses(s, Go(t, c));
    } else {
      CloseOwes(s, t, c);
    }
  }

  /** Neither owes nor answers anything. */
  predicate OwesAsBefore(s: Server, t: nat, s': Server)
    requires t < |s.threads|
  {
    |s'.threads| == |s.threads| && Owed(s'.threads[t]) == Owed(s.threads[t]) && s'.replies == s.replies
  }

  lemma CreateOwes(s: Server, t: nat, c: Choice, max: nat)
    requires max >= 1 && t < |s.threads|
    requires var pc := s.threads[t]; pc.WaitNew? || pc.HoldNew? || pc.CreateEnv? || pc.Insert?
    ensures OwesAsBefore(s, t, CreateSection(s, t, c, max)) && ClosedBy(s, Go(t, c)) == multiset{}
  {
    hide Lookup, With, MakeRoom, NewSession;
  }

  lemma PlayOwes(s: Server, t: nat, c: Choice)
    requires t < |s.threads|
    requires var pc := s.threads[t]; pc.FindStep? || pc.Play? || pc.AfterPlay?
    ensures OwesAsBefore(s, t, StepSection(s, t, c)) && ClosedBy(s, Go(t, c)) == multiset{}
  {
    hide Lookup, Without, Played;
  }

  lemma OnlyClosingCloses(s: Server, e: Event)
    requires e.Go? && e.thread < |s.threads| && !s.threads[e.thread].FindClose?
    ensures ClosedBy(s, e) == multiset{}
  {
  }

  lemma ArchiveOwes(s: Server, t: nat)
    requires t < |s.threads| && s.threads[t].Archiving?
    ensures OwesAsBefore(s, t, ArchiveSection(s, t))
  {
    hide EntryOf;
  }

  lemma CloseOwes(s: Server, t: nat, c: Choice)
    requires t < |s.threads| && Sane(s) && ThreadOk(s, s.threads[t])
    requires var pc := s.threads[t]; pc.FindClose? || pc.FindAll? || pc.Answer? || pc.Ended?
    ensures
      var s' := CloseSection(s, t);
      && |s'.threads| == |s.threads|
      && Owed(s'.threads[t]) + Replied(s'.replies) == Owed(s.threads[t]) + Replied(s.replies) + ClosedBy(s, Go(t, c))
  {
    hide Sane, Replied, Lookup, Without, Numbers, EntryOf, InHistory;
    if s.threads[t].Answer? {
      AnswerOwes(s, t);
    }
    hide ReplyOf;
  }

  lemma AnswerOwes(s: Server, t: nat)
    requires t < |s.threads| && Sane(s) && s.threads[t].Answer? && ThreadOk(s, s.threads[t])
    ensures
      var s', number := CloseSection(s, t), s.threads[t].number;
      && s'.threads == s.threads[t := Ended] && Replied(s'.replies) == Replied(s.replies) + multiset{number}
      && Owed(s.threads[t]) == multiset{number}
  {
    var number := s.threads[t].number;
    assert number in s.sessions;
    NumberOfEntry(s, number);
    hide Sane;
    RepliedAppend(s.replies, ReplyOf(s.sessions[number]));
    hide Replied;
  }

  lemma NextOwes(s: Server, e: Event, max: nat)
    requires max >= 1 && Good(s, max)
    ensures
      var s' := Next(s, e, max);
      AllOwed(s'.threads) + Replied(s'.replies) == AllOwed(s.threads) + Replied(s.replies) + ClosedBy(s, e)
  {
    var s' := Next(s, e, max);
    if e.Begin? {
      EntranceOwesNothing(e.request);
      OwedAppend(s.threads, Entrance(e.request));
      hide AllOwed, Replied, Owed, Entrance, Good;
    } else if e.thread < |s.threads| {
      assert Sane(s) && ThreadOk(s, s.threads[e.thread]);
      StepOwes(s, e.thread, e.choice, max);
      AdvanceMovesOneThread(s, e.thread, e.choice, max);
      OwedUpdate(s.threads, e.thread, s'.threads[e.thread]);
      hide Advance, AllOwed, Replied, Owed, Good, ClosedBy, Sane;
      OwedBalance(AllOwed(s.threads), AllOwed(s'.threads), Owed(s.threads[e.thread]), Owed(s'.threads[e.thread]),
                  Replied(s.replies), Replied(s'.replies), ClosedBy(s, e));
    }
  }

  lemma EntranceOwesNothing(request: Request)
    ensures Owed(Entrance(request)) == multiset{}
  {
  }

  lemma OwedBalance(all: multiset<nat>, all': multiset<nat>, mine: multiset<nat>, mine': multiset<nat>,
                    replied: multiset<nat>, replied': multiset<nat>, closed: multiset<nat>)
    requires all' + mine == all + mine' && mine' + replied' == mine + replied + closed
    ensures all' + replied' == all + replied + closed
  {
    forall n ensures (all' + replied')[n] == (all + replied + closed)[n] {
      assert (all' + mine)[n] == (all + mine')[n] && (mine' + replied')[n] == (mine + replied + closed)[n];
    }
  }

  lemma {:induction false} RunOwes(s: Server, events: seq<Event>, max: nat)
    requires max >= 1 && Good(s, max)
    ensures
      var final := Run(s, events, max);
      AllOwed(final.threads) + Replied(final.replies) == AllOwed(s.threads) + Replied(s.replies) + Closed(s, events, max)
    decreases |events|
  {
    hide Next, Good, AllOwed, Replied, ClosedBy;
    if events != [] {
      NextKeeps(s, events[0], max);
      NextOwes(s, events[0], max);
      RunOwes(Next(s, events[0], max), events[1..], max);
    }
  }

  lemma {:induction false} EndedOweNothing(threads: seq<Pc>)
    requires AllEnded(threads)
    ensures AllOwed(threads) == multiset{}
  {
    if threads != [] {
      EndedOweNothing(threads[1..]);
    }
  }

  /** Once every request has been served, each close request that took a session out has been answered, once,
      and nothing else has. */
  lemma CloseRequestsAreAnswered(events: seq<Event>, max: nat)
    requires max >= 1 && AllEnded(Run(Initial(), events, max).threads)
    ensures Replied(Run(Initial(), events, max).replies) == Closed(Initial(), events, max)
  {
    InitialIsGood(max);
    RunOwes(Initial(), events, max);
    EndedOweNothing(Run(Initial(), events, max).threads);
    EndedOweNothing(Initial().threads);
    var final, closed := Run(Initial(), events, max), Closed(Initial(), events, max);
    assert Replied(Initial().replies) == multiset{};
    hide Run, Closed, Replied, AllOwed;
    assert multiset{} + Replied(final.replies) == Replied(final.replies);
    assert multiset{} + multiset{} + closed == closed;
  }
}
