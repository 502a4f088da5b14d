/** What the game server (runtime_assets/game_server_app.py) does not get stuck in: games that are over do
    not stay registered, the creation lock is always given back, and every request can be served. */
module GameProgress {
  import opened Wrappers
  import opened GameServer

  // ------------------------------------------------------------------------- registered games

  /** A slot determines its identifier and its number, and either determines the slot. */
  ghost predicate SlotsDiffer(registry: seq<Slot>) {
    forall a, b :: a in registry && b in registry && a.id == b.id ==> a == b
  }

  /** A step request between its sections knows the identifier of its game. */
  predicate NamesItsGame(s: Server, pc: Pc) {
    pc.Play? || pc.AfterPlay? ==>
      pc.number in s.sessions && forall slot :: slot in s.store.registry && slot.number == pc.number ==> slot.id == pc.id
  }

  /** The request that ended this game has not yet looked whether it has to take it out. */
  ghost predicate BeingFinished(s: Server, slot: Slot) {
    exists t :: 0 <= t < |s.threads| && s.threads[t] == AfterPlay(slot.id, slot.number, true)
  }

  predicate Live(s: Server, slot: Slot) {
    slot.number in s.sessions && s.sessions[slot.number].live
  }

  ghost predicate RegisteredOk(s: Server) {
    && SlotsDiffer(s.store.registry)
    && (forall t :: 0 <= t < |s.threads| ==> NamesItsGame(s, s.threads[t]))
    && (forall slot :: slot in s.store.registry ==> Live(s, slot))
    && (forall slot :: slot in s.store.registry && s.sessions[slot.number].done ==> BeingFinished(s, slot))
  }

  /** The creation lock is held by a request that is creating a game. */
  ghost predicate LockIsUsed(s: Server) {
    s.newLock.Some? ==> s.newLock.value < |s.threads| && HoldsNew(s.threads[s.newLock.value])
  }

  lemma SlotAt(registry: seq<Slot>, slot: Slot)
    requires slot in registry && Increasing(registry)
    ensures forall other :: other in registry && other.number == slot.number ==> other == slot
  {
    var i :| 0 <= i < |registry| && registry[i] == slot;
    forall other | other in registry && other.number == slot.number ensures other == slot {
      var j :| 0 <= j < |registry| && registry[j] == other;
      assert i == j;
    }
  }

  lemma {:induction false} WithoutTakesOut(registry: seq<Slot>, id: string)
    requires Increasing(registry) && Lookup(registry, id).Some?
    ensures |Without(registry, id)| == |registry| - 1
    ensures forall slot :: slot in Without(registry, id) ==> slot.number != Lookup(registry, id).value
  {
    if registry[0].id != id {
      WithoutTakesOut(registry[1..], id);
      LookupFinds(registry[1..], id);
    } else {
      forall slot | slot in registry[1..] ensures slot.number != registry[0].number {
        var k :| 0 <= k < |registry[1..]| && registry[1..][k] == slot;
        assert registry[k + 1] == slot;
      }
    }
  }

  lemma {:induction false} QueueHolds(threads: seq<Pc>, t: nat, n: nat)
    requires t < |threads| && n in QueueOf(threads[t])
    ensures Queues(threads)[n] >= 1
  {
    if t > 0 {
      QueueHolds(threads[1..], t - 1, n);
    }
  }

  /** A session that is being archived is not registered. */
  lemma ArchivingIsNotRegistered(s: Server, t: nat, n: nat, slot: Slot)
    requires Partitioned(s) && t < |s.threads| && n in QueueOf(s.threads[t]) && slot in s.store.registry
    ensures slot.number != n
  {
    hide Queues, QueueOf, Issued, Numbers, HistoryNumbers;
    QueueHolds(s.threads, t, n);
    IssuedOnce(s.store.nextNumber, n);
    RegisteredNumber(s.store.registry, slot);
    assert Places(s)[n] <= 1;
  }

  lemma RegisteredNumber(registry: seq<Slot>, slot: Slot)
    requires slot in registry
    ensures multiset(Numbers(registry))[slot.number] >= 1
  {
    var k :| 0 <= k < |registry| && registry[k] == slot;
    assert Numbers(registry)[k] == slot.number;
    assert slot.number in Numbers(registry);
  }

  // ------------------------------------------------------------------------- one step

  /** How a step moves the thread of a step request. */
  predicate PlayStep(s: Server, t: nat, s': Server)
    requires t < |s.threads| && t < |s'.threads|
  {
    var pc, pc' := s.threads[t], s'.threads[t];
    && (pc'.Play? ==> pc.FindStep? && Lookup(s.store.registry, pc'.id) == Some(pc'.number))
    && (pc'.AfterPlay? ==> pc.Play? && pc'.id == pc.id && pc'.number == pc.number)
    && (pc.AfterPlay? && pc.done ==>
          s'.store.registry ==
            if Lookup(s.store.registry, pc.id) == Some(pc.number) then Without(s.store.registry, pc.id) else s.store.registry)
  }

  lemma AdvanceIsPlayStep(s: Server, t: nat, c: Choice, max: nat)
    requires t < |s.threads| && max >= 1
    ensures PlayStep(s, t, Advance(s, t, c, max))
  {
    hide Lookup, Without, With, Numbers, EntryOf, MakeRoom, NewSession, Played;
  }

  /** Only a move ends a game, and then its request looks whether to take it out. */
  predicate EndingStep(s: Server, t: nat, s': Server)
    requires t < |s.threads| && t < |s'.threads|
  {
    forall n :: n in s.sessions && n in s'.sessions && s'.sessions[n].done && !s.sessions[n].done ==>
      s.threads[t].Play? && s.threads[t].number == n && s'.threads[t] == AfterPlay(s.threads[t].id, n, true)
  }

  lemma AdvanceIsEndingStep(s: Server, t: nat, c: Choice, max: nat)
    requires t < |s.threads| && max >= 1 && Sane(s)
    ensures EndingStep(s, t, Advance(s, t, c, max))
  {
    hide Lookup, Without, With, Numbers, EntryOf, MakeRoom, Consistent, Increasing;
  }

  /** Every slot was there before, or it is the new one under the next number. */
  predicate SlotsStep(s: Server, t: nat, s': Server)
    requires t < |s.threads|
  {
    forall slot :: slot in s'.store.registry ==>
      slot in s.store.registry || (s.threads[t].Insert? && slot == Slot(s.threads[t].id, s.store.nextNumber))
  }

  lemma AdvanceIsSlotsStep(s: Server, t: nat, c: Choice, max: nat)
    requires t < |s.threads| && max >= 1 && NewLockOk(s, max)
    ensures SlotsStep(s, t, Advance(s, t, c, max))
    ensures s.threads[t].Insert? ==> forall slot :: slot in s.store.registry ==> slot.id != s.threads[t].id
  {
    AdvanceRegistry(s, t, c, max);
    hide Advance, Lookup, With, Increasing;
    if s.threads[t].Insert? {
      var registry, id := s.store.registry, s.threads[t].id;
      assert Lookup(registry, Chosen(s.threads[t]).value).None?;
      WithFresh(registry, id, s.store.nextNumber);
      LookupFinds(registry, id);
    }
  }

  lemma SlotsStayDifferent(s: Server, t: nat, s': Server)
    requires t < |s.threads| && SlotsDiffer(s.store.registry) && SlotsStep(s, t, s')
    requires s.threads[t].Insert? ==> forall slot :: slot in s.store.registry ==> slot.id != s.threads[t].id
    ensures SlotsDiffer(s'.store.registry)
  {
  }

  /** What the lemmas below use of a step. */
  ghost predicate Stepped(s: Server, t: nat, c: Choice, s': Server) {
    && t < |s.threads| == |s'.threads|
    && s'.threads == s.threads[t := s'.threads[t]]
    && s'.sessions.Keys == s.sessions.Keys + (if s.threads[t].Insert? then {s.store.nextNumber} else {})
    && SlotsStep(s, t, s') && PlayStep(s, t, s') && EndingStep(s, t, s') && SessionStep(s, t, c, s')
  }

  lemma AdvanceIsStepped(s: Server, t: nat, c: Choice, max: nat)
    requires t < |s.threads| && max >= 1 && Good(s, max)
    ensures Stepped(s, t, c, Advance(s, t, c, max))
  {
    hide Advance, SlotsStep, PlayStep, EndingStep, SessionStep, Sane, NewLockOk, Partitioned, HistoryOk, ThreadsOk;
    AdvanceMovesOneThread(s, t, c, max);
    AdvanceSessions(s, t, c, max);
    AdvanceIsSlotsStep(s, t, c, max);
    AdvanceIsPlayStep(s, t, c, max);
    AdvanceIsEndingStep(s, t, c, max);
    AdvanceIsSessionStep(s, t, c, max);
  }

  lemma NamesStay(s: Server, t: nat, c: Choice, s': Server, u: nat)
    requires Stepped(s, t, c, s') && Sane(s) && RegisteredOk(s) && u < |s.threads|
    ensures NamesItsGame(s', s'.threads[u])
  {
    hide EndingStep, SessionStep, Consistent, Live, BeingFinished, Lookup, Without, SlotsDiffer;
    assert NamesItsGame(s, s.threads[u]);
    if u == t && s'.threads[t].Play? {
      LookupFinds(s.store.registry, s'.threads[t].id);
      SlotAt(s.store.registry, Slot(s'.threads[t].id, s'.threads[t].number));
    }
  }

  lemma LiveStays(s: Server, t: nat, c: Choice, s': Server, slot: Slot)
    requires Stepped(s, t, c, s') && Partitioned(s) && RegisteredOk(s) && slot in s'.store.registry
    ensures Live(s', slot)
  {
    hide EndingStep, PlayStep, Partitioned, NamesItsGame, BeingFinished, SlotsDiffer;
    if slot in s.store.registry {
      assert Live(s, slot);
      var pc := s.threads[t];
      if pc.Archiving? && pc.queue != [] {
        ArchivingIsNotRegistered(s, t, pc.queue[0], slot);
      }
    }
  }

  lemma FinishedStays(s: Server, t: nat, c: Choice, s': Server, slot: Slot)
    requires Stepped(s, t, c, s') && Sane(s) && RegisteredOk(s)
    requires slot in s'.store.registry && slot.number in s'.sessions && s'.sessions[slot.number].done
    ensures BeingFinished(s', slot)
  {
    hide Consistent, NamesItsGame, Lookup, Without, Played, SlotsDiffer;
    if slot in s.store.registry {
      assert Live(s, slot);
      if s.sessions[slot.number].done {
        var u :| 0 <= u < |s.threads| && s.threads[u] == AfterPlay(slot.id, slot.number, true);
        if u == t {
          FinishedIsFound(s.store.registry, slot);
          WithoutTakesOut(s.store.registry, slot.id);
          assert false;
        }
        assert s'.threads[u] == s.threads[u];
      } else {
        EndedNow(s, t, slot);
        assert s'.threads[t] == AfterPlay(slot.id, slot.number, true);
      }
    }
  }

  lemma EndedNow(s: Server, t: nat, slot: Slot)
    requires t < |s.threads| && RegisteredOk(s) && slot in s.store.registry
    ensures s.threads[t].Play? && s.threads[t].number == slot.number ==> s.threads[t].id == slot.id
  {
    hide SlotsDiffer, Live, BeingFinished;
    assert NamesItsGame(s, s.threads[t]);
  }

  lemma FinishedIsFound(registry: seq<Slot>, slot: Slot)
    requires SlotsDiffer(registry) && slot in registry
    ensures Lookup(registry, slot.id) == Some(slot.number)
  {
    LookupFinds(registry, slot.id);
    hide Lookup;
    if Lookup(registry, slot.id).Some? {
      assert Slot(slot.id, Lookup(registry, slot.id).value) in registry;
    }
  }

  lemma AdvanceKeepsRegistered(s: Server, t: nat, c: Choice, max: nat)
    requires t < |s.threads| && max >= 1 && Good(s, max) && RegisteredOk(s)
    ensures RegisteredOk(Advance(s, t, c, max))
  {
    var s' := Advance(s, t, c, max);
    AdvanceIsStepped(s, t, c, max);
    AdvanceIsSlotsStep(s, t, c, max);
    hide Advance, Sane, Partitioned, NewLockOk, HistoryOk, ThreadsOk, NamesItsGame, BeingFinished, Live,
      SlotsDiffer, SlotsStep, PlayStep, EndingStep, SessionStep;
    SlotsStayDifferent(s, t, s');
    forall u | 0 <= u < |s'.threads| ensures NamesItsGame(s', s'.threads[u]) {
      NamesStay(s, t, c, s', u);
    }
    forall slot | slot in s'.store.registry ensures Live(s', slot) {
      LiveStays(s, t, c, s', slot);
    }
    forall slot | slot in s'.store.registry
      ensures slot.number in s'.sessions && (s'.sessions[slot.number].done ==> BeingFinished(s', slot))
    {
      LiveIsThere(s', slot);
      if s'.sessions[slot.number].done {
        FinishedStays(s, t, c, s', slot);
      }
    }
  }

  lemma LiveIsThere(s: Server, slot: Slot)
    requires Live(s, slot)
    ensures slot.number in s.sessions && s.sessions[slot.number].live
  {
  }

  // ------------------------------------------------------------------------- the creation lock

  /** How a step hands the creation lock on. */
  predicate LockStep(s: Server, t: nat, s': Server)
    requires t < |s.threads| && t < |s'.threads|
  {
    s'.newLock.Some? ==>
      if s'.newLock == s.newLock then HoldsNew(s.threads[t]) ==> HoldsNew(s'.threads[t])
      else s'.newLock == Some(t) && HoldsNew(s'.threads[t])
  }

  lemma AdvanceIsLockStep(s: Server, t: nat, c: Choice, max: nat)
    requires t < |s.threads| && max >= 1
    ensures LockStep(s, t, Advance(s, t, c, max))
  {
    hide Lookup, Without, With, Numbers, EntryOf, MakeRoom, NewSession, Played, ReplyOf;
  }

  lemma AdvanceKeepsLock(s: Server, t: nat, c: Choice, max: nat)
    requires t < |s.threads| && max >= 1 && LockIsUsed(s)
    ensures LockIsUsed(Advance(s, t, c, max))
  {
    AdvanceMovesOneThread(s, t, c, max);
    AdvanceIsLockStep(s, t, c, max);
    hide Advance, HoldsNew;
  }

  /** What holds of the server beyond the invariant of its games. */
  ghost predicate Serving(s: Server, max: nat) {
    Good(s, max) && RegisteredOk(s) && LockIsUsed(s)
  }

  lemma BeginKeepsServing(s: Server, request: Request, max: nat)
    requires max >= 1 && Serving(s, max)
    ensures Serving(Next(s, Begin(request), max), max)
  {
    BeginKeeps(s, request, max);
    hide Good;
    EntranceIsFree(request);
    MoreThreads(s, Entrance(request));
  }

  lemma EntranceIsFree(request: Request)
    ensures !Entrance(request).Play? && !Entrance(request).AfterPlay?
  {
  }

  lemma MoreThreads(s: Server, pc: Pc)
    requires RegisteredOk(s) && LockIsUsed(s) && !pc.Play? && !pc.AfterPlay?
    ensures var s' := s.(threads := s.threads + [pc]); RegisteredOk(s') && LockIsUsed(s')
  {
    hide SlotsDiffer, HoldsNew, BeingFinished, NamesItsGame;
    var s' := s.(threads := s.threads + [pc]);
    forall slot | slot in s.store.registry ensures Live(s', slot) {
      assert Live(s, slot);
    }
    forall slot | slot in s.store.registry && s.sessions[slot.number].done ensures BeingFinished(s', slot) {
      StillBeingFinished(s, pc, slot);
    }
    forall u | 0 <= u < |s'.threads| ensures NamesItsGame(s', s'.threads[u]) {
      if u < |s.threads| {
        assert NamesItsGame(s, s.threads[u]);
      }
      SameNames(s, s', s'.threads[u]);
    }
  }

  lemma StillBeingFinished(s: Server, pc: Pc, slot: Slot)
    requires BeingFinished(s, slot)
    ensures BeingFinished(s.(threads := s.threads + [pc]), slot)
  {
    var u :| 0 <= u < |s.threads| && s.threads[u] == AfterPlay(slot.id, slot.number, true);
    assert (s.threads + [pc])[u] == s.threads[u];
  }

  lemma SameNames(s: Server, s': Server, pc: Pc)
    requires s'.store == s.store && s'.sessions == s.sessions
    requires NamesItsGame(s, pc) || (!pc.Play? && !pc.AfterPlay?)
    ensures NamesItsGame(s', pc)
  {
  }

  lemma {:induction false} RunKeepsServing(s: Server, events: seq<Event>, max: nat)
    requires max >= 1 && Serving(s, max)
    ensures Serving(Run(s, events, max), max)
    decreases |events|
  {
    if events != [] {
      var e := events[0];
      hide Good, RegisteredOk, LockIsUsed, Advance;
      if e.Begin? {
        BeginKeepsServing(s, e.request, max);
      } else if e.thread < |s.threads| {
        NextKeeps(s, e, max);
        AdvanceKeepsRegistered(s, e.thread, e.choice, max);
        AdvanceKeepsLock(s, e.thread, e.choice, max);
      }
      RunKeepsServing(Next(s, e, max), events[1..], max);
    }
  }

  lemma InitialIsServing(max: nat)
    requires max >= 1
    ensures Serving(Initial(), max)
  {
  }

  /** Whatever the interleaving: a registered game is live, and one that is over is about to be looked at
      by the request that ended it. */
  lemma RegisteredGamesAreLive(events: seq<Event>, max: nat, slot: Slot)
    requires max >= 1 && slot in Run(Initial(), events, max).store.registry
    ensures var s := Run(Initial(), events, max);
            && slot.number in s.sessions && s.sessions[slot.number].live
            && (s.sessions[slot.number].done ==>
                  exists t :: 0 <= t < |s.threads| && s.threads[t] == AfterPlay(slot.id, slot.number, true))
  {
    InitialIsServing(max);
    RunKeepsServing(Initial(), events, max);
    hide Run, Good, SlotsDiffer, NamesItsGame, LockIsUsed;
    var s := Run(Initial(), events, max);
    assert Live(s, slot);
    if s.sessions[slot.number].done {
      assert BeingFinished(s, slot);
    }
  }

  /** Once every request has been served no registered game is over. */
  lemma QuietServerHasNoFinishedGame(events: seq<Event>, max: nat, slot: Slot)
    requires max >= 1 && slot in Run(Initial(), events, max).store.registry
    requires AllEnded(Run(Initial(), events, max).threads)
    ensures var s := Run(Initial(), events, max);
            slot.number in s.sessions && s.sessions[slot.number].live && !s.sessions[slot.number].done
  {
    RegisteredGamesAreLive(events, max, slot);
    hide Run;
  }

  // ------------------------------------------------------------------------- progress

  /** The sections a request still has in front of it, weighing the sessions it has taken out. */
  function Rank(pc: Pc): nat {
    match pc
    case WaitNew => 7
    case HoldNew => 6
    case CreateEnv(_) => 4
    case Insert(_, _) => 3
    case FindStep(_, _) => 4
    case Play(_, _, _) => 3
    case AfterPlay(_, _, _) => 2
    case FindClose(_) => 3
    case FindAll => 2
    case Archiving(queue, entry, next) => 2 * |queue| + (if entry.Some? then 0 else 1) + ThenRank(next)
    case Answer(_) => 1
    case Ended => 0
  }

  function ThenRank(next: Then): nat {
    if next.ThenCreate? then 4 else if next.ThenReply? then 1 else 0
  }

  function Ranks(threads: seq<Pc>): nat {
    if threads == [] then 0 else Rank(threads[0]) + Ranks(threads[1..])
  }

  /** The work left on the server. */
  function Work(s: Server): nat {
    Ranks(s.threads) + 2 * |s.store.registry|
  }

  lemma {:induction false} RanksUpdate(threads: seq<Pc>, t: nat, pc: Pc)
    requires t < |threads|
    ensures Ranks(threads[t := pc]) + Rank(threads[t]) == Ranks(threads) + Rank(pc)
  {
    var after := threads[t := pc];
    if t == 0 {
      assert after[1..] == threads[1..];
    } else {
      assert after[1..] == threads[1..][t - 1 := pc];
      RanksUpdate(threads[1..], t - 1, pc);
    }
  }

  /** The work of one thread and of the registry falls. */
  predicate Spends(s: Server, t: nat, s': Server)
    requires t < |s.threads| && t < |s'.threads|
  {
    Rank(s'.threads[t]) + 2 * |s'.store.registry| < Rank(s.threads[t]) + 2 * |s.store.registry|
  }

  lemma CreateSpends(s: Server, t: nat, c: Choice, max: nat)
    requires t < |s.threads| && max >= 1 && NewLockOk(s, max)
    ensures CreateSection(s, t, c, max) == s || Spends(s, t, CreateSection(s, t, c, max))
  {
    if s.threads[t].Insert? {
      assert Lookup(s.store.registry, Chosen(s.threads[t]).value).None?;
      WithFresh(s.store.registry, s.threads[t].id, s.store.nextNumber);
    }
    hide Lookup, With, NewSession;
  }

  lemma StepSpends(s: Server, t: nat, c: Choice)
    requires t < |s.threads| && Increasing(s.store.registry)
    ensures StepSection(s, t, c) == s || Spends(s, t, StepSection(s, t, c))
  {
    var pc := s.threads[t];
    if pc.AfterPlay? && Lookup(s.store.registry, pc.id).Some? {
      WithoutTakesOut(s.store.registry, pc.id);
    }
    hide Lookup, Without, Played;
  }

  lemma CloseSpends(s: Server, t: nat)
    requires t < |s.threads| && Increasing(s.store.registry)
    ensures CloseSection(s, t) == s || Spends(s, t, CloseSection(s, t))
  {
    var pc := s.threads[t];
    if pc.FindClose? && Lookup(s.store.registry, pc.id).Some? {
      WithoutTakesOut(s.store.registry, pc.id);
    }
    hide Lookup, Without, ReplyOf;
  }

  lemma ArchiveSpends(s: Server, t: nat)
    requires t < |s.threads| && ThreadOk(s, s.threads[t])
    ensures ArchiveSection(s, t) == s || Spends(s, t, ArchiveSection(s, t))
  {
    hide EntryOf, InHistory;
  }

  /** A critical section that changes anything at all leaves less work. */
  lemma AdvanceSpends(s: Server, t: nat, c: Choice, max: nat)
    requires t < |s.threads| && max >= 1 && Good(s, max)
    ensures Advance(s, t, c, max) == s || Work(Advance(s, t, c, max)) < Work(s)
  {
    var s' := Advance(s, t, c, max);
    assert ThreadOk(s, s.threads[t]) && NewLockOk(s, max) && Increasing(s.store.registry);
    AdvanceMovesOneThread(s, t, c, max);
    RanksUpdate(s.threads, t, s'.threads[t]);
    hide CreateSection, StepSection, CloseSection, ArchiveSection, Good, ThreadOk, NewLockOk, Increasing, Rank, Ranks;
    CreateSpends(s, t, c, max);
    StepSpends(s, t, c);
    CloseSpends(s, t);
    ArchiveSpends(s, t);
  }

  /** An identifier that no session has. */
  lemma UnusedIdentifier(registry: seq<Slot>) returns (id: string)
    ensures Lookup(registry, id).None?
  {
    id := LongerThanAll(registry);
    LookupMisses(registry, id);
  }

  lemma {:induction false} LongerThanAll(registry: seq<Slot>) returns (id: string)
    ensures forall k :: 0 <= k < |registry| ==> |registry[k].id| < |id|
  {
    if registry == [] {
      id := "";
    } else {
      var rest := LongerThanAll(registry[1..]);
      id := rest + registry[0].id + "x";
      forall k | 0 <= k < |registry| ensures |registry[k].id| < |id| {
        if k > 0 {
          assert registry[k] == registry[1..][k - 1];
        }
      }
    }
  }

  /** A thread inside a request moves, unless it waits for the creation lock. */
  lemma ThreadMoves(s: Server, t: nat, c: Choice, max: nat)
    requires t < |s.threads| && max >= 1 && ThreadOk(s, s.threads[t]) && !s.threads[t].Ended?
    requires s.threads[t].WaitNew? ==> s.newLock.None?
    requires s.threads[t].HoldNew? ==> Lookup(s.store.registry, c.id).None?
    ensures Advance(s, t, c, max).threads[t] != s.threads[t]
  {
    hide Lookup, Without, With, Numbers, EntryOf, NewSession, Played, ReplyOf;
  }

  lemma LockHolderIsElsewhere(s: Server)
    requires LockIsUsed(s) && s.newLock.Some?
    ensures var t := s.newLock.value; t < |s.threads| && !s.threads[t].WaitNew? && !s.threads[t].Ended?
  {
  }

  /** No reachable state is stuck: while a request is unserved, some thread can take a step that leaves
      less work. */
  lemma SomeThreadMoves(s: Server, max: nat) returns (t: nat, c: Choice)
    requires max >= 1 && Serving(s, max) && !AllEnded(s.threads)
    ensures t < |s.threads| && Work(Advance(s, t, c, max)) < Work(s)
  {
    var id := UnusedIdentifier(s.store.registry);
    c := Choice(id, false, 0, 0, false);
    var u :| 0 <= u < |s.threads| && !s.threads[u].Ended?;
    t := u;
    if s.threads[u].WaitNew? && s.newLock.Some? {
      LockHolderIsElsewhere(s);
      t := s.newLock.value;
    }
    assert ThreadOk(s, s.threads[t]);
    hide Advance, ThreadOk, Lookup, Work;
    ThreadMoves(s, t, c, max);
    AdvanceSpends(s, t, c, max);
  }

  ghost predicate OnlySteps(events: seq<Event>) {
    forall k :: 0 <= k < |events| ==> events[k].Go?
  }

  lemma SomeEventHelps(s: Server, max: nat) returns (e: Event)
    requires max >= 1 && Serving(s, max) && !AllEnded(s.threads)
    ensures e.Go? && Serving(Next(s, e, max), max) && Work(Next(s, e, max)) < Work(s)
  {
    hide Serving, AllEnded, Advance, Work;
    var t, c := SomeThreadMoves(s, max);
    e := Go(t, c);
    StepKeepsServing(s, e, max);
  }

  /** From every such state the requests can all be served, within the work left. */
  lemma {:induction false} EveryRequestCanBeServed(s: Server, max: nat) returns (events: seq<Event>)
    requires max >= 1 && Serving(s, max)
    ensures OnlySteps(events) && |events| <= Work(s) && AllEnded(Run(s, events, max).threads)
    decreases Work(s)
  {
    hide Serving, AllEnded, Next, Work;
    if AllEnded(s.threads) {
      events := [];
    } else {
      hide Run;
      var e := SomeEventHelps(s, max);
      var rest := EveryRequestCanBeServed(Next(s, e, max), max);
      events := [e] + rest;
      RunCons(s, e, rest, max);
    }
  }

  lemma RunCons(s: Server, e: Event, rest: seq<Event>, max: nat)
    requires max >= 1
    ensures Run(s, [e] + rest, max) == Run(Next(s, e, max), rest, max)
  {
    hide Next;
    assert ([e] + rest)[1..] == rest;
  }

  /** The server never gets stuck: whatever has happened, the requests made so far can all be served. */
  lemma ServerIsNeverStuck(events: seq<Event>, max: nat) returns (more: seq<Event>)
    requires max >= 1
    ensures OnlySteps(more) && AllEnded(Run(Run(Initial(), events, max), more, max).threads)
  {
    InitialIsServing(max);
    RunKeepsServing(Initial(), events, max);
    hide *;
    more := EveryRequestCanBeServed(Run(Initial(), events, max), max);
  }

  lemma StepKeepsServing(s: Server, e: Event, max: nat)
    requires max >= 1 && Serving(s, max)
    ensures Serving(Next(s, e, max), max)
  {
    hide Serving, Next;
    RunKeepsServing(s, [e], max);
    RunCons(s, e, [], max);
    assert [e] + [] == [e];
  }

  /** How many of the events change the server. */
  function Changes(s: Server, events: seq<Event>, max: nat): nat
    requires max >= 1
    decreases |events|
  {
    if events == [] then 0
    else
      var s' := Next(s, events[0], max);
      (if s' == s then 0 else 1) + Changes(s', events[1..], max)
  }

  lemma NextSpends(s: Server, e: Event, max: nat)
    requires max >= 1 && Serving(s, max) && e.Go?
    ensures (if Next(s, e, max) == s then 0 else 1) + Work(Next(s, e, max)) <= Work(s)
  {
    hide Advance, Good, Work;
    if e.thread < |s.threads| {
      AdvanceSpends(s, e.thread, e.choice, max);
    }
  }

  /** However the threads take turns, the work left bounds the steps that change anything. */
  lemma {:induction false} StepsAreBounded(s: Server, events: seq<Event>, max: nat)
    requires max >= 1 && Serving(s, max) && OnlySteps(events)
    ensures Changes(s, events, max) + Work(Run(s, events, max)) <= Work(s)
    decreases |events|
  {
    hide Serving, Next, Work;
    if events != [] {
      StepKeepsServing(s, events[0], max);
      NextSpends(s, events[0], max);
      StepsAreBounded(Next(s, events[0], max), events[1..], max);
    }
  }
}
