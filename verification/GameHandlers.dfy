/** The request handlers over the objects of the game server (runtime_assets/game_server_app.py): each
    critical section as the code runs it on the registry and the session objects, and a server that runs
    the sections of any number of threads in any order. */
module GameHandlers {
  import opened Wrappers
  import opened GameServer

  class Application {
    const state: State
    /** The session objects by game number. */
    var games: map<nat, GameSessionState>
    var newLock: Option<nat>
    var threads: seq<Pc>
    var replies: seq<Reply>

    ghost predicate Valid()
      reads this`games
    {
      && state.maxActiveSessions >= 1
      && forall n :: n in games ==> games[n].number == n
    }

    function Sessions(): map<nat, Session>
      reads this`games, games.Values
    {
      map n | n in games :: games[n].Value()
    }

    function Value(): Server
      reads this, state, games.Values
    {
      Server(state.Value(), Sessions(), newLock, threads, replies)
    }

    constructor (maxActiveSessions: nat)
      requires maxActiveSessions >= 1
      ensures Valid() && Value() == Initial() && state.maxActiveSessions == maxActiveSessions
      ensures fresh(state) && games == map[]
    {
      state := new State(maxActiveSessions);
      games, newLock, threads, replies := map[], None, [], [];
    }

    method MoveTo(t: nat, pc: Pc)
      requires t < |threads|
      modifies this`threads
      ensures threads == old(threads)[t := pc]
    {
      threads := threads[t := pc];
    }

    /** A request for a new game takes the creation lock when it is free. */
    method TakeNewLock(t: nat, c: Choice)
      requires Valid() && t < |threads| && threads[t].WaitNew?
      modifies this`newLock, this`threads
      ensures Valid() && Value() == CreateSection(old(Value()), t, c, state.maxActiveSessions)
    {
      if newLock.None? {
        newLock := Some(t);
        MoveTo(t, HoldNew);
      }
    }

    /** The capacity decision, before the environment starts. */
    method DecideCapacity(t: nat, c: Choice)
      requires Valid() && t < |threads| && threads[t].HoldNew?
      modifies this`threads, state
      ensures Valid() && Value() == CreateSection(old(Value()), t, c, state.maxActiveSessions)
    {
      var taken := state.Find(c.id);
      if taken.None? {
        var oldest := state.Evict();
        MoveTo(t, Archiving(if oldest.Some? then [oldest.value] else [], None, ThenCreate(c.id)));
      }
      hide Lookup;
    }

    /** An environment that fails to start ends the request and gives the lock back. */
    method StartGame(t: nat, c: Choice)
      requires Valid() && t < |threads| && threads[t].CreateEnv?
      modifies this`newLock, this`threads
      ensures Valid() && Value() == CreateSection(old(Value()), t, c, state.maxActiveSessions)
    {
      if c.fails {
        newLock := None;
        MoveTo(t, Ended);
      } else {
        MoveTo(t, Insert(threads[t].id, c.maximum));
      }
    }

    /** A new session object enters the games under its number. */
    method AddGame(number: nat, maximum: int)
      requires Valid()
      modifies this`games
      ensures Valid() && Sessions() == old(Sessions())[number := NewSession(number, maximum)]
      ensures fresh(games.Values - old(games.Values))
    {
      ghost var before := Sessions();
      var game := new GameSessionState(number, maximum);
      games := games[number := game];
      assert Sessions() == before[number := game.Value()];
    }

    /** The new session gets the next number and the chosen identifier. */
    method RegisterGame(t: nat, c: Choice)
      requires Valid() && t < |threads| && threads[t].Insert?
      modifies this, state
      ensures Valid() && Value() == CreateSection(old(Value()), t, c, state.maxActiveSessions)
      ensures fresh(games.Values - old(games.Values))
    {
      hide CreateSection, With, NewSession, Sessions;
      InsertIs(Value(), t, c, state.maxActiveSessions);
      var Insert(id, maximum) := threads[t];
      var number := state.Register(id);
      AddGame(number, maximum);
      newLock := None;
      MoveTo(t, Ended);
    }

    /** A step request looks its session up. */
    method FindGame(t: nat, c: Choice)
      requires Valid() && t < |threads| && threads[t].FindStep?
      modifies this`threads
      ensures Valid() && Value() == StepSection(old(Value()), t, c)
    {
      var found := state.Find(threads[t].id);
      match found {
        case None => MoveTo(t, Ended);
        case Some(number) => MoveTo(t, Play(threads[t].id, number, threads[t].action));
      }
      hide Lookup;
    }

    /** The move, under the lock of the session. */
    method PlayMove(t: nat, c: Choice)
      requires Valid() && t < |threads| && threads[t].Play?
      modifies this`threads, games.Values
      ensures Valid() && games == old(games) && Value() == StepSection(old(Value()), t, c)
    {
      var Play(id, number, action) := threads[t];
      ghost var before := Sessions();
      var accepted := false;
      if number in games {
        accepted := games[number].Step(action, c.score, c.done);
      }
      assert Sessions() ==
        if accepted then before[number := Played(before[number], action, c.score, c.done)] else before;
      MoveTo(t, if accepted then AfterPlay(id, number, c.done) else Ended);
      hide Played;
    }

    /** A game that has ended is taken out, unless another request has taken it out before. */
    method RemoveFinished(t: nat, c: Choice)
      requires Valid() && t < |threads| && threads[t].AfterPlay?
      modifies this`threads, state
      ensures Valid() && Value() == StepSection(old(Value()), t, c)
    {
      var AfterPlay(id, number, done) := threads[t];
      var archive := false;
      if done {
        archive := state.TakeIfSame(id, number);
      }
      MoveTo(t, if archive then Archiving([number], None, ThenEnd) else Ended);
      hide Lookup, Without;
    }

    /** A close request takes its session out. */
    method TakeGame(t: nat)
      requires Valid() && t < |threads| && threads[t].FindClose?
      modifies this`threads, state
      ensures Valid() && Value() == CloseSection(old(Value()), t)
    {
      var taken := state.Take(threads[t].id);
      match taken {
        case None => MoveTo(t, Ended);
        case Some(number) => MoveTo(t, Archiving([number], None, ThenReply(number)));
      }
      hide Lookup, Without;
    }

    /** A request to close all takes every session out. */
    method TakeAllGames(t: nat)
      requires Valid() && t < |threads| && threads[t].FindAll?
      modifies this`threads, state
      ensures Valid() && Value() == CloseSection(old(Value()), t)
    {
      var numbers := state.TakeAll();
      MoveTo(t, Archiving(numbers, None, ThenEnd));
      hide Numbers;
    }

    /** A close request reads the final values after the archiving. */
    method AnswerClose(t: nat)
      requires Valid() && t < |threads| && threads[t].Answer?
      modifies this`threads, this`replies
      ensures Valid() && Value() == CloseSection(old(Value()), t)
    {
      var number := threads[t].number;
      if number in games {
        replies := replies + [ReplyOf(games[number].Value())];
        MoveTo(t, Ended);
      }
    }

    /** The archiving of one session: its values under its own lock, then the entry under the registry's. */
    method ArchiveGame(t: nat)
      requires Valid() && t < |threads| && threads[t].Archiving?
      modifies this`threads, state, games.Values
      ensures Valid() && games == old(games) && Value() == ArchiveSection(old(Value()), t)
    {
      var Archiving(queue, entry, next) := threads[t];
      if entry.Some? {
        state.Append(entry.value);
        MoveTo(t, Archiving(if queue == [] then [] else queue[1..], None, next));
      } else if queue == [] {
        MoveTo(t, Resume(next));
      } else if queue[0] in games {
        ghost var before := Sessions();
        var frozen := games[queue[0]].Freeze();
        assert Sessions() == before[queue[0] := before[queue[0]].(live := false)];
        MoveTo(t, Archiving(queue, Some(frozen), next));
      }
      hide EntryOf, Resume;
    }

    /** One critical section of a thread. */
    method AdvanceThread(t: nat, c: Choice)
      requires Valid() && t < |threads|
      modifies this, state, games.Values
      ensures Valid() && Value() == Advance(old(Value()), t, c, state.maxActiveSessions)
      ensures fresh(games.Values - old(games.Values))
    {
      ghost var s := Value();
      AdvanceIsSection(s, t, c, state.maxActiveSessions);
      EndedStays(s, t);
      hide *;
      match threads[t] {
        case WaitNew => TakeNewLock(t, c);
        case HoldNew => DecideCapacity(t, c);
        case CreateEnv(_) => StartGame(t, c);
        case Insert(_, _) => RegisterGame(t, c);
        case FindStep(_, _) => FindGame(t, c);
        case Play(_, _, _) => PlayMove(t, c);
        case AfterPlay(_, _, _) => RemoveFinished(t, c);
        case FindClose(_) => TakeGame(t);
        case FindAll => TakeAllGames(t);
        case Archiving(_, _, _) => ArchiveGame(t);
        case Answer(_) => AnswerClose(t);
        case Ended =>
      }
    }

    /** Serves any requests, their threads taking turns as the events say. */
    method Serve(events: seq<Event>)
      requires Valid()
      modifies this, state, games.Values
      ensures Valid() && Value() == Run(old(Value()), events, state.maxActiveSessions)
    {
      ghost var goal := Run(Value(), events, state.maxActiveSessions);
      assert events[0..] == events;
      for k := 0 to |events|
        invariant Valid() && fresh(games.Values - old(games.Values))
        invariant Run(Value(), events[k..], state.maxActiveSessions) == goal
      {
        RunStep(Value(), events, k, state.maxActiveSessions);
        hide Run, Advance;
        ghost var s := Value();
        match events[k] {
          case Begin(request) => threads := threads + [Entrance(request)];
          case Go(t, choice) =>
            if t < |threads| {
              AdvanceThread(t, choice);
            }
        }
        assert Value() == Next(s, events[k], state.maxActiveSessions);
      }
    }
  }

  /** A server from its start: its objects show the run, and the registry object respects its capacity. */
  method ServeFromStart(events: seq<Event>, maxActiveSessions: nat) returns (app: Application)
    requires maxActiveSessions >= 1
    ensures app.Value() == Run(Initial(), events, maxActiveSessions)
    ensures |app.state.sessions| <= maxActiveSessions
  {
    app := new Application(maxActiveSessions);
    app.Serve(events);
    RegistryIsBounded(events, maxActiveSessions);
    hide Run;
  }

  lemma RunStep(s: Server, events: seq<Event>, k: nat, max: nat)
    requires max >= 1 && k < |events|
    ensures Run(s, events[k..], max) == Run(Next(s, events[k], max), events[k + 1..], max)
  {
    assert events[k..][0] == events[k] && events[k..][1..] == events[k + 1..];
  }

  lemma InsertIs(s: Server, t: nat, c: Choice, max: nat)
    requires t < |s.threads| && max >= 1 && s.threads[t].Insert?
    ensures
      var Insert(id, maximum) := s.threads[t];
      var number := s.store.nextNumber;
      CreateSection(s, t, c, max) == Server(
        Store(With(s.store.registry, id, number), s.store.history, number + 1),
        s.sessions[number := NewSession(number, maximum)], None, s.threads[t := Ended], s.replies)
  {
    hide With, NewSession;
  }

  lemma EndedStays(s: Server, t: nat)
    requires t < |s.threads|
    ensures s.threads[t] == Ended ==> CloseSection(s, t) == s
  {
  }
}
