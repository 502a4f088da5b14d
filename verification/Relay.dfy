/** The two-way byte relay of the CONNECT tunnel (runtime_assets/codex_connect_proxy.py). */
module Relay {
  import opened Wrappers
  import HelloReader
  import Sequences

  const MAX_DIRECTION_BUFFER_BYTES := 1048576
  const MAX_TUNNEL_BYTES := 268435456
  const RELAY_CHUNK_BYTES := 65536

  // ----------------------------------------------------------------- the environment

  /** A non-blocking `recv`: no data yet, a connection error, or data (none means end of file). */
  datatype RecvOutcome = RecvBlocks | RecvFails | RecvData(available: seq<byte>)

  /** A non-blocking `send`: no room, a connection error, or room for up to `limit` bytes. */
  datatype SendOutcome = SendBlocks | SendFails | SendTakes(limit: nat)

  /** What one socket reports, and how its calls turn out if they are made. */
  datatype Readiness = Readiness(readable: bool, writable: bool, recv: RecvOutcome, send: SendOutcome)

  /** One turn of the loop as the environment plays it: whether a time limit has run out, what
      both sockets report, and which of them the selector lists first. */
  datatype Round = Round(timeUp: bool, client: Readiness, upstream: Readiness, clientFirst: bool)

  datatype Stop = TimeUp | BudgetSpent | BothClosed | NothingRegistered | NoEvents | ConnectionFailed

  // ----------------------------------------------------------------- states, as values

  /** One direction: bytes pending between its read side and its write side, and the history of
      bytes read from the source and bytes handed to the sink. */
  datatype Pipe = Pipe(
    pending: seq<byte>,
    readOpen: bool,
    writeShutdown: bool,
    received: seq<byte>,
    delivered: seq<byte>,
    eof: bool)

  /** `up` runs from the client to the upstream server, `down` the other way. */
  datatype State = State(up: Pipe, down: Pipe, transferred: nat)

  datatype Side = Client | Upstream

  datatype Interest = Interest(read: bool, write: bool)

  function Start(preface: seq<byte>): State {
    State(Pipe(preface, true, false, [], [], false), Pipe([], true, false, [], [], false), |preface|)
  }

  /** What a socket is watched for: reading feeds one pipe, writing drains the other. */
  function InterestIn(source: Pipe, sink: Pipe, transferred: nat): Interest {
    Interest(
      source.readOpen && |source.pending| < MAX_DIRECTION_BUFFER_BYTES && transferred < MAX_TUNNEL_BYTES,
      sink.pending != [] && !sink.writeShutdown)
  }

  function InterestOf(s: State, side: Side): Interest {
    if side == Client then InterestIn(s.up, s.down, s.transferred) else InterestIn(s.down, s.up, s.transferred)
  }

  predicate Watched(i: Interest) {
    i.read || i.write
  }

  function Min(a: int, b: int): int {
    if a < b then a else b
  }

  function Capacity(pending: nat, transferred: nat): int {
    Min(RELAY_CHUNK_BYTES, Min(MAX_DIRECTION_BUFFER_BYTES - pending, MAX_TUNNEL_BYTES - transferred))
  }

  /** A read into one pipe: the pipe and the number of bytes read, or no result on an error. */
  function ReadPipe(p: Pipe, transferred: nat, recv: RecvOutcome): Option<(Pipe, nat)> {
    var capacity := Capacity(|p.pending|, transferred);
    if capacity <= 0 then Some((p.(readOpen := false), 0))
    else
      match recv
      case RecvBlocks => Some((p, 0))
      case RecvFails => None
      case RecvData(available) =>
        var chunk := available[..Min(capacity, |available|)];
        if chunk == [] then Some((p.(readOpen := false, eof := true), 0))
        else Some((p.(pending := p.pending + chunk, received := p.received + chunk), |chunk|))
  }

  function WritePipe(p: Pipe, send: SendOutcome): Option<Pipe> {
    match send
    case SendBlocks => Some(p)
    case SendFails => None
    case SendTakes(limit) =>
      var sent := Min(limit, |p.pending|);
      Some(p.(pending := p.pending[sent..], delivered := p.delivered + p.pending[..sent]))
  }

  function CloseDrained(p: Pipe): Pipe {
    if !p.readOpen && p.pending == [] then p.(writeShutdown := true) else p
  }

  /** Both shutdown tests at the head of a turn. */
  function CloseSides(s: State): State {
    s.(up := CloseDrained(s.up), down := CloseDrained(s.down))
  }

  /** The events of one socket: read into `source`, then write from `sink`. */
  function Serve(source: Pipe, sink: Pipe, transferred: nat, ready: Readiness, watched: Interest): (Pipe, Pipe, nat, bool) {
    var afterRead :=
      if ready.readable && watched.read && source.readOpen then ReadPipe(source, transferred, ready.recv)
      else Some((source, 0));
    if afterRead.None? then (source, sink, transferred, false)
    else
      var (source', count) := afterRead.value;
      var afterWrite :=
        if ready.writable && watched.write && sink.pending != [] then WritePipe(sink, ready.send) else Some(sink);
      if afterWrite.None? then (source', sink, transferred + count, false)
      else (source', afterWrite.value, transferred + count, true)
  }

  function ServeSide(s: State, side: Side, round: Round, watched: Interest): (State, bool) {
    if side == Client then
      var (up, down, transferred, alive) := Serve(s.up, s.down, s.transferred, round.client, watched);
      (State(up, down, transferred), alive)
    else
      var (down, up, transferred, alive) := Serve(s.down, s.up, s.transferred, round.upstream, watched);
      (State(up, down, transferred), alive)
  }

  predicate HasEvent(ready: Readiness, watched: Interest) {
    (ready.readable && watched.read) || (ready.writable && watched.write)
  }

  function ServeBoth(s: State, round: Round, client: Interest, upstream: Interest): (State, Option<Stop>) {
    var first := if round.clientFirst then Client else Upstream;
    var second := if round.clientFirst then Upstream else Client;
    var (s1, alive1) := ServeSide(s, first, round, if round.clientFirst then client else upstream);
    if !alive1 then (s1, Some(ConnectionFailed))
    else
      var (s2, alive2) := ServeSide(s1, second, round, if round.clientFirst then upstream else client);
      (s2, if alive2 then None else Some(ConnectionFailed))
  }

  /** One turn of the relay loop. */
  function Turn(s: State, round: Round): (State, Option<Stop>) {
    if round.timeUp then (s, Some(TimeUp))
    else if s.transferred >= MAX_TUNNEL_BYTES && s.down.pending == [] && s.up.pending == [] then (s, Some(BudgetSpent))
    else if !s.up.readOpen && !s.down.readOpen && s.down.pending == [] && s.up.pending == [] then (s, Some(BothClosed))
    else
      var closed := CloseSides(s);
      var client := InterestOf(closed, Client);
      var upstream := InterestOf(closed, Upstream);
      if !Watched(client) && !Watched(upstream) then (closed, Some(NothingRegistered))
      else if !HasEvent(round.client, client) && !HasEvent(round.upstream, upstream) then (closed, Some(NoEvents))
      else ServeBoth(closed, round, client, upstream)
  }

  /** The relay over a finite play of the environment. */
  function Run(s: State, rounds: seq<Round>): (State, Option<Stop>)
    decreases |rounds|
  {
    if rounds == [] then (s, None)
    else
      var (next, stop) := Turn(s, rounds[0]);
      if stop.Some? then (next, stop) else Run(next, rounds[1..])
  }

  // ------------------------------------------------------------------------ the relay

  /** One direction of a running relay. */
  class Direction {
    var pending: seq<byte>
    var readOpen: bool
    var writeShutdown: bool
    ghost var received: seq<byte>
    ghost var delivered: seq<byte>
    ghost var eof: bool

    constructor (preface: seq<byte>)
      ensures Value() == Pipe(preface, true, false, [], [], false)
    {
      pending, readOpen, writeShutdown := preface, true, false;
      received, delivered, eof := [], [], false;
    }

    ghost function Value(): Pipe
      reads this
    {
      Pipe(pending, readOpen, writeShutdown, received, delivered, eof)
    }

    /** Hands pending bytes to the sink; false on a connection error. */
    method WriteFrom(send: SendOutcome) returns (alive: bool)
      modifies this
      ensures alive == WritePipe(old(Value()), send).Some?
      ensures Value() == if alive then WritePipe(old(Value()), send).value else old(Value())
    {
      match send
      case SendBlocks => return true;
      case SendFails => return false;
      case SendTakes(limit) =>
        var sent := Min(limit, |pending|);
        if sent != 0 {
          delivered := delivered + pending[..sent];
          pending := pending[sent..];
        } else {
          assert pending[0..] == pending && delivered + pending[..0] == delivered;
        }
        return true;
    }

    method ShutDownWhenDrained()
      modifies this
      ensures Value() == CloseDrained(old(Value()))
    {
      if !readOpen && |pending| == 0 && !writeShutdown {
        writeShutdown := true;
      }
    }
  }

  /** A running relay: the two directions, the bytes moved so far, the selector's registrations. */
  class Tunnel {
    const up: Direction
    const down: Direction
    var transferred: nat
    var registered: map<Side, Interest>

    ghost predicate Valid() {
      up != down
    }

    ghost function Value(): State
      reads this, up, down
    {
      State(up.Value(), down.Value(), transferred)
    }

    constructor (preface: seq<byte>)
      ensures Valid() && fresh(up) && fresh(down)
      ensures Value() == Start(preface) && registered == map[]
    {
      up := new Direction(preface);
      down := new Direction([]);
      transferred := |preface|;
      registered := map[];
    }

    function Interests(side: Side): (i: Interest)
      reads this, up, down
      ensures i == InterestOf(Value(), side)
    {
      var source := if side == Client then up else down;
      var sink := if side == Client then down else up;
      Interest(
        source.readOpen && |source.pending| < MAX_DIRECTION_BUFFER_BYTES && transferred < MAX_TUNNEL_BYTES,
        |sink.pending| > 0 && !sink.writeShutdown)
    }

    /** Brings the selector's registration of one socket up to date. */
    method Refresh(side: Side)
      modifies this`registered
      ensures registered == if Watched(InterestOf(Value(), side)) then old(registered)[side := InterestOf(Value(), side)]
                            else old(registered) - {side}
    {
      var events := Interests(side);
      if side !in registered {
        if Watched(events) {
          registered := registered[side := events];
        }
      } else if Watched(events) {
        registered := registered[side := events];
      } else {
        registered := registered - {side};
      }
    }

    /** Reads into one direction within the chunk, buffer and budget limits. */
    method ReadInto(d: Direction, recv: RecvOutcome) returns (alive: bool)
      requires Valid() && (d == up || d == down)
      modifies this`transferred, d
      ensures var after := ReadPipe(old(d.Value()), old(transferred), recv);
              && alive == after.Some?
              && d.Value() == (if alive then after.value.0 else old(d.Value()))
              && transferred == old(transferred) + (if alive then after.value.1 else 0)
    {
      var capacity := Capacity(|d.pending|, transferred);
      if capacity <= 0 {
        d.readOpen := false;
        return true;
      }
      match recv
      case RecvBlocks => return true;
      case RecvFails => return false;
      case RecvData(available) =>
        var chunk := available[..Min(capacity, |available|)];
        if |chunk| == 0 {
          d.readOpen := false;
          d.eof := true;
          return true;
        }
        d.pending := d.pending + chunk;
        d.received := d.received + chunk;
        transferred := transferred + |chunk|;
        return true;
    }

    /** Handles the events the selector lists for one socket. */
    method HandleEvents(side: Side, ready: Readiness, watched: Interest) returns (alive: bool)
      requires Valid()
      modifies this`transferred, up, down
      ensures var source := if side == Client then old(up.Value()) else old(down.Value());
              var sink := if side == Client then old(down.Value()) else old(up.Value());
              var (source', sink', transferred', alive') := Serve(source, sink, old(transferred), ready, watched);
              && alive == alive' && transferred == transferred'
              && up.Value() == (if side == Client then source' else sink')
              && down.Value() == (if side == Client then sink' else source')
    {
      var source := if side == Client then up else down;
      var sink := if side == Client then down else up;
      if ready.readable && watched.read && source.readOpen {
        var ok := ReadInto(source, ready.recv);
        if !ok {
          return false;
        }
      }
      if ready.writable && watched.write && |sink.pending| > 0 {
        var ok := sink.WriteFrom(ready.send);
        if !ok {
          return false;
        }
      }
      return true;
    }

    /** Handles the events of both sockets, in the selector's order, until an error. */
    method HandleAll(round: Round, client: Interest, upstream: Interest) returns (stop: Option<Stop>)
      requires Valid()
      modifies this`transferred, up, down
      ensures (Value(), stop) == ServeBoth(old(Value()), round, client, upstream)
    {
      var alive;
      if round.clientFirst {
        alive := HandleEvents(Client, round.client, client);
      } else {
        alive := HandleEvents(Upstream, round.upstream, upstream);
      }
      if !alive {
        return Some(ConnectionFailed);
      }
      if round.clientFirst {
        alive := HandleEvents(Upstream, round.upstream, upstream);
      } else {
        alive := HandleEvents(Client, round.client, client);
      }
      return if alive then None else Some(ConnectionFailed);
    }

    /** Brings both registrations up to date and tells what each socket is watched for. */
    method RefreshBoth() returns (client: Interest, upstream: Interest)
      modifies this`registered
      ensures client == InterestOf(Value(), Client) && upstream == InterestOf(Value(), Upstream)
      ensures |registered| == 0 <==> !Watched(client) && !Watched(upstream)
    {
      Refresh(Client);
      Refresh(Upstream);
      var none := Interest(false, false);
      client := if Client in registered then registered[Client] else none;
      upstream := if Upstream in registered then registered[Upstream] else none;
      if !Watched(client) && !Watched(upstream) {
        forall side ensures side !in registered {
          assert side == Client || side == Upstream;
        }
        assert registered == map[];
      } else {
        assert registered != map[];
      }
    }

    method RunTurn(round: Round) returns (stop: Option<Stop>)
      requires Valid()
      modifies this, up, down
      ensures (Value(), stop) == Turn(old(Value()), round)
    {
      if round.timeUp {
        return Some(TimeUp);
      }
      if transferred >= MAX_TUNNEL_BYTES && |down.pending| == 0 && |up.pending| == 0 {
        return Some(BudgetSpent);
      }
      if !up.readOpen && !down.readOpen && |down.pending| == 0 && |up.pending| == 0 {
        return Some(BothClosed);
      }
      up.ShutDownWhenDrained();
      down.ShutDownWhenDrained();
      var client, upstream := RefreshBoth();
      if |registered| == 0 {
        return Some(NothingRegistered);
      }
      hide InterestOf, ServeBoth, CloseDrained;
      if !HasEvent(round.client, client) && !HasEvent(round.upstream, upstream) {
        return Some(NoEvents);
      }
      stop := HandleAll(round, client, upstream);
    }

    method RunLoop(rounds: seq<Round>) returns (stop: Option<Stop>)
      requires Valid()
      modifies this, up, down
      ensures (Value(), stop) == Run(old(Value()), rounds)
    {
      var turn := 0;
      assert rounds[0..] == rounds;
      while turn < |rounds|
        invariant 0 <= turn <= |rounds|
        invariant Run(Value(), rounds[turn..]) == Run(old(Value()), rounds)
      {
        assert rounds[turn..][0] == rounds[turn] && rounds[turn..][1..] == rounds[turn + 1..];
        stop := RunTurn(rounds[turn]);
        if stop.Some? {
          return;
        }
        turn := turn + 1;
      }
      return None;
    }
  }

  /** Relays between a client and an upstream server; refuses a preface that does not fit. */
  method RelayTunnel(preface: seq<byte>, rounds: seq<Round>) returns (ghost final: State, stop: Option<Stop>, accepted: bool)
    ensures accepted <==> |preface| <= MAX_DIRECTION_BUFFER_BYTES
    ensures accepted ==> (final, stop) == Run(Start(preface), rounds)
  {
    if |preface| > MAX_DIRECTION_BUFFER_BYTES {
      return Start([]), None, false;
    }
    var tunnel := new Tunnel(preface);
    stop := tunnel.RunLoop(rounds);
    return tunnel.Value(), stop, true;
  }

  // -------------------------------------------------------------------- the invariant

  /** Nothing is lost, invented or reordered: what was handed on plus what is pending is what
      came in, after `preface`. */
  predicate Conserves(p: Pipe, preface: seq<byte>) {
    p.delivered + p.pending == preface + p.received
  }

  predicate PipeInvariant(p: Pipe, preface: seq<byte>, transferred: nat) {
    && Conserves(p, preface)
    && |p.pending| <= MAX_DIRECTION_BUFFER_BYTES
    && (p.writeShutdown ==> !p.readOpen && p.pending == [])
    && (!p.readOpen ==> p.eof || transferred == MAX_TUNNEL_BYTES)
    && (p.eof ==> !p.readOpen)
  }

  predicate Invariant(s: State, preface: seq<byte>) {
    && PipeInvariant(s.up, preface, s.transferred)
    && PipeInvariant(s.down, [], s.transferred)
    && s.transferred == |preface| + |s.up.received| + |s.down.received|
    && s.transferred <= MAX_TUNNEL_BYTES
  }

  lemma StartIsGood(preface: seq<byte>)
    requires |preface| <= MAX_DIRECTION_BUFFER_BYTES
    ensures Invariant(Start(preface), preface)
  {
    assert [] + preface == preface + [];
  }

  lemma ReadKeeps(p: Pipe, preface: seq<byte>, transferred: nat, recv: RecvOutcome)
    requires PipeInvariant(p, preface, transferred) && transferred <= MAX_TUNNEL_BYTES && p.readOpen && !p.writeShutdown
    requires |p.pending| < MAX_DIRECTION_BUFFER_BYTES
    requires ReadPipe(p, transferred, recv).Some?
    ensures var (after, count) := ReadPipe(p, transferred, recv).value;
            && PipeInvariant(after, preface, transferred + count) && transferred + count <= MAX_TUNNEL_BYTES
            && |after.received| == |p.received| + count && !after.writeShutdown
  {
    if Capacity(|p.pending|, transferred) > 0 && recv.RecvData? {
      var chunk := recv.available[..Min(Capacity(|p.pending|, transferred), |recv.available|)];
      Sequences.AppendAssociates(p.delivered, p.pending, chunk);
      Sequences.AppendAssociates(preface, p.received, chunk);
    }
  }

  lemma WriteKeeps(p: Pipe, preface: seq<byte>, transferred: nat, send: SendOutcome)
    requires PipeInvariant(p, preface, transferred) && WritePipe(p, send).Some?
    ensures PipeInvariant(WritePipe(p, send).value, preface, transferred)
  {
    if send.SendTakes? {
      var sent := Min(send.limit, |p.pending|);
      Sequences.TakeThenDrop(p.pending, sent);
      Sequences.AppendAssociates(p.delivered, p.pending[..sent], p.pending[sent..]);
    }
  }

  lemma ServeKeeps(source: Pipe, sink: Pipe, sourcePreface: seq<byte>, sinkPreface: seq<byte>,
                   transferred: nat, ready: Readiness, watched: Interest)
    requires PipeInvariant(source, sourcePreface, transferred) && PipeInvariant(sink, sinkPreface, transferred)
    requires transferred <= MAX_TUNNEL_BYTES
    requires watched.read ==> |source.pending| < MAX_DIRECTION_BUFFER_BYTES
    ensures var (source', sink', transferred', alive) := Serve(source, sink, transferred, ready, watched);
            && PipeInvariant(source', sourcePreface, transferred') && PipeInvariant(sink', sinkPreface, transferred')
            && transferred <= transferred' <= MAX_TUNNEL_BYTES && sink'.received == sink.received
            && |source'.received| - |source.received| == transferred' - transferred
            && |sink'.pending| <= |sink.pending|
  {
    hide PipeInvariant, ReadPipe, WritePipe;
    var count := 0;
    if ready.readable && watched.read && source.readOpen {
      OpenIsNotShut(source, sourcePreface, transferred);
      if ReadPipe(source, transferred, ready.recv).Some? {
        ReadKeeps(source, sourcePreface, transferred, ready.recv);
        count := ReadPipe(source, transferred, ready.recv).value.1;
      }
    }
    MoreTransferred(sink, sinkPreface, transferred, transferred + count);
    if ready.writable && watched.write && sink.pending != [] && WritePipe(sink, ready.send).Some? {
      WriteKeeps(sink, sinkPreface, transferred + count, ready.send);
      WriteShrinks(sink, ready.send);
    }
  }

  lemma OpenIsNotShut(p: Pipe, preface: seq<byte>, transferred: nat)
    requires PipeInvariant(p, preface, transferred) && p.readOpen
    ensures !p.writeShutdown
  {
  }

  lemma WriteShrinks(p: Pipe, send: SendOutcome)
    requires WritePipe(p, send).Some?
    ensures WritePipe(p, send).value.received == p.received && |WritePipe(p, send).value.pending| <= |p.pending|
  {
  }

  /** Bytes read for the other direction do not disturb a pipe, within the budget. */
  lemma MoreTransferred(p: Pipe, preface: seq<byte>, transferred: nat, later: nat)
    requires PipeInvariant(p, preface, transferred) && transferred <= later <= MAX_TUNNEL_BYTES
    ensures PipeInvariant(p, preface, later)
  {
  }

  lemma CloseKeeps(s: State, preface: seq<byte>)
    requires Invariant(s, preface)
    ensures Invariant(CloseSides(s), preface)
  {
  }

  lemma ServeSideKeeps(s: State, preface: seq<byte>, side: Side, round: Round, watched: Interest)
    requires Invariant(s, preface)
    requires watched.read ==> |(if side == Client then s.up else s.down).pending| < MAX_DIRECTION_BUFFER_BYTES
    ensures Invariant(ServeSide(s, side, round, watched).0, preface)
    ensures |(if side == Client then ServeSide(s, side, round, watched).0.down else ServeSide(s, side, round, watched).0.up).pending|
         <= |(if side == Client then s.down else s.up).pending|
  {
    hide PipeInvariant, Serve;
    if side == Client {
      ServeKeeps(s.up, s.down, preface, [], s.transferred, round.client, watched);
    } else {
      ServeKeeps(s.down, s.up, [], preface, s.transferred, round.upstream, watched);
    }
  }

  lemma TurnKeeps(s: State, preface: seq<byte>, round: Round)
    requires Invariant(s, preface)
    ensures Invariant(Turn(s, round).0, preface)
  {
    hide Invariant, ServeSide;
    CloseKeeps(s, preface);
    var closed := CloseSides(s);
    var client := InterestOf(closed, Client);
    var upstream := InterestOf(closed, Upstream);
    if round.clientFirst {
      ServeSideKeeps(closed, preface, Client, round, client);
      ServeSideKeeps(ServeSide(closed, Client, round, client).0, preface, Upstream, round, upstream);
    } else {
      ServeSideKeeps(closed, preface, Upstream, round, upstream);
      ServeSideKeeps(ServeSide(closed, Upstream, round, upstream).0, preface, Client, round, client);
    }
  }

  /** Safety over whole runs: the invariant holds after any play of the environment. */
  lemma {:induction false} RunKeeps(s: State, preface: seq<byte>, rounds: seq<Round>)
    requires Invariant(s, preface)
    ensures Invariant(Run(s, rounds).0, preface)
    decreases |rounds|
  {
    if rounds != [] {
      TurnKeeps(s, preface, rounds[0]);
      if Turn(s, rounds[0]).1.None? {
        RunKeeps(Turn(s, rounds[0]).0, preface, rounds[1..]);
      }
    }
  }

  // ------------------------------------------------------------ what the exits mean

  /** Leaving because the budget is spent or both sides are closed leaves nothing undelivered. */
  lemma {:induction false} CleanExitDeliversEverything(s: State, preface: seq<byte>, rounds: seq<Round>)
    requires Invariant(s, preface)
    ensures var (final, stop) := Run(s, rounds);
            stop == Some(BudgetSpent) || stop == Some(BothClosed) ==>
              final.up.delivered == preface + final.up.received && final.down.delivered == final.down.received
    decreases |rounds|
  {
    if rounds != [] {
      TurnKeeps(s, preface, rounds[0]);
      var (next, stop) := Turn(s, rounds[0]);
      if stop.None? {
        CleanExitDeliversEverything(next, preface, rounds[1..]);
      } else if stop == Some(BudgetSpent) || stop == Some(BothClosed) {
        assert next.up.pending == [] && next.down.pending == [];
        assert next.up.delivered + [] == next.up.delivered;
        assert next.down.delivered + [] == next.down.delivered && [] + next.down.received == next.down.received;
      }
    }
  }

  /** The selector always has something to watch when it is asked. */
  lemma SomethingIsWatched(s: State, preface: seq<byte>, round: Round)
    requires Invariant(s, preface)
    ensures Turn(s, round).1 != Some(NothingRegistered)
  {
  }

  lemma {:induction false} RunNeverFindsNothing(s: State, preface: seq<byte>, rounds: seq<Round>)
    requires Invariant(s, preface)
    ensures Run(s, rounds).1 != Some(NothingRegistered)
    decreases |rounds|
  {
    if rounds != [] {
      SomethingIsWatched(s, preface, rounds[0]);
      TurnKeeps(s, preface, rounds[0]);
      if Turn(s, rounds[0]).1.None? {
        RunNeverFindsNothing(Turn(s, rounds[0]).0, preface, rounds[1..]);
      }
    }
  }

  // --------------------------------------------------------------------- half-close

  /** What a run may still do to a pipe: closed sides stay closed, histories only grow, nothing is
      read into a closed pipe, and a pipe whose write side is shut down does not change any more. */
  predicate Develops(before: Pipe, after: Pipe) {
    && (after.readOpen ==> before.readOpen)
    && (before.writeShutdown ==> after == before)
    && before.received <= after.received && before.delivered <= after.delivered
    && (!before.readOpen ==> after.received == before.received)
  }

  /** A single turn shuts a write side down only when its source is closed and nothing is pending. */
  predicate Follows(before: Pipe, after: Pipe) {
    && Develops(before, after)
    && (after.writeShutdown && !before.writeShutdown ==> !before.readOpen && before.pending == [])
  }

  /** Serving a socket moves both pipes on, and shuts nothing down. */
  predicate MovesOn(before: Pipe, after: Pipe) {
    Follows(before, after) && after.writeShutdown == before.writeShutdown
  }

  lemma MovesOnTransitive(a: Pipe, b: Pipe, c: Pipe)
    requires MovesOn(a, b) && MovesOn(b, c)
    ensures MovesOn(a, c)
  {
  }

  lemma ServeMovesOn(source: Pipe, sink: Pipe, transferred: nat, ready: Readiness, watched: Interest)
    requires source.writeShutdown ==> !source.readOpen
    requires sink.writeShutdown ==> sink.pending == []
    ensures var (source', sink', transferred', alive) := Serve(source, sink, transferred, ready, watched);
            MovesOn(source, source') && MovesOn(sink, sink')
  {
  }

  lemma ServeSideMovesOn(s: State, preface: seq<byte>, side: Side, round: Round, watched: Interest)
    requires Invariant(s, preface)
    ensures MovesOn(s.up, ServeSide(s, side, round, watched).0.up) && MovesOn(s.down, ServeSide(s, side, round, watched).0.down)
  {
    hide Serve, MovesOn;
    if side == Client {
      ServeMovesOn(s.up, s.down, s.transferred, round.client, watched);
    } else {
      ServeMovesOn(s.down, s.up, s.transferred, round.upstream, watched);
    }
  }

  lemma ServeBothMovesOn(s: State, preface: seq<byte>, round: Round)
    requires Invariant(s, preface)
    ensures var next := ServeBoth(s, round, InterestOf(s, Client), InterestOf(s, Upstream)).0;
            MovesOn(s.up, next.up) && MovesOn(s.down, next.down)
  {
    hide ServeSide, Invariant, MovesOn;
    var first := if round.clientFirst then Client else Upstream;
    var second := if round.clientFirst then Upstream else Client;
    var s1 := ServeSide(s, first, round, InterestOf(s, first)).0;
    var s2 := ServeSide(s1, second, round, InterestOf(s, second)).0;
    ServeSideMovesOn(s, preface, first, round, InterestOf(s, first));
    ServeSideKeeps(s, preface, first, round, InterestOf(s, first));
    ServeSideMovesOn(s1, preface, second, round, InterestOf(s, second));
    MovesOnTransitive(s.up, s1.up, s2.up);
    MovesOnTransitive(s.down, s1.down, s2.down);
  }

  lemma TurnFollows(s: State, preface: seq<byte>, round: Round)
    requires Invariant(s, preface)
    ensures Follows(s.up, Turn(s, round).0.up) && Follows(s.down, Turn(s, round).0.down)
  {
    CloseKeeps(s, preface);
    ServeBothMovesOn(CloseSides(s), preface, round);
    hide ServeBoth, InterestOf, PipeInvariant;
  }

  /** Over a whole run: histories only grow, closed sides stay closed, nothing enters a pipe whose
      read side is closed, and a pipe whose write side is shut down never changes again. */
  lemma {:induction false} RunFollows(s: State, preface: seq<byte>, rounds: seq<Round>)
    requires Invariant(s, preface)
    ensures Develops(s.up, Run(s, rounds).0.up) && Develops(s.down, Run(s, rounds).0.down)
    decreases |rounds|
  {
    if rounds != [] {
      TurnKeeps(s, preface, rounds[0]);
      TurnFollows(s, preface, rounds[0]);
      var (next, stop) := Turn(s, rounds[0]);
      if stop.None? {
        RunFollows(next, preface, rounds[1..]);
      }
    }
  }

  // -------------------------------------------------------------------- termination

  /** What a run can still spend. */
  function Measure(s: State): int {
    2 * (MAX_TUNNEL_BYTES - s.transferred) + |s.up.pending| + |s.down.pending|
      + (if s.up.readOpen then 1 else 0) + (if s.down.readOpen then 1 else 0)
  }

  /** Some byte was moved or some read side was closed. */
  predicate Productive(before: State, after: State) {
    before != after.(up := after.up.(writeShutdown := before.up.writeShutdown),
                     down := after.down.(writeShutdown := before.down.writeShutdown))
  }

  function PipeMeasure(p: Pipe): int {
    |p.pending| + if p.readOpen then 1 else 0
  }

  lemma ServeSpends(source: Pipe, sink: Pipe, transferred: nat, ready: Readiness, watched: Interest)
    ensures var (source', sink', transferred', alive) := Serve(source, sink, transferred, ready, watched);
            var before := PipeMeasure(source) + PipeMeasure(sink) - 2 * transferred;
            var after := PipeMeasure(source') + PipeMeasure(sink') - 2 * transferred';
            && source'.writeShutdown == source.writeShutdown && sink'.writeShutdown == sink.writeShutdown
            && (after < before || (source' == source && sink' == sink && transferred' == transferred))
  {
    if ready.writable && watched.write && sink.pending != [] && ready.send.SendTakes? && ready.send.limit == 0 {
      assert sink.pending[0..] == sink.pending && sink.delivered + sink.pending[..0] == sink.delivered;
    }
  }

  lemma ServeBothSpends(s: State, round: Round, client: Interest, upstream: Interest)
    ensures var next := ServeBoth(s, round, client, upstream).0;
            Measure(next) < Measure(s) || next == s
  {
    hide Serve;
    if round.clientFirst {
      ServeSpends(s.up, s.down, s.transferred, round.client, client);
      var s1 := ServeSide(s, Client, round, client).0;
      ServeSpends(s1.down, s1.up, s1.transferred, round.upstream, upstream);
    } else {
      ServeSpends(s.down, s.up, s.transferred, round.upstream, upstream);
      var s1 := ServeSide(s, Upstream, round, upstream).0;
      ServeSpends(s1.up, s1.down, s1.transferred, round.client, client);
    }
  }

  /** A turn spends some of the measure, or moves nothing. */
  lemma TurnSpends(s: State, round: Round)
    ensures Measure(Turn(s, round).0) <= Measure(s)
    ensures Productive(s, Turn(s, round).0) ==> Measure(Turn(s, round).0) < Measure(s)
  {
    var closed := CloseSides(s);
    ServeBothSpends(closed, round, InterestOf(closed, Client), InterestOf(closed, Upstream));
    hide ServeBoth, InterestOf;
  }

  function ProductiveTurns(s: State, rounds: seq<Round>): nat
    decreases |rounds|
  {
    if rounds == [] then 0
    else
      var (next, stop) := Turn(s, rounds[0]);
      (if Productive(s, next) then 1 else 0) + (if stop.Some? then 0 else ProductiveTurns(next, rounds[1..]))
  }

  /** However long the environment plays, the productive turns are bounded by the measure. */
  lemma {:induction false} ProductiveTurnsAreBounded(s: State, preface: seq<byte>, rounds: seq<Round>)
    requires Invariant(s, preface)
    ensures ProductiveTurns(s, rounds) <= Measure(s)
    decreases |rounds|
  {
    if rounds != [] {
      TurnSpends(s, rounds[0]);
      TurnKeeps(s, preface, rounds[0]);
      hide Turn, Productive;
      var (next, stop) := Turn(s, rounds[0]);
      if stop.None? {
        ProductiveTurnsAreBounded(next, preface, rounds[1..]);
      }
    }
  }

  // ------------------------------------------------------------ what a turn takes and sends

  predicate First(round: Round, side: Side) {
    round.clientFirst <==> side == Client
  }

  function Other(side: Side): Side {
    if side == Client then Upstream else Client
  }

  function ReadinessOf(round: Round, side: Side): Readiness {
    if side == Client then round.client else round.upstream
  }

  /** What the socket has to give. */
  function Offered(round: Round, side: Side): seq<byte> {
    var recv := ReadinessOf(round, side).recv;
    if recv.RecvData? then recv.available else []
  }

  /** The pipe that a socket feeds, and the pipe that drains into it. */
  function Source(s: State, side: Side): Pipe {
    if side == Client then s.up else s.down
  }

  function Sink(s: State, side: Side): Pipe {
    if side == Client then s.down else s.up
  }

  predicate Reads(s: State, round: Round, side: Side) {
    && ReadinessOf(round, side).readable && Source(s, side).readOpen
    && |Source(s, side).pending| < MAX_DIRECTION_BUFFER_BYTES && s.transferred < MAX_TUNNEL_BYTES
  }

  predicate Writes(s: State, round: Round, side: Side) {
    ReadinessOf(round, side).writable && Sink(s, side).pending != [] && !Sink(s, side).writeShutdown
  }

  /** The socket is served in this turn: it comes first, or the one before it did not fail. */
  predicate Reached(s: State, round: Round, side: Side) {
    var other, ready := Other(side), ReadinessOf(round, Other(side));
    && !round.timeUp
    && (First(round, side)
        || !((Reads(s, round, other) && ready.recv.RecvFails?) || (Writes(s, round, other) && ready.send.SendFails?)))
  }

  /** What the other socket has moved before: bytes taken out of the pipe that this one feeds, and bytes put
      into the pipe that drains into it. */
  datatype Ahead = Ahead(drained: nat, arrived: seq<byte>)

  /** What buffer, budget and chunk leave for a read. */
  function Room(s: State, side: Side, ahead: Ahead): int {
    var buffer := MAX_DIRECTION_BUFFER_BYTES - (|Source(s, side).pending| - ahead.drained);
    var budget := MAX_TUNNEL_BYTES - (s.transferred + |ahead.arrived|);
    if RELAY_CHUNK_BYTES <= buffer && RELAY_CHUNK_BYTES <= budget then RELAY_CHUNK_BYTES
    else if buffer <= budget then buffer else budget
  }

  /** A read takes all that the socket offers, as far as there is room. */
  function Takes(s: State, round: Round, side: Side, ahead: Ahead): (n: nat)
    ensures n <= |Offered(round, side)|
  {
    var offered, room := |Offered(round, side)|, Room(s, side, ahead);
    if !Reached(s, round, side) || !Reads(s, round, side) || room <= 0 then 0
    else if offered <= room then offered else room
  }

  /** A send gives the socket all there is for it, as far as it takes bytes; not after a failed read. */
  function Sends(s: State, round: Round, side: Side, ahead: Ahead): (n: nat)
    ensures n <= |Sink(s, side).pending + ahead.arrived|
  {
    var ready, there := ReadinessOf(round, side), |Sink(s, side).pending| + |ahead.arrived|;
    var broken := Reads(s, round, side) && Room(s, side, ahead) > 0 && ready.recv.RecvFails?;
    if !Reached(s, round, side) || !Writes(s, round, side) || broken || !ready.send.SendTakes? then 0
    else if ready.send.limit <= there then ready.send.limit else there
  }

  function AheadOf(s: State, round: Round, side: Side): Ahead {
    var other, none := Other(side), Ahead(0, []);
    if First(round, side) then none
    else Ahead(Sends(s, round, other, none), Offered(round, other)[..Takes(s, round, other, none)])
  }

  /** What a turn takes from a socket: a first part of what it offers. */
  function Taken(s: State, round: Round, side: Side): seq<byte> {
    Offered(round, side)[..Takes(s, round, side, AheadOf(s, round, side))]
  }

  /** What a turn sends to a socket. */
  function Sent(s: State, round: Round, side: Side): seq<byte> {
    var ahead := AheadOf(s, round, side);
    (Sink(s, side).pending + ahead.arrived)[..Sends(s, round, side, ahead)]
  }

  /** The turn finds the end of the stream of a socket. */
  predicate FindsEnd(s: State, round: Round, side: Side) {
    && Reached(s, round, side) && Reads(s, round, side) && Room(s, side, AheadOf(s, round, side)) > 0
    && ReadinessOf(round, side).recv == RecvData([])
  }

  /** The turn finds that the other socket has used up the budget. */
  predicate FindsNoRoom(s: State, round: Round, side: Side) {
    Reached(s, round, side) && Reads(s, round, side) && Room(s, side, AheadOf(s, round, side)) <= 0
  }

  /** What one turn does to the pipe that a socket feeds and to the one that drains into it. */
  predicate SideMoves(s: State, round: Round, side: Side, next: State) {
    var source, source', sink, sink' := Source(s, side), Source(next, side), Sink(s, side), Sink(next, side);
    && source'.received == source.received + Taken(s, round, side)
    && (source'.eof <==> source.eof || FindsEnd(s, round, side))
    && (source'.readOpen <==> source.readOpen && !FindsEnd(s, round, side) && !FindsNoRoom(s, round, side))
    && sink'.delivered == sink.delivered + Sent(s, round, side)
  }

  /** A read, by the room there is for it. */
  lemma ReadIs(p: Pipe, transferred: nat, recv: RecvOutcome, room: int)
    requires room <= RELAY_CHUNK_BYTES && room <= MAX_DIRECTION_BUFFER_BYTES - |p.pending|
    requires room <= MAX_TUNNEL_BYTES - transferred
    requires room == RELAY_CHUNK_BYTES || room == MAX_DIRECTION_BUFFER_BYTES - |p.pending|
             || room == MAX_TUNNEL_BYTES - transferred
    ensures
      var after := ReadPipe(p, transferred, recv);
      var n := if room <= 0 || !recv.RecvData? then 0
               else if |recv.available| <= room then |recv.available| else room;
      var chunk := if recv.RecvData? then recv.available[..n] else [];
      if room > 0 && recv.RecvFails? then after.None?
      else
        after == Some((p.(pending := p.pending + chunk, received := p.received + chunk,
                          readOpen := p.readOpen && !(room <= 0 || recv == RecvData([])),
                          eof := p.eof || (room > 0 && recv == RecvData([]))), n))
  {
    assert p.pending + [] == p.pending && p.received + [] == p.received;
  }

  /** A send that takes some bytes hands over the first of the pending ones. */
  lemma WriteIs(p: Pipe, send: SendOutcome)
    ensures
      var m := if !send.SendTakes? then 0 else if send.limit <= |p.pending| then send.limit else |p.pending|;
      if send.SendFails? then WritePipe(p, send).None?
      else WritePipe(p, send) == Some(p.(pending := p.pending[m..], delivered := p.delivered + p.pending[..m]))
  {
    assert p.pending[0..] == p.pending && p.delivered + p.pending[..0] == p.delivered;
  }

  /** Serving one socket, by the room there is for a read. */
  lemma ServeIs(source: Pipe, sink: Pipe, transferred: nat, ready: Readiness, watched: Interest, room: int, n: nat)
    requires room <= RELAY_CHUNK_BYTES && room <= MAX_DIRECTION_BUFFER_BYTES - |source.pending|
    requires room <= MAX_TUNNEL_BYTES - transferred
    requires room == RELAY_CHUNK_BYTES || room == MAX_DIRECTION_BUFFER_BYTES - |source.pending|
             || room == MAX_TUNNEL_BYTES - transferred
    requires
      var reading := ready.readable && watched.read && source.readOpen && room > 0;
      n == if !reading || !ready.recv.RecvData? then 0
           else if |ready.recv.available| <= room then |ready.recv.available| else room
    ensures
      var reading := ready.readable && watched.read && source.readOpen;
      var writing := ready.writable && watched.write && sink.pending != [];
      var broken := reading && room > 0 && ready.recv.RecvFails?;
      var chunk := if ready.recv.RecvData? then ready.recv.available[..n] else [];
      var m := if !writing || broken || !ready.send.SendTakes? then 0
               else if ready.send.limit <= |sink.pending| then ready.send.limit else |sink.pending|;
      var (source', sink', transferred', alive) := Serve(source, sink, transferred, ready, watched);
      && source' == source.(pending := source.pending + chunk, received := source.received + chunk,
           readOpen := source.readOpen && !(reading && (room <= 0 || ready.recv == RecvData([]))),
           eof := source.eof || (reading && room > 0 && ready.recv == RecvData([])))
      && sink' == sink.(pending := sink.pending[m..], delivered := sink.delivered + sink.pending[..m])
      && transferred' == transferred + n
      && (alive <==> !broken && !(writing && ready.send.SendFails?))
  {
    ReadIs(source, transferred, ready.recv, room);
    WriteIs(sink, ready.send);
    hide ReadPipe, WritePipe;
    assert source.pending + [] == source.pending && source.received + [] == source.received;
    assert sink.pending[0..] == sink.pending && sink.delivered + sink.pending[..0] == sink.delivered;
  }

  /** What a socket is watched for and then ready for is what is read and written. */
  lemma WatchedIs(s: State, round: Round, side: Side)
    ensures
      var closed, ready := CloseSides(s), ReadinessOf(round, side);
      var watched := InterestOf(closed, side);
      && (Reads(s, round, side) <==> ready.readable && watched.read)
      && (Reads(s, round, side) ==> Source(closed, side).readOpen)
      && (Writes(s, round, side) <==> ready.writable && watched.write)
      && (Writes(s, round, side) ==> Sink(closed, side).pending != [])
  {
  }

  lemma ClosedIs(s: State, side: Side)
    ensures
      var closed := CloseSides(s);
      && closed.transferred == s.transferred
      && Source(closed, side) == Source(s, side).(writeShutdown := Source(closed, side).writeShutdown)
      && Sink(closed, side) == Sink(s, side).(writeShutdown := Sink(closed, side).writeShutdown)
  {
  }

  /** The state after one socket has been served, stated for what the other one has moved before. */
  predicate Served(s: State, s1: State, round: Round, side: Side, ahead: Ahead, s2: State) {
    var source, sink, source', sink' := Source(s1, side), Sink(s1, side), Source(s2, side), Sink(s2, side);
    var n, m, room := Takes(s, round, side, ahead), Sends(s, round, side, ahead), Room(s, side, ahead);
    var recv := ReadinessOf(round, side).recv;
    && source' == source.(
         pending := source.pending + Offered(round, side)[..n], received := source.received + Offered(round, side)[..n],
         readOpen := source.readOpen && !(Reads(s, round, side) && (room <= 0 || recv == RecvData([]))),
         eof := source.eof || (Reads(s, round, side) && room > 0 && recv == RecvData([])))
    && m <= |sink.pending|
    && sink' == sink.(pending := sink.pending[m..], delivered := sink.delivered + sink.pending[..m])
    && s2.transferred == s1.transferred + n
  }

  lemma SideIsServed(s: State, s1: State, round: Round, side: Side, ahead: Ahead)
    requires Reached(s, round, side)
    requires |Source(s1, side).pending| == |Source(s, side).pending| - ahead.drained
    requires Source(s1, side).readOpen == Source(s, side).readOpen
    requires |Sink(s1, side).pending| == |Sink(s, side).pending| + |ahead.arrived|
    requires s1.transferred == s.transferred + |ahead.arrived|
    ensures
      var (s2, alive) := ServeSide(s1, side, round, InterestOf(CloseSides(s), side));
      var ready := ReadinessOf(round, side);
      && Served(s, s1, round, side, ahead, s2)
      && (alive <==> !(Reads(s, round, side) && Room(s, side, ahead) > 0 && ready.recv.RecvFails?)
                     && !(Writes(s, round, side) && ready.send.SendFails?))
  {
    var source, sink, ready := Source(s1, side), Sink(s1, side), ReadinessOf(round, side);
    WatchedIs(s, round, side);
    hide InterestOf, CloseSides, Serve;
    ServeIs(source, sink, s1.transferred, ready, InterestOf(CloseSides(s), side),
            Room(s, side, ahead), Takes(s, round, side, ahead));
  }

  /** A state that differs from another in its write sides at most. */
  predicate SameButShut(s: State, closed: State) {
    && closed.transferred == s.transferred
    && closed.up == s.up.(writeShutdown := closed.up.writeShutdown)
    && closed.down == s.down.(writeShutdown := closed.down.writeShutdown)
  }

  lemma FirstMoves(s: State, closed: State, round: Round, side: Side, next: State)
    requires SameButShut(s, closed) && First(round, side) && Reached(s, round, side)
    requires Served(s, closed, round, side, Ahead(0, []), next)
    ensures SideMoves(s, round, side, next)
    ensures var other := Other(side);
            Source(next, other) == Sink(next, side) && Sink(next, other) == Source(next, side)
  {
    assert AheadOf(s, round, side) == Ahead(0, []);
    assert Sink(s, side).pending + [] == Sink(s, side).pending;
    hide Takes, Sends, Room, Reads, Reached;
  }

  /** Serving the other socket leaves what has been taken from this one and sent to it. */
  lemma OtherKeepsMoves(s: State, round: Round, side: Side, s1: State, ahead: Ahead, s2: State)
    requires SideMoves(s, round, side, s1) && Served(s, s1, round, Other(side), ahead, s2)
    ensures SideMoves(s, round, side, s2)
  {
    assert Source(s2, side) == Sink(s2, Other(side)) && Sink(s2, side) == Source(s2, Other(side));
    hide Takes, Sends, Room, Reads, Reached, Taken, Sent, FindsEnd, FindsNoRoom;
  }

  lemma UnreachedMoves(s: State, closed: State, round: Round, side: Side, s1: State)
    requires SameButShut(s, closed) && !Reached(s, round, side)
    requires Served(s, closed, round, Other(side), Ahead(0, []), s1) && !First(round, side)
    ensures Source(s1, side).received == Source(s, side).received && Sink(s1, side).delivered == Sink(s, side).delivered
    ensures SideMoves(s, round, side, s1)
  {
    assert Source(s1, side) == Sink(s1, Other(side)) && Sink(s1, side) == Source(s1, Other(side));
    assert Takes(s, round, side, AheadOf(s, round, side)) == 0 && Sends(s, round, side, AheadOf(s, round, side)) == 0;
    hide Takes, Sends, Room, Reads, Reached, AheadOf;
    assert Source(s, side).received + [] == Source(s, side).received;
    assert Sink(s, side).delivered + [] == Sink(s, side).delivered;
  }

  lemma SecondMoves(s: State, closed: State, round: Round, side: Side, s1: State, s2: State)
    requires SameButShut(s, closed) && !First(round, side) && Reached(s, round, side)
    requires Served(s, closed, round, Other(side), Ahead(0, []), s1)
    requires Served(s, s1, round, side, AheadOf(s, round, side), s2)
    ensures SideMoves(s, round, side, s2)
  {
    SecondFinds(s, closed, round, side, s1);
    hide Takes, Sends, Room, Reads, Reached, AheadOf;
  }

  /** What the second socket finds. */
  lemma SecondFinds(s: State, closed: State, round: Round, side: Side, s1: State)
    requires SameButShut(s, closed) && !First(round, side)
    requires Served(s, closed, round, Other(side), Ahead(0, []), s1)
    ensures
      var ahead, source, sink := AheadOf(s, round, side), Source(s1, side), Sink(s1, side);
      && |source.pending| == |Source(s, side).pending| - ahead.drained
      && source.readOpen == Source(s, side).readOpen
      && source.received == Source(s, side).received && source.eof == Source(s, side).eof
      && sink.pending == Sink(s, side).pending + ahead.arrived && sink.delivered == Sink(s, side).delivered
      && s1.transferred == s.transferred + |ahead.arrived|
  {
    assert Source(s1, side) == Sink(s1, Other(side)) && Sink(s1, side) == Source(s1, Other(side));
    hide Takes, Sends, Room, Reads, Reached;
  }

  lemma ServeBothMoves(s: State, round: Round, side: Side)
    requires !round.timeUp
    ensures
      var closed := CloseSides(s);
      SideMoves(s, round, side, ServeBoth(closed, round, InterestOf(closed, Client), InterestOf(closed, Upstream)).0)
  {
    var closed := CloseSides(s);
    var first := if round.clientFirst then Client else Upstream;
    var second := Other(first);
    var (s1, alive) := ServeSide(closed, first, round, InterestOf(closed, first));
    var ahead := AheadOf(s, round, second);
    assert SameButShut(s, closed);
    FirstIsReached(s, round, first);
    SideIsServed(s, closed, round, first, Ahead(0, []));
    FirstFails(s, round, first);
    hide CloseSides, InterestOf, ServeSide, Served, SideMoves, AheadOf, Reads, Writes, Room, Reached;
    FirstMoves(s, closed, round, first, s1);
    if alive {
      SecondFinds(s, closed, round, second, s1);
      SideIsServed(s, s1, round, second, ahead);
      var s2 := ServeSide(s1, second, round, InterestOf(closed, second)).0;
      SecondMoves(s, closed, round, second, s1, s2);
      OtherKeepsMoves(s, round, first, s1, ahead, s2);
    } else {
      UnreachedMoves(s, closed, round, second, s1);
    }
  }

  lemma FirstIsReached(s: State, round: Round, side: Side)
    requires !round.timeUp && First(round, side)
    ensures Reached(s, round, side)
  {
  }

  /** The second socket is reached exactly if the first does not fail. */
  lemma FirstFails(s: State, round: Round, side: Side)
    requires !round.timeUp && First(round, side)
    ensures
      var ready := ReadinessOf(round, side);
      Reached(s, round, Other(side)) <==>
        && !(Reads(s, round, side) && Room(s, side, Ahead(0, [])) > 0 && ready.recv.RecvFails?)
        && !(Writes(s, round, side) && ready.send.SendFails?)
  {
    assert Other(Other(side)) == side;
    assert Reads(s, round, side) ==> Room(s, side, Ahead(0, [])) > 0;
    hide Reads, Writes, Room;
  }

  /** A turn that ends before it serves a socket moves nothing. */
  lemma NothingMoves(s: State, round: Round, side: Side, next: State)
    requires SameButShut(s, next)
    requires round.timeUp || (forall other :: !Reads(s, round, other) && !Writes(s, round, other))
    ensures SideMoves(s, round, side, next)
  {
    var ahead, other := AheadOf(s, round, side), Other(side);
    assert round.timeUp ==> !Reached(s, round, side) && !Reached(s, round, other);
    assert Takes(s, round, side, ahead) == 0 && Sends(s, round, side, ahead) == 0;
    hide Takes, Sends, AheadOf, Reached, Room;
    assert Source(s, side).received + [] == Source(s, side).received;
    assert Sink(s, side).delivered + [] == Sink(s, side).delivered;
  }

  /** The turn leaves by one of the clean exits. */
  predicate AtTheEnd(s: State) {
    (s.transferred >= MAX_TUNNEL_BYTES || (!s.up.readOpen && !s.down.readOpen)) && s.up.pending == [] && s.down.pending == []
  }

  lemma NothingAtTheEnd(s: State, round: Round, side: Side)
    requires AtTheEnd(s)
    ensures !Reads(s, round, side) && !Writes(s, round, side)
  {
  }

  predicate NoEvent(s: State, round: Round) {
    !HasEvent(round.client, InterestOf(s, Client)) && !HasEvent(round.upstream, InterestOf(s, Upstream))
  }

  lemma NothingWithoutEvent(s: State, round: Round, side: Side)
    requires NoEvent(CloseSides(s), round)
    ensures !Reads(s, round, side) && !Writes(s, round, side)
  {
    WatchedIs(s, round, side);
    hide InterestOf, CloseSides, Reads, Writes;
  }

  lemma TurnIs(s: State, round: Round)
    ensures
      var closed := CloseSides(s);
      Turn(s, round).0 ==
        if round.timeUp || AtTheEnd(s) then s
        else if NoEvent(closed, round) then closed
        else ServeBoth(closed, round, InterestOf(closed, Client), InterestOf(closed, Upstream)).0
  {
    hide CloseSides, ServeBoth, InterestOf;
  }

  lemma ClosingOnlyShuts(s: State)
    ensures SameButShut(s, CloseSides(s))
  {
  }

  /** Main result for one turn: what it takes from each socket and what it sends to it. */
  lemma TurnMoves(s: State, round: Round, side: Side)
    ensures SideMoves(s, round, side, Turn(s, round).0)
  {
    TurnIs(s, round);
    ClosingOnlyShuts(s);
    hide *;
    if round.timeUp {
      SameIsSame(s);
      NothingMoves(s, round, side, s);
    } else if AtTheEnd(s) {
      SameIsSame(s);
      forall other ensures !Reads(s, round, other) && !Writes(s, round, other) { NothingAtTheEnd(s, round, other); }
      NothingMoves(s, round, side, s);
    } else if NoEvent(CloseSides(s), round) {
      forall other ensures !Reads(s, round, other) && !Writes(s, round, other) { NothingWithoutEvent(s, round, other); }
      NothingMoves(s, round, side, CloseSides(s));
    } else {
      ServeBothMoves(s, round, side);
    }
  }

  lemma SameIsSame(s: State)
    ensures SameButShut(s, s)
  {
  }

  /** A call on the socket fails in this turn. */
  predicate Fails(s: State, round: Round, side: Side) {
    && Reached(s, round, side)
    && ((Reads(s, round, side) && Room(s, side, AheadOf(s, round, side)) > 0 && ReadinessOf(round, side).recv.RecvFails?)
        || (Writes(s, round, side) && ReadinessOf(round, side).send.SendFails?))
  }

  lemma ServeBothStops(s: State, round: Round)
    requires !round.timeUp
    ensures
      var closed := CloseSides(s);
      var stop := ServeBoth(closed, round, InterestOf(closed, Client), InterestOf(closed, Upstream)).1;
      stop == if Fails(s, round, Client) || Fails(s, round, Upstream) then Some(ConnectionFailed) else None
  {
    var closed := CloseSides(s);
    var first := if round.clientFirst then Client else Upstream;
    var second := Other(first);
    var (s1, alive) := ServeSide(closed, first, round, InterestOf(closed, first));
    assert SameButShut(s, closed) && AheadOf(s, round, first) == Ahead(0, []);
    FirstIsReached(s, round, first);
    SideIsServed(s, closed, round, first, Ahead(0, []));
    FirstFails(s, round, first);
    hide CloseSides, InterestOf, ServeSide, Served, AheadOf, Reads, Writes, Room, Reached;
    if alive {
      SecondFinds(s, closed, round, second, s1);
      SideIsServed(s, s1, round, second, AheadOf(s, round, second));
    }
  }

  /** Why a turn ends the relay: a time limit; a clean exit; nothing to read or to write; a call that failed;
      and nothing else. */
  lemma TurnStopsExactlyWhen(s: State, preface: seq<byte>, round: Round)
    requires Invariant(s, preface)
    ensures
      var stop := Turn(s, round).1;
      && (stop == Some(TimeUp) <==> round.timeUp)
      && (stop == Some(BudgetSpent) || stop == Some(BothClosed) <==> !round.timeUp && AtTheEnd(s))
      && (stop == Some(NoEvents) <==>
            && !round.timeUp && !AtTheEnd(s)
            && (forall side :: !Reads(s, round, side) && !Writes(s, round, side)))
      && (stop == Some(ConnectionFailed) <==> Fails(s, round, Client) || Fails(s, round, Upstream))
      && stop != Some(NothingRegistered)
  {
    SomethingIsWatched(s, preface, round);
    StopIs(s, round);
    WatchedIs(s, round, Client);
    WatchedIs(s, round, Upstream);
    NoEventIs(s, round);
    if !round.timeUp {
      ServeBothStops(s, round);
    }
    if AtTheEnd(s) {
      NothingAtTheEnd(s, round, Client);
      NothingAtTheEnd(s, round, Upstream);
    }
    hide Turn, Invariant, ServeBoth, InterestOf, CloseSides, NoEvent, Reads, Writes, Room, AheadOf;
  }

  lemma NoEventIs(s: State, round: Round)
    ensures NoEvent(CloseSides(s), round) <==> forall side :: !Reads(s, round, side) && !Writes(s, round, side)
  {
    WatchedIs(s, round, Client);
    WatchedIs(s, round, Upstream);
    hide InterestOf, CloseSides, Reads, Writes;
    forall side | NoEvent(CloseSides(s), round) ensures !Reads(s, round, side) && !Writes(s, round, side) {
      assert side == Client || side == Upstream;
    }
    if forall side :: !Reads(s, round, side) && !Writes(s, round, side) {
      assert !Reads(s, round, Client) && !Reads(s, round, Upstream);
    }
  }

  lemma StopIs(s: State, round: Round)
    ensures
      var closed, stop := CloseSides(s), Turn(s, round).1;
      if round.timeUp then stop == Some(TimeUp)
      else if AtTheEnd(s) then stop == Some(BudgetSpent) || stop == Some(BothClosed)
      else if NoEvent(closed, round) then stop == Some(NoEvents) || stop == Some(NothingRegistered)
      else stop == ServeBoth(closed, round, InterestOf(closed, Client), InterestOf(closed, Upstream)).1
  {
    hide CloseSides, ServeBoth, InterestOf;
  }

  /** A side whose source is closed and drained is shut down by the turn, unless the turn ends the relay
      before; and no other side is. */
  lemma DrainedSidesAreShut(s: State, round: Round, side: Side)
    ensures
      var (next, stop) := Turn(s, round);
      var p, p' := Source(s, side), Source(next, side);
      if round.timeUp || AtTheEnd(s) then next == s
      else p'.writeShutdown <==> p.writeShutdown || (!p.readOpen && p.pending == [])
  {
    TurnIs(s, round);
    var closed := CloseSides(s);
    ServeBothSpends(closed, round, InterestOf(closed, Client), InterestOf(closed, Upstream));
    ServeBothShutsNothing(closed, round, InterestOf(closed, Client), InterestOf(closed, Upstream));
    hide Turn, ServeBoth, InterestOf, NoEvent;
  }

  lemma ServeBothShutsNothing(s: State, round: Round, client: Interest, upstream: Interest)
    ensures
      var next := ServeBoth(s, round, client, upstream).0;
      next.up.writeShutdown == s.up.writeShutdown && next.down.writeShutdown == s.down.writeShutdown
  {
    hide Serve;
    if round.clientFirst {
      ServeSpends(s.up, s.down, s.transferred, round.client, client);
      var s1 := ServeSide(s, Client, round, client).0;
      ServeSpends(s1.down, s1.up, s1.transferred, round.upstream, upstream);
    } else {
      ServeSpends(s.down, s.up, s.transferred, round.upstream, upstream);
      var s1 := ServeSide(s, Upstream, round, upstream).0;
      ServeSpends(s1.up, s1.down, s1.transferred, round.client, client);
    }
  }

  /** All that a run takes from a socket: the parts that its turns take, one after the other. */
  function Heard(s: State, rounds: seq<Round>, side: Side): seq<byte>
    decreases |rounds|
  {
    if rounds == [] then []
    else
      var (next, stop) := Turn(s, rounds[0]);
      Taken(s, rounds[0], side) + if stop.Some? then [] else Heard(next, rounds[1..], side)
  }

  /** All that a run gives a socket. */
  function Told(s: State, rounds: seq<Round>, side: Side): seq<byte>
    decreases |rounds|
  {
    if rounds == [] then []
    else
      var (next, stop) := Turn(s, rounds[0]);
      Sent(s, rounds[0], side) + if stop.Some? then [] else Told(next, rounds[1..], side)
  }

  lemma {:induction false} RunMoves(s: State, rounds: seq<Round>, side: Side)
    ensures var final := Run(s, rounds).0;
            && Source(final, side).received == Source(s, side).received + Heard(s, rounds, side)
            && Sink(final, side).delivered == Sink(s, side).delivered + Told(s, rounds, side)
    decreases |rounds|
  {
    if rounds == [] {
      assert Source(s, side).received + [] == Source(s, side).received;
      assert Sink(s, side).delivered + [] == Sink(s, side).delivered;
    } else {
      TurnMoves(s, rounds[0], side);
      var (next, stop) := Turn(s, rounds[0]);
      hide Turn, Taken, Sent;
      if stop.None? {
        RunMoves(next, rounds[1..], side);
        Sequences.AppendAssociates(
          Source(s, side).received, Taken(s, rounds[0], side), Heard(next, rounds[1..], side));
        Sequences.AppendAssociates(
          Sink(s, side).delivered, Sent(s, rounds[0], side), Told(next, rounds[1..], side));
      } else {
        assert Taken(s, rounds[0], side) + [] == Taken(s, rounds[0], side);
        assert Sent(s, rounds[0], side) + [] == Sent(s, rounds[0], side);
      }
    }
  }

  // ------------------------------------------------------------------- the main result

  /** From the first byte on: what the upstream server was given is always a prefix of what the
      client sent (preface first), what the client was given is a prefix of what the server sent,
      and a write side that was shut down had been given everything that was read for it. */
  lemma RelayIsFaithful(preface: seq<byte>, rounds: seq<Round>)
    requires |preface| <= MAX_DIRECTION_BUFFER_BYTES
    ensures var (final, stop) := Run(Start(preface), rounds);
            && final.up.received == Heard(Start(preface), rounds, Client)
            && final.down.received == Heard(Start(preface), rounds, Upstream)
            && final.up.delivered == Told(Start(preface), rounds, Upstream)
            && final.down.delivered == Told(Start(preface), rounds, Client)
            && final.up.delivered <= preface + final.up.received && final.down.delivered <= final.down.received
            && (final.up.writeShutdown ==> !final.up.readOpen && final.up.delivered == preface + final.up.received)
            && (final.down.writeShutdown ==> !final.down.readOpen && final.down.delivered == final.down.received)
            && |final.up.pending| <= MAX_DIRECTION_BUFFER_BYTES && |final.down.pending| <= MAX_DIRECTION_BUFFER_BYTES
            && |preface| + |final.up.received| + |final.down.received| <= MAX_TUNNEL_BYTES
  {
    StartIsGood(preface);
    RunKeeps(Start(preface), preface, rounds);
    RunMoves(Start(preface), rounds, Client);
    RunMoves(Start(preface), rounds, Upstream);
    Sequences.EmptyInFront(Heard(Start(preface), rounds, Client));
    Sequences.EmptyInFront(Heard(Start(preface), rounds, Upstream));
    Sequences.EmptyInFront(Told(Start(preface), rounds, Client));
    Sequences.EmptyInFront(Told(Start(preface), rounds, Upstream));
    hide Run, Heard, Told;
    var final := Run(Start(preface), rounds).0;
    DeliveredIsPrefix(final.up, preface);
    DeliveredIsPrefix(final.down, []);
    Sequences.EmptyInFront(final.down.received);
  }

  lemma DeliveredIsPrefix(p: Pipe, preface: seq<byte>)
    requires Conserves(p, preface)
    ensures p.delivered <= preface + p.received
    ensures p.pending == [] ==> p.delivered == preface + p.received
  {
    assert p.delivered <= p.delivered + p.pending;
    assert p.pending == [] ==> p.delivered + p.pending == p.delivered;
  }

  /** A ClientHello that the reader accepts always fits the relay, which passes it on first. */
  lemma AcceptedHelloIsRelayed(stream: seq<byte>, host: seq<byte>, rounds: seq<Round>)
    requires HelloReader.Read(stream, host).Ok?
    ensures var taken := HelloReader.Read(stream, host).value;
            && taken <= |stream| && taken <= MAX_DIRECTION_BUFFER_BYTES
            && var final := Run(Start(stream[..taken]), rounds).0;
               final.up.delivered + final.up.pending == stream[..taken] + final.up.received
  {
    var rs, body, extra := HelloReader.AcceptedAreRecords(stream, host);
    var taken := HelloReader.Read(stream, host).value;
    assert taken <= HelloReader.MAX_CLIENT_HELLO_BYTES;
    StartIsGood(stream[..taken]);
    RunKeeps(Start(stream[..taken]), stream[..taken], rounds);
    hide Run, HelloReader.Read;
  }
}
