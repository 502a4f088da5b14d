/** Removal of a run's Docker resources (src/codex_candidate.rs): one attempt over every resource, the
    window of stable absence, and the retry loops around them. Docker's answers and the clock belong
    to the environment, which may create a resource late and may fail at any call. */
module Cleanup {
  import opened Wrappers

  /** Milliseconds. */
  const RETRY_TIMEOUT := 600_000
  const RETRY_INTERVAL := 250
  const STABLE_ZERO := 5_000

  datatype Resource =
    | MainContainer | ProxyContainer | StagingContainer | ExportContainer
    | InternalNetwork
    | PackageVolume | HomeVolume | WorkspaceVolume | ProxyVolume

  /** The proxy, its network and its volume exist only for a run with a restricted network. */
  predicate InUse(r: Resource, restricted: bool) {
    restricted || r !in {ProxyContainer, InternalNetwork, ProxyVolume}
  }

  /** Inspecting one resource: it is there, it is not, or the inspection failed. */
  datatype Answer = Present | Absent | Failed

  /** One removal: a first look, the removal command (which may fail to run), and a second look. */
  datatype Removal = Removal(first: Answer, commandRan: bool, second: Answer)

  // ------------------------------------------------------------------------ one attempt

  ghost predicate AllAbsent(restricted: bool, inspect: Resource -> Answer) {
    forall r :: InUse(r, restricted) ==> inspect(r) == Absent
  }

  ghost predicate AllRemoved(restricted: bool, attempt: Resource -> Removal) {
    forall r :: InUse(r, restricted) ==> Removed(attempt(r))
  }

  /** The resources of a run, in the order in which they are inspected. */
  function Tracked(restricted: bool): seq<Resource> {
    [MainContainer] + (if restricted then [ProxyContainer] else []) + [StagingContainer, ExportContainer]
    + (if restricted then [InternalNetwork] else []) + Volumes(restricted)
  }

  /** The first resource that is not absent decides. */
  function Verdict(resources: seq<Resource>, inspect: Resource -> Answer): (v: Result<bool, Resource>)
    ensures v == Ok(true) <==> forall r :: r in resources ==> inspect(r) == Absent
    ensures v == Ok(false) ==> exists r :: r in resources && inspect(r) == Present
    ensures v.Err? ==> v.error in resources && inspect(v.error) == Failed
  {
    if resources == [] then Ok(true)
    else
      match inspect(resources[0])
      case Failed => Err(resources[0])
      case Present => Ok(false)
      case Absent => Verdict(resources[1..], inspect)
  }

  /** Only a resource that is in use is inspected, and each of them is. */
  lemma TrackedAreInUse(restricted: bool)
    ensures forall r :: r in Tracked(restricted) <==> InUse(r, restricted)
  {
    forall r | InUse(r, restricted) ensures r in Tracked(restricted) {
      match r
      case MainContainer => case ProxyContainer => case StagingContainer => case ExportContainer =>
      case InternalNetwork => case PackageVolume => case HomeVolume => case WorkspaceVolume => case ProxyVolume =>
    }
  }

  function Somes(slots: seq<Option<Resource>>): seq<Resource> {
    if slots == [] then []
    else (if slots[0].Some? then [slots[0].value] else []) + Somes(slots[1..])
  }

  /** Looks at the containers, the network and the volumes, up to the first one that is not absent. */
  method AllResourcesAbsent(restricted: bool, inspect: Resource -> Answer)
    returns (absent: Result<bool, Resource>)
    ensures absent == Verdict(Tracked(restricted), inspect)
    ensures absent == Ok(true) <==> AllAbsent(restricted, inspect)
  {
    TrackedAreInUse(restricted);
    var containers := [Some(MainContainer), if restricted then Some(ProxyContainer) else None,
                       Some(StagingContainer), Some(ExportContainer)];
    ghost var network := if restricted then [InternalNetwork] else [];
    TrackedInParts(restricted, containers, network);
    VerdictInParts(Somes(containers), network + Volumes(restricted), inspect);
    VerdictInParts(network, Volumes(restricted), inspect);
    hide Tracked, Volumes, Somes;
    absent := ContainersAbsent(containers, inspect);
    if absent != Ok(true) {
      return;
    }
    if restricted {
      match inspect(InternalNetwork)
      case Failed => return Err(InternalNetwork);
      case Present => return Ok(false);
      case Absent =>
    }
    absent := VolumesAbsent(Volumes(restricted), inspect);
  }

  /** A container that the run does not have is passed over. */
  method ContainersAbsent(slots: seq<Option<Resource>>, inspect: Resource -> Answer)
    returns (absent: Result<bool, Resource>)
    ensures absent == Verdict(Somes(slots), inspect)
  {
    assert slots[0..] == slots;
    for i := 0 to |slots|
      invariant Verdict(Somes(slots[i..]), inspect) == Verdict(Somes(slots), inspect)
    {
      hide *;
      SomesStep(slots, i);
      if slots[i].Some? {
        VerdictStep(slots[i].value, Somes(slots[i + 1..]), inspect);
        match inspect(slots[i].value)
        case Failed => return Err(slots[i].value);
        case Present => return Ok(false);
        case Absent =>
      }
    }
    return Ok(true);
  }

  lemma SomesStep(slots: seq<Option<Resource>>, i: nat)
    requires i < |slots|
    ensures Somes(slots[i..]) ==
      if slots[i].Some? then [slots[i].value] + Somes(slots[i + 1..]) else Somes(slots[i + 1..])
  {
    assert slots[i..][0] == slots[i] && slots[i..][1..] == slots[i + 1..];
  }

  method VolumesAbsent(volumes: seq<Resource>, inspect: Resource -> Answer)
    returns (absent: Result<bool, Resource>)
    ensures absent == Verdict(volumes, inspect)
  {
    assert volumes[0..] == volumes;
    for i := 0 to |volumes|
      invariant Verdict(volumes[i..], inspect) == Verdict(volumes, inspect)
    {
      hide *;
      assert volumes[i..] == [volumes[i]] + volumes[i + 1..];
      VerdictStep(volumes[i], volumes[i + 1..], inspect);
      match inspect(volumes[i])
      case Failed => return Err(volumes[i]);
      case Present => return Ok(false);
      case Absent =>
    }
    return Ok(true);
  }

  lemma TrackedInParts(restricted: bool, slots: seq<Option<Resource>>, network: seq<Resource>)
    requires slots == [Some(MainContainer), if restricted then Some(ProxyContainer) else None,
                       Some(StagingContainer), Some(ExportContainer)]
    requires network == if restricted then [InternalNetwork] else []
    ensures Tracked(restricted) == Somes(slots) + (network + Volumes(restricted))
  {
    assert slots[1..][1..] == slots[2..] && slots[2..][1..] == slots[3..] && slots[3..][1..] == [];
    assert Somes(slots[3..]) == [ExportContainer];
    assert Somes(slots[2..]) == [StagingContainer, ExportContainer];
    assert Somes(slots[1..]) == (if restricted then [ProxyContainer] else []) + [StagingContainer, ExportContainer];
  }

  lemma {:induction false} VerdictInParts(a: seq<Resource>, b: seq<Resource>, inspect: Resource -> Answer)
    ensures Verdict(a + b, inspect) ==
      if Verdict(a, inspect) == Ok(true) then Verdict(b, inspect) else Verdict(a, inspect)
  {
    if a == [] {
      assert a + b == b;
    } else {
      assert a + b == [a[0]] + (a[1..] + b);
      VerdictStep(a[0], a[1..] + b, inspect);
      VerdictInParts(a[1..], b, inspect);
    }
  }

  lemma VerdictStep(r: Resource, rest: seq<Resource>, inspect: Resource -> Answer)
    ensures Verdict([r] + rest, inspect) ==
      match inspect(r)
      case Failed => Err(r)
      case Present => Ok(false)
      case Absent => Verdict(rest, inspect)
  {
    assert ([r] + rest)[1..] == rest;
  }

  function Volumes(restricted: bool): seq<Resource> {
    [PackageVolume, HomeVolume, WorkspaceVolume] + if restricted then [ProxyVolume] else []
  }

  /** The resource was gone when the removal last looked. */
  predicate Removed(removal: Removal) {
    match removal.first
    case Absent => true
    case Present => removal.commandRan && removal.second == Absent
    case Failed => false
  }

  method RemoveOne(removal: Removal) returns (ok: bool)
    ensures ok == Removed(removal)
  {
    if removal.first == Failed {
      return false;
    }
    if removal.first == Absent {
      return true;
    }
    if !removal.commandRan {
      return false;
    }
    return removal.second == Absent;
  }

  /** Tries every resource, also after one of them has failed. */
  method RemoveResourcesOnce(restricted: bool, attempt: Resource -> Removal)
    returns (failures: seq<Resource>)
    ensures forall r :: r in failures <==> InUse(r, restricted) && !Removed(attempt(r))
    ensures failures == [] <==> AllRemoved(restricted, attempt)
  {
    failures := [];
    var containers := [MainContainer] + (if restricted then [ProxyContainer] else []);
    containers := containers + [StagingContainer] + [ExportContainer];
    assert forall r :: r in containers <==>
      InUse(r, restricted) && r in {MainContainer, ProxyContainer, StagingContainer, ExportContainer};
    for i := 0 to |containers|
      invariant forall r :: r in failures <==> r in containers[..i] && !Removed(attempt(r))
    {
      var ok := RemoveOne(attempt(containers[i]));
      if !ok {
        failures := failures + [containers[i]];
      }
    }
    assert containers[..|containers|] == containers;
    if restricted {
      var ok := RemoveOne(attempt(InternalNetwork));
      if !ok {
        failures := failures + [InternalNetwork];
      }
    }
    ghost var before := failures;
    var volumes := Volumes(restricted);
    assert forall r :: r in volumes <==>
      InUse(r, restricted) && r in {PackageVolume, HomeVolume, WorkspaceVolume, ProxyVolume};
    for i := 0 to |volumes|
      invariant forall r :: r in failures <==> r in before || (r in volumes[..i] && !Removed(attempt(r)))
    {
      var ok := RemoveOne(attempt(volumes[i]));
      if !ok {
        failures := failures + [volumes[i]];
      }
    }
    assert volumes[..|volumes|] == volumes;
    assert failures != [] ==> failures[0] in failures;
    forall r | InUse(r, restricted) && !Removed(attempt(r)) ensures r in failures {
      assert r in containers || r == InternalNetwork || r in volumes;
    }
  }

  // -------------------------------------------------------------- the window of stable absence

  datatype Observation = Observation(at: int, allAbsent: bool)

  predicate Chronological(seen: seq<Observation>) {
    forall i, j :: 0 <= i < j < |seen| ==> seen[i].at <= seen[j].at
  }

  /** Absent at every observation since one that lies at least `required` before the last. */
  ghost predicate StablyAbsent(seen: seq<Observation>, required: int) {
    exists k :: AbsentSince(seen, k) && seen[|seen| - 1].at - seen[k].at >= required
  }

  ghost predicate AbsentSince(seen: seq<Observation>, k: int) {
    0 <= k < |seen| && forall i :: k <= i < |seen| ==> seen[i].allAbsent
  }

  /** The first observation of the current stretch of absence. */
  ghost predicate Opens(seen: seq<Observation>, since: Option<int>) {
    match since
    case None => seen == [] || !seen[|seen| - 1].allAbsent
    case Some(t) => exists k :: OpensAt(seen, k) && seen[k].at == t
  }

  ghost predicate OpensAt(seen: seq<Observation>, k: int) {
    AbsentSince(seen, k) && (k > 0 ==> !seen[k - 1].allAbsent)
  }

  class StableZeroWindow {
    const required: int
    var since: Option<int>
    ghost var seen: seq<Observation>

    ghost predicate Valid()
      reads this
    {
      Chronological(seen) && Opens(seen, since)
    }

    constructor (required: int)
      ensures Valid() && seen == [] && this.required == required
    {
      this.required := required;
      since := None;
      seen := [];
    }

    /** A monotone clock is what the caller owes. */
    method Observe(now: int, allAbsent: bool) returns (stable: bool)
      requires Valid() && (seen == [] || seen[|seen| - 1].at <= now)
      modifies this
      ensures Valid() && seen == old(seen) + [Observation(now, allAbsent)]
      ensures stable == StablyAbsent(seen, required)
      ensures stable ==> allAbsent
    {
      ghost var was := seen;
      seen := seen + [Observation(now, allAbsent)];
      if !allAbsent {
        since := None;
        assert !seen[|seen| - 1].allAbsent;
        return false;
      }
      StretchGrows(was, since, Observation(now, true));
      if since.None? {
        since := Some(now);
      }
      StretchDecides(seen, required, since.value);
      return now - since.value >= required;
    }
  }

  /** An absence opens a stretch or continues the open one. */
  lemma StretchGrows(was: seq<Observation>, since: Option<int>, o: Observation)
    requires Opens(was, since) && o.allAbsent
    ensures Opens(was + [o], Some(if since.None? then o.at else since.value))
  {
    var seen := was + [o];
    if since.None? {
      assert was != [] ==> seen[|was| - 1] == was[|was| - 1];
      assert OpensAt(seen, |was|) && seen[|was|] == o;
    } else {
      var k :| OpensAt(was, k) && was[k].at == since.value;
      assert OpensAt(was, k);
      forall i | k <= i < |seen| ensures seen[i].allAbsent {
        assert i < |was| ==> seen[i] == was[i];
      }
      assert k > 0 ==> seen[k - 1] == was[k - 1];
      assert OpensAt(seen, k) && seen[k] == was[k];
    }
  }

  /** The oldest absence of the stretch decides: nothing longer can be found by another choice. */
  lemma StretchDecides(seen: seq<Observation>, required: int, since: int)
    requires Chronological(seen) && seen != [] && Opens(seen, Some(since))
    ensures StablyAbsent(seen, required) <==> seen[|seen| - 1].at - since >= required
  {
    var k :| OpensAt(seen, k) && seen[k].at == since;
    assert OpensAt(seen, k);
    assert forall j :: AbsentSince(seen, j) ==> k <= j;
  }

  // ------------------------------------------------------------------------- the retry loops

  /** What Docker and the clock do in one turn of the loop. `observedAt` is the time handed to the
      window, `checkedAt` the time compared with the deadline. */
  datatype Turn = Turn(
    before: Resource -> Answer, attempt: Resource -> Removal, after: Resource -> Answer,
    observedAt: int, checkedAt: int)

  /** Time does not run backwards, and every turn but the last ends with a sleep. */
  ghost predicate Clock(world: nat -> Turn, start: int) {
    && start <= world(0).observedAt
    && (forall i: nat :: world(i).observedAt <= world(i).checkedAt)
    && forall i: nat, j: nat :: i < j ==> world(i).checkedAt + RETRY_INTERVAL <= world(j).observedAt
  }

  /** Everything absent before and after, and every removal successful. */
  ghost predicate Clean(t: Turn, restricted: bool) {
    && AllAbsent(restricted, t.before)
    && AllRemoved(restricted, t.attempt)
    && AllAbsent(restricted, t.after)
  }

  /** Turns `k` to `n` are all clean and lie at least five seconds apart. */
  ghost predicate CleanSpan(world: nat -> Turn, restricted: bool, k: nat, n: nat) {
    k <= n && (forall i :: k <= i <= n ==> Clean(world(i), restricted))
    && world(n).observedAt - world(k).observedAt >= STABLE_ZERO
  }

  ghost predicate Settled(world: nat -> Turn, restricted: bool, n: nat) {
    exists k: nat :: CleanSpan(world, restricted, k, n)
  }

  /** What counts as success: lasting absence while a mutation is pending, one attempt otherwise. */
  ghost predicate Succeeds(pending: bool, restricted: bool, world: nat -> Turn, n: nat) {
    if pending then Settled(world, restricted, n) else AllRemoved(restricted, world(n).attempt)
  }

  /** No turn before `n` succeeded or met the deadline. */
  ghost predicate GoesOnTo(pending: bool, restricted: bool, world: nat -> Turn, deadline: int, n: nat) {
    forall i: nat :: i < n ==> !Succeeds(pending, restricted, world, i) && world(i).checkedAt < deadline
  }

  /** Turn `n` is the last one: the first to succeed or to meet the deadline. */
  ghost predicate EndsAt(pending: bool, restricted: bool, world: nat -> Turn, deadline: int, n: nat) {
    && GoesOnTo(pending, restricted, world, deadline, n)
    && (Succeeds(pending, restricted, world, n) || world(n).checkedAt >= deadline)
  }

  datatype CleanupError = NotRemoved | NotInspected | NotStable

  /** Cleanup of a run whose Docker commands all returned in time: one successful attempt is enough. */
  method RetryCleanup(restricted: bool, world: nat -> Turn, start: int)
    returns (outcome: Result<(), CleanupError>, last: nat)
    requires Clock(world, start)
    ensures EndsAt(false, restricted, world, start + RETRY_TIMEOUT, last)
    ensures outcome.Ok? <==> Succeeds(false, restricted, world, last)
    ensures outcome.Err? ==> outcome.error == NotRemoved
  {
    var deadline := start + RETRY_TIMEOUT;
    last := 0;
    while true
      invariant GoesOnTo(false, restricted, world, deadline, last)
      decreases deadline - world(last).checkedAt
    {
      var failures := RemoveResourcesOnce(restricted, world(last).attempt);
      if failures == [] {
        return Ok(()), last;
      }
      if world(last).checkedAt >= deadline {
        return Err(NotRemoved), last;
      }
      last := last + 1;
    }
  }

  /** What went wrong in a turn, if a call failed. */
  ghost function TurnError(restricted: bool, t: Turn): Option<CleanupError> {
    if !AllRemoved(restricted, t.attempt) then Some(NotRemoved)
    else if Verdict(Tracked(restricted), t.after).Err? then Some(NotInspected)
    else None
  }

  /** The window was shown exactly the turns so far. */
  ghost predicate Shown(seen: seq<Observation>, world: nat -> Turn, restricted: bool) {
    forall j :: 0 <= j < |seen| ==> seen[j] == Observation(world(j).observedAt, Clean(world(j), restricted))
  }

  /** Cleanup of a run with a mutation that Docker may still carry out: absence has to last. */
  method RemoveResources(pendingMutation: bool, restricted: bool, world: nat -> Turn, start: int)
    returns (outcome: Result<(), CleanupError>, last: nat)
    requires Clock(world, start)
    ensures EndsAt(pendingMutation, restricted, world, start + RETRY_TIMEOUT, last)
    ensures outcome.Ok? <==> Succeeds(pendingMutation, restricted, world, last)
    ensures pendingMutation && outcome.Err? ==>
      outcome.error == TurnError(restricted, world(last)).GetOr(NotStable)
    // a removal that failed in the last turn comes first, then an inspection that failed after it
    ensures pendingMutation && outcome.Err? ==>
      (outcome.error == NotRemoved <==> exists r :: InUse(r, restricted) && !Removed(world(last).attempt(r)))
    ensures pendingMutation && outcome == Err(NotInspected) ==>
      exists r :: InUse(r, restricted) && world(last).after(r) == Failed
    ensures !pendingMutation && outcome.Err? ==> outcome.error == NotRemoved
  {
    if !pendingMutation {
      outcome, last := RetryCleanup(restricted, world, start);
    } else {
      outcome, last := AwaitStableAbsence(restricted, world, start);
      TurnErrorIs(restricted, world(last));
    }
  }

  lemma TurnErrorIs(restricted: bool, t: Turn)
    ensures TurnError(restricted, t) == Some(NotRemoved) <==>
      exists r :: InUse(r, restricted) && !Removed(t.attempt(r))
    ensures TurnError(restricted, t) == Some(NotInspected) ==>
      exists r :: InUse(r, restricted) && t.after(r) == Failed
    ensures TurnError(restricted, t) in {None, Some(NotRemoved), Some(NotInspected)}
  {
    TrackedAreInUse(restricted);
    hide Tracked, Verdict, Removed;
    if TurnError(restricted, t) == Some(NotInspected) {
      var r := Verdict(Tracked(restricted), t.after).error;
      assert InUse(r, restricted) && t.after(r) == Failed;
    }
  }

  /** The loop that waits for absence to last. */
  method AwaitStableAbsence(restricted: bool, world: nat -> Turn, start: int)
    returns (outcome: Result<(), CleanupError>, last: nat)
    requires Clock(world, start)
    ensures EndsAt(true, restricted, world, start + RETRY_TIMEOUT, last)
    ensures outcome.Ok? <==> Succeeds(true, restricted, world, last)
    ensures outcome.Err? ==> outcome.error == TurnError(restricted, world(last)).GetOr(NotStable)
  {
    var deadline := start + RETRY_TIMEOUT;
    var stable := new StableZeroWindow(STABLE_ZERO);
    last := 0;
    while true
      invariant fresh(stable) && stable.Valid() && stable.required == STABLE_ZERO
      invariant |stable.seen| == last && Shown(stable.seen, world, restricted)
      invariant GoesOnTo(true, restricted, world, deadline, last)
      decreases deadline - world(last).checkedAt
    {
      hide *;
      var turn := world(last);
      NextTurnIsLater(stable.seen, world, restricted, start);
      var settled, turnError := RunTurn(stable, restricted, turn);
      WindowSeesSettling(stable.seen, world, restricted, last);
      TurnDecides(restricted, world, deadline, last);
      if settled {
        return Ok(()), last;
      }
      if turn.checkedAt >= deadline {
        return Err(if turnError.Some? then turnError.value else NotStable), last;
      }
      last := last + 1;
    }
  }

  /** After a turn: success and the deadline end the loop, anything else takes it one turn further. */
  lemma TurnDecides(restricted: bool, world: nat -> Turn, deadline: int, n: nat)
    requires GoesOnTo(true, restricted, world, deadline, n)
    ensures Succeeds(true, restricted, world, n) <==> Settled(world, restricted, n)
    ensures Settled(world, restricted, n) || world(n).checkedAt >= deadline ==>
      EndsAt(true, restricted, world, deadline, n)
    ensures Settled(world, restricted, n) ==> Clean(world(n), restricted)
    ensures Clean(world(n), restricted) ==> AllRemoved(restricted, world(n).attempt)
    ensures !Settled(world, restricted, n) && world(n).checkedAt < deadline ==>
      GoesOnTo(true, restricted, world, deadline, n + 1)
  {
    hide AllAbsent, AllRemoved;
  }

  /** One turn: look, remove, look again, and tell the window; any failed call counts as not absent. */
  method RunTurn(stable: StableZeroWindow, restricted: bool, turn: Turn)
    returns (settled: bool, error: Option<CleanupError>)
    requires stable.Valid()
    requires stable.seen == [] || stable.seen[|stable.seen| - 1].at <= turn.observedAt
    modifies stable
    ensures stable.Valid()
    ensures stable.seen == old(stable.seen) + [Observation(turn.observedAt, Clean(turn, restricted))]
    ensures settled == StablyAbsent(stable.seen, stable.required)
    ensures error.Some? ==> !Clean(turn, restricted)
    ensures error == TurnError(restricted, turn)
  {
    hide Verdict, Tracked, Chronological, Opens, StablyAbsent;
    error := None;
    var before := AllResourcesAbsent(restricted, turn.before);
    var absentBefore := before.Ok? && before.value;
    var failures := RemoveResourcesOnce(restricted, turn.attempt);
    if failures == [] {
      var after := AllResourcesAbsent(restricted, turn.after);
      if after.Ok? {
        settled := stable.Observe(turn.observedAt, absentBefore && after.value);
      } else {
        var ignored := stable.Observe(turn.observedAt, false);
        settled, error := false, Some(NotInspected);
      }
    } else {
      var ignored := stable.Observe(turn.observedAt, false);
      settled, error := false, Some(NotRemoved);
    }
  }

  lemma NextTurnIsLater(seen: seq<Observation>, world: nat -> Turn, restricted: bool, start: int)
    requires Clock(world, start) && Shown(seen, world, restricted)
    ensures seen != [] ==> seen[|seen| - 1].at <= world(|seen|).observedAt
    ensures world(|seen|).checkedAt < world(|seen| + 1).checkedAt
    ensures Shown(seen + [Observation(world(|seen|).observedAt, Clean(world(|seen|), restricted))], world, restricted)
  {
    if seen != [] {
      var i: nat := |seen| - 1;
      assert seen[i].at == world(i).observedAt <= world(i).checkedAt <= world(i + 1).observedAt;
    }
    assert world(|seen|).checkedAt + RETRY_INTERVAL <= world(|seen| + 1).observedAt;
  }

  lemma WindowSeesSettling(seen: seq<Observation>, world: nat -> Turn, restricted: bool, last: nat)
    requires |seen| == last + 1 && Shown(seen, world, restricted)
    ensures StablyAbsent(seen, STABLE_ZERO) <==> Settled(world, restricted, last)
  {
    if StablyAbsent(seen, STABLE_ZERO) {
      var k :| AbsentSince(seen, k) && seen[|seen| - 1].at - seen[k].at >= STABLE_ZERO;
      forall i | k <= i <= last ensures Clean(world(i), restricted) {
        assert seen[i].allAbsent;
      }
      assert CleanSpan(world, restricted, k, last);
    }
    if Settled(world, restricted, last) {
      var k: nat :| CleanSpan(world, restricted, k, last);
      assert AbsentSince(seen, k);
    }
  }

  // -------------------------------------------------------------- what holds of every cleanup

  lemma {:induction false} ClockAdvances(world: nat -> Turn, start: int, i: nat, j: nat)
    requires Clock(world, start) && i < j
    ensures world(i).checkedAt + RETRY_INTERVAL * (j - i) <= world(j).observedAt
    decreases j
  {
    if i + 1 < j {
      ClockAdvances(world, start, i, j - 1);
      assert world(j - 1).checkedAt + RETRY_INTERVAL <= world(j).observedAt;
    }
  }

  /** The deadline bounds the number of turns, whatever the environment does. */
  lemma TurnsAreBounded(pending: bool, restricted: bool, world: nat -> Turn, start: int, last: nat)
    requires Clock(world, start) && EndsAt(pending, restricted, world, start + RETRY_TIMEOUT, last)
    ensures last <= RETRY_TIMEOUT / RETRY_INTERVAL
  {
    if last > 1 {
      ClockAdvances(world, start, 0, last - 1);
      assert world(last - 1).checkedAt < start + RETRY_TIMEOUT;
    }
  }

  /** Anything seen before or after a removal, and any failed call, costs a whole new window: success
      comes no sooner than five seconds and a sleep later. */
  lemma ReappearanceRestartsTheWindow(world: nat -> Turn, restricted: bool, start: int, i: nat, last: nat)
    requires Clock(world, start) && Settled(world, restricted, last)
    requires i <= last && !Clean(world(i), restricted)
    ensures world(last).observedAt >= world(i).checkedAt + RETRY_INTERVAL + STABLE_ZERO
  {
    var k: nat :| CleanSpan(world, restricted, k, last);
    assert i < k;
    ClockAdvances(world, start, i, k);
  }

  /** Absence that lasts is recognised: if every turn from `j` on is clean and five seconds fit before
      the deadline, cleanup succeeds, and no later than at the first turn that completes them. */
  lemma LastingAbsenceSucceeds(
    world: nat -> Turn, restricted: bool, deadline: int, j: nat, m: nat, last: nat)
    requires EndsAt(true, restricted, world, deadline, last)
    requires j <= m && forall i: nat :: j <= i <= m ==> Clean(world(i), restricted)
    requires world(m).observedAt - world(j).observedAt >= STABLE_ZERO
    requires forall i: nat :: i < m ==> world(i).checkedAt < deadline
    ensures last <= m && Settled(world, restricted, last)
  {
    assert CleanSpan(world, restricted, j, m);
    assert Succeeds(true, restricted, world, m);
  }

  /** A single attempt, however clean, never ends the cleanup of a pending mutation. */
  lemma OneTurnIsNotEnough(world: nat -> Turn, restricted: bool, start: int, last: nat)
    requires Clock(world, start) && Settled(world, restricted, last)
    ensures last > 0 && Clean(world(last), restricted) && Clean(world(last - 1), restricted)
  {
    var k: nat :| CleanSpan(world, restricted, k, last);
    assert k != last;
  }

  // ------------------------------------------------------------ presences that leave no trace

  /** Some look of the turn saw the resource; a second look of a removal follows a first that did. */
  predicate Seen(t: Turn, r: Resource) {
    t.before(r) == Present || t.attempt(r).first == Present || t.after(r) == Present
  }

  /** The resource was there only when its own removal first looked, and was gone when it looked again. */
  predicate UndoneAtOnce(t: Turn, r: Resource) {
    && t.before(r) == Absent && t.after(r) == Absent
    && t.attempt(r).first == Present && t.attempt(r).commandRan && t.attempt(r).second == Absent
  }

  /** No look of the turns `k` to `n` saw a resource of the run. */
  ghost predicate NothingSeen(world: nat -> Turn, restricted: bool, k: nat, n: nat) {
    forall i: nat, r :: k <= i <= n && InUse(r, restricted) ==> !Seen(world(i), r)
  }

  /** No removal of the turns `k` to `n` found anything to remove. */
  ghost predicate NothingToRemove(world: nat -> Turn, restricted: bool, k: nat, n: nat) {
    forall i: nat, r :: k <= i <= n && InUse(r, restricted) ==> world(i).attempt(r).first == Absent
  }

  /** In the turns that close the window, nothing was seen exactly if no removal found anything. */
  lemma SpanSawNothingExactlyWhen(world: nat -> Turn, restricted: bool, k: nat, n: nat)
    requires CleanSpan(world, restricted, k, n)
    ensures NothingSeen(world, restricted, k, n) <==> NothingToRemove(world, restricted, k, n)
  {
    forall i: nat, r | k <= i <= n && InUse(r, restricted)
      ensures Seen(world(i), r) <==> world(i).attempt(r).first != Absent
    {
      assert Clean(world(i), restricted) && Removed(world(i).attempt(r));
      assert world(i).before(r) == Absent && world(i).after(r) == Absent;
    }
    hide Clean, Removed, InUse;
  }

  /** A turn restarts the window exactly if some resource of the run was not seen absent before and after,
      or was not seen gone by its removal. Of the presences that a turn sees, only one that its own removal
      undoes at once does not restart it. */
  lemma PresenceRestartsExactlyWhen(t: Turn, restricted: bool)
    ensures !Clean(t, restricted) <==>
      exists r :: InUse(r, restricted)
                  && (t.before(r) != Absent || t.after(r) != Absent || !Removed(t.attempt(r)))
    ensures forall r :: InUse(r, restricted) && Seen(t, r) && !UndoneAtOnce(t, r) ==> !Clean(t, restricted)
    ensures Clean(t, restricted) ==> forall r :: InUse(r, restricted) && Seen(t, r) ==> UndoneAtOnce(t, r)
    ensures (forall r :: InUse(r, restricted) ==> NoCallFailed(t, r)) ==>
      (!Clean(t, restricted) <==> exists r :: InUse(r, restricted) && Seen(t, r) && !UndoneAtOnce(t, r))
  {
    if (forall r :: InUse(r, restricted) ==> NoCallFailed(t, r)) && !Clean(t, restricted) {
      var r :| InUse(r, restricted)
               && (t.before(r) != Absent || t.after(r) != Absent || !Removed(t.attempt(r)));
      assert InUse(r, restricted)
             && (t.before(r) != Absent || t.after(r) != Absent || !Removed(t.attempt(r)));
      assert NoCallFailed(t, r) && Seen(t, r) && !UndoneAtOnce(t, r);
    }
  }

  predicate NoCallFailed(t: Turn, r: Resource) {
    && t.before(r) != Failed && t.after(r) != Failed && t.attempt(r).first != Failed
    && (t.attempt(r).first == Present ==> t.attempt(r).commandRan && t.attempt(r).second != Failed)
  }

  /** The window cannot tell a removal that found nothing from one that removed something: two courses of
      events that differ only in that end after the same turn and with the same result. */
  lemma UndonePresencesAreInvisible(
    world: nat -> Turn, world': nat -> Turn, restricted: bool, deadline: int, n: nat)
    requires forall i: nat :: AlikeBut(world(i), world'(i), restricted)
    ensures Succeeds(true, restricted, world, n) <==> Succeeds(true, restricted, world', n)
    ensures EndsAt(true, restricted, world, deadline, n) <==> EndsAt(true, restricted, world', deadline, n)
  {
    forall i: nat ensures Settled(world, restricted, i) <==> Settled(world', restricted, i) {
      SettledAlike(world, world', restricted, i);
      SettledAlike(world', world, restricted, i);
    }
    assert forall i: nat :: AlikeBut(world(i), world'(i), restricted) ==> world(i).checkedAt == world'(i).checkedAt;
    hide Settled, AlikeBut;
  }

  /** Same clock, same looks before and after, and removals with the same result. */
  ghost predicate AlikeBut(t: Turn, t': Turn, restricted: bool) {
    && t.observedAt == t'.observedAt && t.checkedAt == t'.checkedAt
    && forall r :: InUse(r, restricted) ==>
         && t.before(r) == t'.before(r) && t.after(r) == t'.after(r)
         && Removed(t.attempt(r)) == Removed(t'.attempt(r))
  }

  lemma SettledAlike(world: nat -> Turn, world': nat -> Turn, restricted: bool, n: nat)
    requires forall i: nat :: AlikeBut(world(i), world'(i), restricted)
    ensures Settled(world, restricted, n) ==> Settled(world', restricted, n)
  {
    if Settled(world, restricted, n) {
      var k: nat :| CleanSpan(world, restricted, k, n);
      forall i | k <= i <= n ensures Clean(world'(i), restricted) {
        var j: nat := i;
        assert AlikeBut(world(j), world'(j), restricted) && Clean(world(j), restricted);
      }
      assert AlikeBut(world(k), world'(k), restricted) && AlikeBut(world(n), world'(n), restricted);
      assert CleanSpan(world', restricted, k, n);
    }
  }

  /** A world in which every resource is back whenever a removal looks, and is removed each time. */
  function Reappearing(): nat -> Turn {
    var gone: Resource -> Answer := r => Absent;
    var undone: Resource -> Removal := r => Removal(Present, true, Absent);
    i => Turn(gone, undone, gone, RETRY_INTERVAL * i, RETRY_INTERVAL * i)
  }

  lemma ReappearingIsClean(restricted: bool, i: nat)
    ensures Clean(Reappearing()(i), restricted)
    ensures forall r :: Seen(Reappearing()(i), r) && UndoneAtOnce(Reappearing()(i), r)
  {
  }

  /** The extreme case: every resource reappears in every turn, and cleanup succeeds after five seconds. */
  method RemoveReappearing(restricted: bool) returns (outcome: Result<(), CleanupError>, last: nat)
    ensures forall i: nat, r :: Seen(Reappearing()(i), r)
    ensures outcome.Ok? && last == STABLE_ZERO / RETRY_INTERVAL
  {
    var world := Reappearing();
    outcome, last := RemoveResources(true, restricted, world, 0);
    forall i: nat, r ensures Seen(world(i), r) { ReappearingIsClean(restricted, i); }
    forall i: nat ensures Clean(world(i), restricted) { ReappearingIsClean(restricted, i); }
    hide Clean, Seen;
    var m: nat := STABLE_ZERO / RETRY_INTERVAL;
    LastingAbsenceSucceeds(world, restricted, RETRY_TIMEOUT, 0, m, last);
    ghost var k: nat :| CleanSpan(world, restricted, k, last);
    assert RETRY_INTERVAL * last - RETRY_INTERVAL * k >= STABLE_ZERO;
  }
}
