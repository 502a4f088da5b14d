/** The guard of a Codex run (src/codex_candidate.rs) and the private home it owns
    (src/codex_auth.rs): two cleanups that may both fail, in an order that has to hold on every way out. */
module RunGuard {
  import opened Wrappers

  /** What an attempt to remove the private home meets: a home that is not the benchmark's own, or is
      gone already, counts as done. */
  datatype HomeOutcome = TreeRemoved | NotOwned | NotFound | CheckFailed | RemovalFailed

  predicate Done(outcome: HomeOutcome) {
    outcome in {TreeRemoved, NotOwned, NotFound}
  }

  datatype Event = ResourcesTried(ok: bool) | HomeTried(outcome: HomeOutcome)

  // ------------------------------------------------------------------------ the environment

  /** Docker and the disk: the n-th call of each has an outcome of their choosing. */
  class World {
    const remover: nat -> bool
    const disk: nat -> HomeOutcome
    var removerCalls: nat
    var diskCalls: nat
    ghost var trace: seq<Event>

    constructor (remover: nat -> bool, disk: nat -> HomeOutcome)
      ensures this.remover == remover && this.disk == disk
      ensures trace == [] && removerCalls == diskCalls == 0
    {
      this.remover, this.disk := remover, disk;
      removerCalls, diskCalls, trace := 0, 0, [];
    }

    method RemoveResources() returns (ok: bool)
      modifies this
      ensures ok == remover(old(removerCalls)) && trace == old(trace) + [ResourcesTried(ok)]
      ensures removerCalls == old(removerCalls) + 1 && diskCalls == old(diskCalls)
    {
      ok := remover(removerCalls);
      removerCalls := removerCalls + 1;
      trace := trace + [ResourcesTried(ok)];
    }

    method RemoveHome() returns (outcome: HomeOutcome)
      modifies this
      ensures outcome == disk(old(diskCalls)) && trace == old(trace) + [HomeTried(outcome)]
      ensures diskCalls == old(diskCalls) + 1 && removerCalls == old(removerCalls)
    {
      outcome := disk(diskCalls);
      diskCalls := diskCalls + 1;
      trace := trace + [HomeTried(outcome)];
    }
  }

  // ------------------------------------------------------------------------ the private home

  class PrivateCodexHome {
    const world: World
    var cleaned: bool
    var cleanupOnDrop: bool

    constructor (world: World)
      ensures this.world == world && !cleaned && cleanupOnDrop
    {
      this.world := world;
      cleaned, cleanupOnDrop := false, true;
    }

    method Cleanup() returns (ok: bool)
      modifies this, world
      ensures cleanupOnDrop == old(cleanupOnDrop) && cleaned == ok
      ensures world.removerCalls == old(world.removerCalls)
      ensures old(cleaned) ==>
        ok && world.trace == old(world.trace) && world.diskCalls == old(world.diskCalls)
      ensures !old(cleaned) ==>
        var outcome := world.disk(old(world.diskCalls));
        && (ok <==> outcome == TreeRemoved || outcome == NotOwned || outcome == NotFound)
        && (!ok <==> outcome == CheckFailed || outcome == RemovalFailed)
        && ok == Done(outcome)
        && world.trace == old(world.trace) + [HomeTried(outcome)]
        && world.diskCalls == old(world.diskCalls) + 1
    {
      if cleaned {
        return true;
      }
      var outcome := world.RemoveHome();
      ok := Done(outcome);
      if ok {
        cleaned := true;
      }
    }

    method RetainForStaleRecovery()
      modifies this
      ensures cleaned == old(cleaned) && !cleanupOnDrop
    {
      cleanupOnDrop := false;
    }

    /** Runs when the value goes out of scope. */
    method Drop()
      modifies this, world
      ensures world.removerCalls == old(world.removerCalls)
      ensures old(cleaned) ==> world.diskCalls == old(world.diskCalls)
      ensures old(cleaned) || !old(cleanupOnDrop) ==> world.trace == old(world.trace)
      ensures !old(cleaned) && old(cleanupOnDrop) ==>
        world.trace == old(world.trace) + [HomeTried(world.disk(old(world.diskCalls)))]
    {
      if cleanupOnDrop {
        var _ := Cleanup();
      }
    }
  }

  // ------------------------------------------------------------- what a guard may ever do

  /** Calls of the remover from the n-th on: up to the first success, and at most `limit`. */
  function RemoverTries(remover: nat -> bool, n: nat, limit: nat): seq<Event>
    decreases limit
  {
    if limit == 0 then []
    else [ResourcesTried(remover(n))] + if remover(n) then [] else RemoverTries(remover, n + 1, limit - 1)
  }

  /** Attempts to remove the home from the n-th on: up to the first that is done, and at most `limit`. */
  function HomeTries(disk: nat -> HomeOutcome, n: nat, limit: nat): seq<Event>
    decreases limit
  {
    if limit == 0 then []
    else [HomeTried(disk(n))] + if Done(disk(n)) then [] else HomeTries(disk, n + 1, limit - 1)
  }

  lemma TwoHomeTries(disk: nat -> HomeOutcome, n: nat)
    ensures HomeTries(disk, n, 2) ==
      [HomeTried(disk(n))] + if Done(disk(n)) then [] else [HomeTried(disk(n + 1))]
  {
    assert HomeTries(disk, n + 1, 0 + 1) == [HomeTried(disk(n + 1))];
  }

  /** The whole life of a guard: `finish` and then the drop of what is left, or the drop alone. The guard
      asks the remover once by each way out, and tries the home again by each way out that is left. */
  function Life(finish: bool, remover: nat -> bool, disk: nat -> HomeOutcome): seq<Event> {
    var ways := if finish then 2 else 1;
    RemoverTries(remover, 0, ways)
    + if remover(0) then HomeTries(disk, 0, ways + 1)
      else if finish && remover(1) then HomeTries(disk, 0, 2)
      else []
  }

  /** What follows the first failure by `finish` is what the drop does. */
  lemma FinishThenDrop(remover: nat -> bool, disk: nat -> HomeOutcome)
    ensures !remover(0) ==> (Life(true, remover, disk) ==
      [ResourcesTried(false)] + RemoverTries(remover, 1, 1) + if remover(1) then HomeTries(disk, 0, 2) else [])
    ensures remover(0) ==> (Life(true, remover, disk) ==
      [ResourcesTried(true)] + [HomeTried(disk(0))] + if Done(disk(0)) then [] else HomeTries(disk, 1, 2))
  {
    assert RemoverTries(remover, 0, 2) ==
      [ResourcesTried(remover(0))] + if remover(0) then [] else RemoverTries(remover, 1, 1);
    assert HomeTries(disk, 0, 3) == [HomeTried(disk(0))] + if Done(disk(0)) then [] else HomeTries(disk, 1, 2);
  }

  lemma {:induction false} RemoverTriesEnd(remover: nat -> bool, n: nat, limit: nat)
    ensures forall e :: e in RemoverTries(remover, n, limit) ==> e.ResourcesTried?
    ensures forall i :: 0 <= i < |RemoverTries(remover, n, limit)| - 1 ==>
      RemoverTries(remover, n, limit)[i] == ResourcesTried(false)
    ensures ResourcesTried(true) in RemoverTries(remover, n, limit) <==>
      exists i: nat :: n <= i < n + limit && remover(i)
    decreases limit
  {
    if limit > 0 && !remover(n) {
      RemoverTriesEnd(remover, n + 1, limit - 1);
    }
  }

  lemma {:induction false} HomeTriesEnd(disk: nat -> HomeOutcome, n: nat, limit: nat)
    ensures |HomeTries(disk, n, limit)| <= limit
    ensures forall e :: e in HomeTries(disk, n, limit) ==> e.HomeTried?
    ensures forall i :: 0 <= i < |HomeTries(disk, n, limit)| - 1 ==> !Done(HomeTries(disk, n, limit)[i].outcome)
    ensures (exists e :: e in HomeTries(disk, n, limit) && Done(e.outcome)) <==>
      exists i: nat :: n <= i < n + limit && Done(disk(i))
    decreases limit
  {
    if limit > 0 && !Done(disk(n)) {
      HomeTriesEnd(disk, n + 1, limit - 1);
    }
  }

  // ----------------------------------------------------------------------------- the guard

  class CodexRunGuard {
    const world: World
    var privateHome: PrivateCodexHome?
    var resourcesRemoved: bool
    var finished: bool

    /** The guard owns the home until the home is done. */
    ghost predicate Valid()
      reads this, privateHome
    {
      && (privateHome == null <==> finished)
      && (privateHome != null ==>
            privateHome.world == world && !privateHome.cleaned && privateHome.cleanupOnDrop)
    }

    constructor (world: World, home: PrivateCodexHome)
      requires home.world == world && !home.cleaned && home.cleanupOnDrop
      ensures Valid() && this.world == world && privateHome == home && !resourcesRemoved && !finished
    {
      this.world := world;
      privateHome, resourcesRemoved, finished := home, false, false;
    }

    method ConfirmContainerRemoved() returns (ok: bool)
      requires Valid()
      modifies this, world
      ensures Valid() && privateHome == old(privateHome) && finished == old(finished) && resourcesRemoved == ok
      ensures world.diskCalls == old(world.diskCalls)
      ensures old(resourcesRemoved) ==>
        ok && world.trace == old(world.trace) && world.removerCalls == old(world.removerCalls)
      ensures !old(resourcesRemoved) ==>
        && ok == world.remover(old(world.removerCalls))
        && world.trace == old(world.trace) + [ResourcesTried(ok)]
        && world.removerCalls == old(world.removerCalls) + 1
    {
      if resourcesRemoved {
        return true;
      }
      ok := world.RemoveResources();
      if ok {
        resourcesRemoved := true;
      }
    }

    /** Refused until the removal of the resources is confirmed. A home that is done leaves the guard,
        and its own drop then finds nothing to do. */
    method CleanupPrivateHome() returns (ok: bool)
      requires Valid() && privateHome != null
      modifies this, privateHome, world
      ensures Valid() && resourcesRemoved == old(resourcesRemoved) && finished == ok
      ensures world.removerCalls == old(world.removerCalls)
      ensures !ok ==> privateHome == old(privateHome)
      ensures !resourcesRemoved ==>
        !ok && world.trace == old(world.trace) && world.diskCalls == old(world.diskCalls)
      ensures resourcesRemoved ==>
        var outcome := world.disk(old(world.diskCalls));
        && ok == Done(outcome)
        && world.trace == old(world.trace) + [HomeTried(outcome)]
        && world.diskCalls == old(world.diskCalls) + 1
    {
      if !resourcesRemoved {
        return false;
      }
      var home := privateHome;
      ok := home.Cleanup();
      if ok {
        finished := true;
        privateHome := null;
        home.Drop();
      }
    }

    /** The guard goes out of scope: its own drop, then that of the home if it still has one. */
    method Drop()
      requires Valid()
      modifies this, privateHome, world
      ensures old(finished) ==> world.trace == old(world.trace)
      ensures !old(finished) && old(resourcesRemoved) ==>
        world.trace == old(world.trace) + HomeTries(world.disk, old(world.diskCalls), 2)
      ensures !old(finished) && !old(resourcesRemoved) ==>
        world.trace == old(world.trace) + RemoverTries(world.remover, old(world.removerCalls), 1)
          + if world.remover(old(world.removerCalls)) then HomeTries(world.disk, old(world.diskCalls), 2) else []
    {
      TwoHomeTries(world.disk, world.diskCalls);
      if !finished {
        var removed := ConfirmContainerRemoved();
        if !removed {
          if privateHome != null {
            privateHome.RetainForStaleRecovery();
          }
        } else {
          var _ := CleanupPrivateHome();
        }
      }
      if privateHome != null {
        privateHome.Drop();
      }
    }

    /** Consumes the guard: whatever fails, it is dropped at the end. */
    method Finish() returns (ok: bool)
      requires Valid() && !resourcesRemoved && !finished
      requires world.trace == [] && world.removerCalls == world.diskCalls == 0
      modifies this, privateHome, world
      ensures ok <==> world.remover(0) && world.disk(0) != CheckFailed && world.disk(0) != RemovalFailed
      ensures world.trace == Life(true, world.remover, world.disk)
    {
      FinishThenDrop(world.remover, world.disk);
      ok := ConfirmContainerRemoved();
      assert world.trace == [ResourcesTried(ok)];
      if ok {
        ok := CleanupPrivateHome();
        assert world.trace == [ResourcesTried(true)] + [HomeTried(world.disk(0))];
      }
      Drop();
    }
  }

  /** A guard that is never finished, because the run failed before. */
  method Abandon(guard: CodexRunGuard)
    requires guard.Valid() && !guard.resourcesRemoved && !guard.finished
    requires guard.world.trace == [] && guard.world.removerCalls == guard.world.diskCalls == 0
    modifies guard, guard.privateHome, guard.world
    ensures guard.world.trace == Life(false, guard.world.remover, guard.world.disk)
  {
    guard.Drop();
  }

  // ------------------------------------------------------- what holds of every life of a guard

  /** A life in two parts: the calls of the remover, then the attempts on the home. */
  lemma LifeParts(finish: bool, remover: nat -> bool, disk: nat -> HomeOutcome)
    returns (tries: seq<Event>, home: seq<Event>)
    ensures Life(finish, remover, disk) == tries + home
    ensures forall k :: 0 <= k < |tries| ==> tries[k].ResourcesTried?
    ensures forall k :: 0 <= k < |tries| - 1 ==> tries[k] == ResourcesTried(false)
    ensures forall k :: 0 <= k < |home| ==> home[k].HomeTried?
    ensures forall k :: 0 <= k < |home| - 1 ==> !Done(home[k].outcome)
    ensures home != [] ==> tries != [] && tries[|tries| - 1] == ResourcesTried(true)
    ensures ResourcesTried(true) in tries ==> remover(0) || remover(1)
  {
    var ways: nat := if finish then 2 else 1;
    tries := RemoverTries(remover, 0, ways);
    home := if remover(0) then HomeTries(disk, 0, ways + 1)
            else if finish && remover(1) then HomeTries(disk, 0, 2)
            else [];
    RemoverTriesEnd(remover, 0, ways);
    HomeTriesEnd(disk, 0, 2);
    HomeTriesEnd(disk, 0, ways + 1);
    if home != [] {
      var i: nat := if remover(0) then 0 else 1;
      assert remover(i) && ResourcesTried(true) in tries;
    }
  }

  /** The home is only ever touched after the remover has succeeded. */
  lemma HomeOnlyAfterRemoval(finish: bool, remover: nat -> bool, disk: nat -> HomeOutcome, i: int)
    requires 0 <= i < |Life(finish, remover, disk)| && Life(finish, remover, disk)[i].HomeTried?
    ensures exists j :: 0 <= j < i && Life(finish, remover, disk)[j] == ResourcesTried(true)
  {
    var tries, home := LifeParts(finish, remover, disk);
    var life := Life(finish, remover, disk);
    assert forall k :: 0 <= k < |tries| ==> life[k] == tries[k];
    assert life[i] == home[i - |tries|];
    assert life[|tries| - 1] == ResourcesTried(true);
  }

  /** Once the remover has succeeded it is not called again. */
  lemma NoRemovalAfterSuccess(finish: bool, remover: nat -> bool, disk: nat -> HomeOutcome, i: int, j: int)
    requires 0 <= i < j < |Life(finish, remover, disk)|
    requires Life(finish, remover, disk)[i] == ResourcesTried(true)
    ensures Life(finish, remover, disk)[j].HomeTried?
  {
    var tries, home := LifeParts(finish, remover, disk);
    var life := Life(finish, remover, disk);
    assert forall k :: 0 <= k < |tries| ==> life[k] == tries[k];
    assert life[j] == home[j - |tries|];
  }

  /** If no call of the remover succeeds, the home is still there for the recovery of stale homes. */
  lemma HomeSurvivesFailedRemoval(finish: bool, remover: nat -> bool, disk: nat -> HomeOutcome)
    requires !remover(0) && !remover(1)
    ensures forall e :: e in Life(finish, remover, disk) ==> e == ResourcesTried(false)
  {
    var tries, home := LifeParts(finish, remover, disk);
    forall e | e in tries ensures e == ResourcesTried(false) {
      assert e != ResourcesTried(true);
    }
  }

  /** A home that is done is left alone. */
  lemma NothingAfterDone(finish: bool, remover: nat -> bool, disk: nat -> HomeOutcome, i: int)
    requires 0 <= i < |Life(finish, remover, disk)|
    requires Life(finish, remover, disk)[i].HomeTried? && Done(Life(finish, remover, disk)[i].outcome)
    ensures i == |Life(finish, remover, disk)| - 1
  {
    var tries, home := LifeParts(finish, remover, disk);
    var life := Life(finish, remover, disk);
    assert forall k :: 0 <= k < |tries| ==> life[k] == tries[k];
    assert life[i] == home[i - |tries|];
  }

  /** The home is done in the end exactly when the remover succeeds by one of the ways out and the home
      does at one of the attempts that are left. */
  lemma DoneExactlyWhen(finish: bool, remover: nat -> bool, disk: nat -> HomeOutcome)
    ensures (exists e :: e in Life(finish, remover, disk) && e.HomeTried? && Done(e.outcome)) <==>
      || (remover(0) && (Done(disk(0)) || Done(disk(1)) || (finish && Done(disk(2)))))
      || (finish && !remover(0) && remover(1) && (Done(disk(0)) || Done(disk(1))))
  {
    var ways := if finish then 2 else 1;
    RemoverTriesEnd(remover, 0, ways);
    HomeTriesEnd(disk, 0, 2);
    HomeTriesEnd(disk, 0, ways + 1);
  }
}
