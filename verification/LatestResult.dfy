/** The search for the latest completed run (src/result_record.rs). Other runs may take steps between
    any two files it reads, and the directory is listed in any order. */
module LatestResult {
  import opened Wrappers
  import opened Orders
  import opened Journals
  import opened ResultStore

  datatype Entry = Entry(name: string, isFile: bool)

  datatype LatestError = JournalUnreadable | ResultMissing | ResultRejected | NoneCompleted | NotPublished

  datatype Candidate = Candidate(updatedAt: nat, runId: string)

  /** Later time first; among equal times the greater identifier. */
  predicate Before(a: Candidate, b: Candidate) {
    a.updatedAt < b.updatedAt || (a.updatedAt == b.updatedAt && StringLess(a.runId, b.runId))
  }

  lemma BeforeIsStrictOrder()
    ensures StrictOrder(Before)
  {
    StringLessIsStrictOrder();
    hide StringLess;
  }

  const SUFFIX := ".json"

  function FileName(id: string): string {
    id + SUFFIX
  }

  function StripSuffix(name: string): (id: Option<string>)
    ensures id.Some? ==> name == FileName(id.value)
  {
    if |name| >= |SUFFIX| && name[|name| - |SUFFIX|..] == SUFFIX then Some(name[..|name| - |SUFFIX|]) else None
  }

  lemma StripsOwnSuffix(id: string)
    ensures StripSuffix(FileName(id)) == Some(id)
  {
    assert FileName(id)[..|id|] == id && FileName(id)[|id|..] == SUFFIX;
  }

  /** The entry is the journal file of a run. */
  predicate Names(e: Entry, id: string) {
    e.isFile && e.name == FileName(id) && ValidRunId(id)
  }

  function CandidateOf(d: Disk, id: string): Candidate
    requires id in d.journals
  {
    Candidate(d.journals[id].updatedAt, id)
  }

  /** A sequence of states in which each is accurate and later than those before it. */
  ghost predicate Views(h: Hashes, views: seq<Disk>) {
    && (forall i :: 0 <= i < |views| ==> Accurate(h, views[i]))
    && (forall i, j :: 0 <= i <= j < |views| ==> Grows(views[i], views[j]))
  }

  /** The listing shows the journal files that were there when it began, and only files that exist. */
  ghost predicate Listing(views: seq<Disk>, entries: seq<Entry>) {
    && |views| == 2 * |entries| + 1
    && (forall k, id :: 0 <= k < |entries| && Names(entries[k], id) ==> id in views[2 * k].journals)
    && (forall id :: id in views[0].journals && ValidRunId(id) ==>
          exists k :: 0 <= k < |entries| && Names(entries[k], id))
  }

  /** Nothing completed among the entries so far comes after the candidate. */
  ghost predicate BestSoFar(views: seq<Disk>, entries: seq<Entry>, n: nat, best: Option<Candidate>)
    requires n <= |entries| && |views| == 2 * |entries| + 1
  {
    && (best.Some? ==>
          && HasCompleted(views[2 * n], best.value.runId)
          && best.value == CandidateOf(views[2 * n], best.value.runId))
    && (forall k, id :: 0 <= k < n && Names(entries[k], id) && HasCompleted(views[0], id) ==>
          && best.Some?
          && (CandidateOf(views[0], id) == best.value || Before(CandidateOf(views[0], id), best.value)))
  }

  /** Entry `k` is read at view `2k` for its journal and at view `2k + 1` for its result. */
  method LatestRunId(h: Hashes, views: seq<Disk>, entries: seq<Entry>, write: Write)
    returns (latest: Result<string, LatestError>, pointer: Option<string>)
    requires Views(h, views) && Listing(views, entries)
    ensures latest.Err? ==> latest.error in {NoneCompleted, NotPublished}
    ensures latest == Err(NoneCompleted) ==> forall id :: !HasCompleted(views[0], id)
    ensures latest.Ok? ==> pointer == Some(latest.value) && Load(h, views[|views| - 1], latest.value).Found?
    // it was completed last, by time and then by identifier
    ensures latest.Ok? ==> HasCompleted(views[|views| - 1], latest.value)
    ensures latest.Ok? ==>
      var mine := views[|views| - 1].journals[latest.value].updatedAt;
      forall other :: HasCompleted(views[0], other) && other != latest.value ==>
        var theirs := views[0].journals[other].updatedAt;
        theirs < mine || (theirs == mine && StringLess(other, latest.value))
    ensures latest.Ok? ==> write == Written
    ensures latest == Err(NotPublished) ==>
      write != Written && (pointer.Some? <==> write == ReplacedThenFailed)
      && (pointer.Some? ==> IsLatest(views[0], views[|views| - 1], pointer.value))
  {
    hide *;
    ListingLength(views, entries);
    var best: Option<Candidate> := None;
    var k := 0;
    while k < |entries|
      invariant 0 <= k <= |entries|
      invariant BestSoFar(views, entries, k, best)
    {
      var entry := entries[k];
      var runId := if entry.isFile then StripSuffix(entry.name) else None;
      if runId.None? || !ValidRunId(runId.value) {
        NoName(entry);
        SkipEntry(h, views, entries, k, best);
        k := k + 1;
        continue;
      }
      var id := runId.value;
      OneName(entry, id);
      EntryCanBeRead(h, views, entries, k, id);
      var journal := views[2 * k].journals[id];
      if !Loadable(journal, id) {
        return Err(JournalUnreadable), None;
      }
      if journal.stage != Completed {
        SkipEntry(h, views, entries, k, best);
        k := k + 1;
        continue;
      }
      match Load(h, views[2 * k + 1], id) {
        case Nothing => return Err(ResultMissing), None;
        case Rejected => return Err(ResultRejected), None;
        case Found(_) =>
      }
      var candidate := Candidate(journal.updatedAt, id);
      TakeEntry(h, views, entries, k, best, id);
      if best.None? || Before(best.value, candidate) {
        best := Some(candidate);
      }
      k := k + 1;
    }
    Concludes(h, views, entries, best);
    if best.None? {
      return Err(NoneCompleted), None;
    }
    var id := best.value.runId;
    match Load(h, views[|views| - 1], id) {
      case Nothing => return Err(ResultMissing), None;
      case Rejected => return Err(ResultRejected), None;
      case Found(_) =>
    }
    LatestIs(views[0], views[|views| - 1], id);
    pointer := if write == Unchanged then None else Some(id);
    latest := if write == Written then Ok(id) else Err(NotPublished);
  }

  /** The run was completed at the end, and no run completed at the start comes after it. */
  ghost predicate IsLatest(first: Disk, last: Disk, id: string) {
    && HasCompleted(last, id)
    && var mine := last.journals[id].updatedAt;
       forall other :: HasCompleted(first, other) && other != id ==>
         var theirs := first.journals[other].updatedAt;
         theirs < mine || (theirs == mine && StringLess(other, id))
  }

  lemma LatestIs(first: Disk, last: Disk, id: string)
    requires IsLatest(first, last, id)
    ensures HasCompleted(last, id) && id in last.journals
    ensures forall other :: HasCompleted(first, other) ==> other in first.journals
    ensures forall other :: HasCompleted(first, other) && other != id ==>
      var mine, theirs := last.journals[id].updatedAt, first.journals[other].updatedAt;
      theirs < mine || (theirs == mine && StringLess(other, id))
  {
    hide StringLess;
  }

  lemma ListingLength(views: seq<Disk>, entries: seq<Entry>)
    requires Listing(views, entries)
    ensures |views| == 2 * |entries| + 1 && BestSoFar(views, entries, 0, None)
  {
  }

  lemma NoName(e: Entry)
    requires !e.isFile || StripSuffix(e.name).None? || !ValidRunId(StripSuffix(e.name).value)
    ensures forall id :: !Names(e, id)
  {
    forall id ensures !Names(e, id) { StripsOwnSuffix(id); }
  }

  /** A listed journal can be read, and if it is completed so can its result. */
  lemma EntryCanBeRead(h: Hashes, views: seq<Disk>, entries: seq<Entry>, k: nat, id: string)
    requires Views(h, views) && Listing(views, entries) && k < |entries| && Names(entries[k], id)
    requires forall other :: Names(entries[k], other) <==> other == id
    ensures id in views[2 * k].journals && Loadable(views[2 * k].journals[id], id)
    ensures CandidateOf(views[2 * k], id) == Candidate(views[2 * k].journals[id].updatedAt, id)
    ensures views[2 * k].journals[id].stage == Completed ==>
      HasCompleted(views[2 * k], id) && Load(h, views[2 * k + 1], id).Found?
    ensures views[2 * k].journals[id].stage != Completed ==>
      forall other :: Names(entries[k], other) ==> !HasCompleted(views[0], other)
  {
    hide Names, Load, Loadable;
    assert Accurate(h, views[2 * k]) && Accurate(h, views[2 * k + 1]);
    assert Grows(views[0], views[2 * k]) && Grows(views[2 * k], views[2 * k + 1]);
    StaysCompleted(views[0], views[2 * k], id);
    StaysCompleted(views[2 * k], views[2 * k + 1], id);
  }

  /** The best of all entries is the latest. */
  lemma Concludes(h: Hashes, views: seq<Disk>, entries: seq<Entry>, best: Option<Candidate>)
    requires Views(h, views) && Listing(views, entries) && BestSoFar(views, entries, |entries|, best)
    ensures best.None? ==> forall id :: !HasCompleted(views[0], id)
    ensures best.Some? ==>
      && Load(h, views[|views| - 1], best.value.runId).Found?
      && IsLatest(views[0], views[|views| - 1], best.value.runId)
  {
    ListingLength(views, entries);
    if best.Some? {
      BestCanBeLoaded(h, views, entries, best.value);
    }
    forall id | HasCompleted(views[0], id) ensures Covered(views[0], best, id) {
      CompletedIsCovered(h, views, entries, best, id);
    }
    hide Views, Listing, BestSoFar, Load, StringLess;
  }

  /** The candidate is the run itself or comes after it. */
  predicate Covered(d: Disk, best: Option<Candidate>, id: string) {
    && best.Some? && id in d.journals
    && (CandidateOf(d, id) == best.value || Before(CandidateOf(d, id), best.value))
  }

  lemma BestCanBeLoaded(h: Hashes, views: seq<Disk>, entries: seq<Entry>, best: Candidate)
    requires Views(h, views) && |views| == 2 * |entries| + 1 && BestSoFar(views, entries, |entries|, Some(best))
    ensures HasCompleted(views[|views| - 1], best.runId)
    ensures best == CandidateOf(views[|views| - 1], best.runId)
    ensures Load(h, views[|views| - 1], best.runId).Found?
  {
    AccurateAt(h, views, |views| - 1);
    hide Views, Load, Loadable, Names, Before;
  }

  lemma CompletedIsCovered(h: Hashes, views: seq<Disk>, entries: seq<Entry>, best: Option<Candidate>, id: string)
    requires Views(h, views) && Listing(views, entries) && |views| == 2 * |entries| + 1
    requires BestSoFar(views, entries, |entries|, best) && HasCompleted(views[0], id)
    ensures Covered(views[0], best, id)
  {
    hide *;
    var k := CompletedIsListed(h, views, entries, id);
    BestSoFarCovers(views, entries, |entries|, best, k, id);
  }

  lemma BestSoFarCovers(
    views: seq<Disk>, entries: seq<Entry>, n: nat, best: Option<Candidate>, k: nat, id: string)
    requires n <= |entries| && |views| == 2 * |entries| + 1 && BestSoFar(views, entries, n, best)
    requires k < n && Names(entries[k], id) && HasCompleted(views[0], id)
    ensures Covered(views[0], best, id)
  {
    hide Names, Before;
  }

  lemma AccurateAt(h: Hashes, views: seq<Disk>, i: nat)
    requires Views(h, views) && i < |views|
    ensures Accurate(h, views[i])
  {
    hide Accurate, Grows;
  }

  lemma CompletedIsListed(h: Hashes, views: seq<Disk>, entries: seq<Entry>, id: string) returns (k: nat)
    requires Views(h, views) && Listing(views, entries) && HasCompleted(views[0], id)
    ensures k < |entries| && Names(entries[k], id)
  {
    AccurateAt(h, views, 0);
    assert Loadable(views[0].journals[id], id);
    hide Views, Accurate, Names, HasCompleted;
    k :| k < |entries| && Names(entries[k], id);
  }

  lemma OneName(e: Entry, id: string)
    requires e.isFile && StripSuffix(e.name) == Some(id) && ValidRunId(id)
    ensures forall other :: Names(e, other) <==> other == id
  {
    forall other | Names(e, other) ensures other == id { StripsOwnSuffix(other); }
  }

  lemma StaysCompleted(d: Disk, d': Disk, id: string)
    requires Grows(d, d')
    ensures HasCompleted(d, id) ==> HasCompleted(d', id) && CandidateOf(d', id) == CandidateOf(d, id)
  {
    if HasCompleted(d, id) {
      assert FilesOfRun(d', id).journal == FilesOfRun(d, id).journal;
    }
  }

  /** An entry that names no completed run changes nothing. */
  lemma SkipEntry(h: Hashes, views: seq<Disk>, entries: seq<Entry>, k: nat, best: Option<Candidate>)
    requires Views(h, views) && k < |entries| && |views| == 2 * |entries| + 1
    requires BestSoFar(views, entries, k, best)
    requires forall id :: Names(entries[k], id) ==> !HasCompleted(views[0], id)
    ensures BestSoFar(views, entries, k + 1, best)
  {
    hide Names, Grows, Accurate, HasCompleted;
    assert Grows(views[2 * k], views[2 * (k + 1)]);
    if best.Some? {
      StaysCompleted(views[2 * k], views[2 * (k + 1)], best.value.runId);
    }
  }

  /** A completed run takes the place of the best so far if it comes after it. */
  lemma TakeEntry(h: Hashes, views: seq<Disk>, entries: seq<Entry>, k: nat, best: Option<Candidate>, id: string)
    requires Views(h, views) && k < |entries| && |views| == 2 * |entries| + 1
    requires BestSoFar(views, entries, k, best)
    requires forall other :: Names(entries[k], other) <==> other == id
    requires HasCompleted(views[2 * k], id)
    ensures
      var candidate := CandidateOf(views[2 * k], id);
      BestSoFar(views, entries, k + 1, if best.None? || Before(best.value, candidate) then Some(candidate) else best)
  {
    BeforeIsStrictOrder();
    hide Names, Grows, Accurate, Before;
    assert Grows(views[2 * k], views[2 * (k + 1)]);
    assert Grows(views[0], views[2 * k]);
    StaysCompleted(views[0], views[2 * k], id);
    StaysCompleted(views[2 * k], views[2 * (k + 1)], id);
    if best.Some? {
      StaysCompleted(views[2 * k], views[2 * (k + 1)], best.value.runId);
    }
  }

  /** Any increasing sequence of moments in any history of the store gives such views. */
  lemma HistoryGivesViews(h: Hashes, actions: seq<Action>, moments: seq<nat>, views: seq<Disk>)
    requires Sound(h) && |views| == |moments|
    requires forall i :: 0 <= i < |moments| ==> moments[i] <= |actions|
    requires forall i, j :: 0 <= i <= j < |moments| ==> moments[i] <= moments[j]
    requires forall i :: 0 <= i < |moments| ==> views[i] == History(h, actions[..moments[i]]).disk
    ensures Views(h, views)
  {
    forall i | 0 <= i < |views| ensures Accurate(h, views[i]) {
      HistoryIsAccurate(h, actions[..moments[i]]);
    }
    forall i, j | 0 <= i <= j < |views| ensures Grows(views[i], views[j]) {
      HistoryGrows(h, actions[..moments[j]], moments[i]);
      assert actions[..moments[j]][..moments[i]] == actions[..moments[i]];
    }
  }
}
