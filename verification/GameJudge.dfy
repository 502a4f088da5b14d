/** The Judge's reading of a game history (src/game_judge.rs), and its agreement with the server
    that writes it (runtime_assets/game_server_app.py). */
module GameJudge {
  import opened Wrappers
  import opened GameServer

  /** A history entry as the Judge receives it: a missing or non-numeric field is `None`. */
  datatype Record = Record(score: Option<int>, finalScore: Option<int>, moves: Option<int>, peak: Option<int>)

  /** The history document; `entries` is `None` when it is missing or not a list. */
  datatype Document = Document(bestScore: Option<int>, entries: Option<seq<Record>>)

  datatype HistoryScore = HistoryScore(raw: int, bestMoves: int, bestPeak: int)

  datatype HistoryError =
    | FieldMissing | EntriesMissing | EmptyWithScore | ScoreIsNotFinal | BestDoesNotMatch

  function OrZero(field: Option<int>): int {
    match field
    case None => 0
    case Some(n) => n
  }

  // ----------------------------------------------------------------------- the server side

  /** The position of the first entry with the largest score. */
  function FirstBest(history: seq<Entry>): (k: nat)
    requires history != []
    ensures k < |history|
    ensures forall j :: 0 <= j < |history| ==> history[j].score <= history[k].score
    ensures forall j :: 0 <= j < k ==> history[j].score < history[k].score
  {
    if |history| == 1 then 0
    else
      var k := FirstBest(history[..|history| - 1]);
      assert history[..|history| - 1][k] == history[k];
      if history[|history| - 1].score > history[k].score then
        assert forall j :: 0 <= j < |history| - 1 ==> history[..|history| - 1][j] == history[j];
        |history| - 1
      else
        assert forall j :: 0 <= j < |history| - 1 ==> history[..|history| - 1][j] == history[j];
        k
  }

  function Published(e: Entry): Record {
    Record(Some(e.score), Some(e.finalScore), Some(e.moves), Some(e.peak))
  }

  /** The response to a history request. */
  function HistoryResponse(history: seq<Entry>): Document {
    var entries := seq(|history|, k requires 0 <= k < |history| => Published(history[k]));
    if history == [] then Document(Some(0), Some(entries))
    else Document(Some(history[FirstBest(history)].score), Some(entries))
  }

  // ------------------------------------------------------------------------ the Judge side

  /** Every entry has a score, and it is the final one. */
  predicate WellScored(entries: seq<Record>) {
    forall k :: 0 <= k < |entries| ==> entries[k].score.Some? && entries[k].finalScore == entries[k].score
  }

  /** `k` is the first of the best entries. */
  predicate IsFirstBest(entries: seq<Record>, k: int) {
    && 0 <= k < |entries| && WellScored(entries)
    && (forall j :: 0 <= j < |entries| ==> entries[j].score.value <= entries[k].score.value)
    && (forall j :: 0 <= j < k ==> entries[j].score.value < entries[k].score.value)
  }

  method ParseGameHistory(document: Document) returns (result: Result<HistoryScore, HistoryError>)
    // accepted exactly when the reported best is the largest final score (zero without games)
    ensures result.Ok? <==>
      && document.bestScore.Some? && document.entries.Some?
      && (if document.entries.value == [] then document.bestScore.value == 0
          else exists k :: IsFirstBest(document.entries.value, k)
                 && document.entries.value[k].score == document.bestScore)
    ensures result.Ok? && document.entries.value == [] ==> result.value == HistoryScore(0, 0, 0)
    ensures result.Ok? ==> forall k :: IsFirstBest(document.entries.value, k) ==>
      && result.value.raw == document.entries.value[k].score.value
      && result.value.bestMoves == OrZero(document.entries.value[k].moves)
      && result.value.bestPeak == OrZero(document.entries.value[k].peak)
  {
    if document.bestScore.None? {
      return Err(FieldMissing);
    }
    var reportedBest := document.bestScore.value;
    if document.entries.None? {
      return Err(EntriesMissing);
    }
    var entries := document.entries.value;
    if |entries| == 0 {
      return if reportedBest == 0 then Ok(HistoryScore(0, 0, 0)) else Err(EmptyWithScore);
    }
    var best: Option<nat> := None;
    var k := 0;
    while k < |entries|
      invariant 0 <= k <= |entries| && WellScored(entries[..k])
      invariant if k == 0 then best == None else best.Some? && IsFirstBest(entries[..k], best.value)
    {
      var entry := entries[k];
      if entry.score.None? || entry.finalScore.None? {
        return Err(FieldMissing);
      }
      if entry.score != entry.finalScore {
        return Err(ScoreIsNotFinal);
      }
      var replace := best.None? || entry.score.value > entries[best.value].score.value;
      assert entries[..k + 1] == entries[..k] + [entry];
      if replace {
        best := Some(k);
      }
      k := k + 1;
    }
    assert entries[..k] == entries;
    FirstBestIsUnique(entries, best.value);
    var bestEntry := entries[best.value];
    if reportedBest != bestEntry.score.value {
      return Err(BestDoesNotMatch);
    }
    return Ok(HistoryScore(bestEntry.score.value, OrZero(bestEntry.moves), OrZero(bestEntry.peak)));
  }

  lemma FirstBestIsUnique(entries: seq<Record>, k: int)
    requires IsFirstBest(entries, k)
    ensures forall j :: IsFirstBest(entries, j) ==> j == k
  {
    forall j | IsFirstBest(entries, j) ensures j == k {
      assert entries[j].score.value == entries[k].score.value;
    }
  }

  // -------------------------------------------------------------------------- agreement

  /** Both sides pick the same entry: the server's first maximum is the Judge's. */
  lemma {:induction false} SameBestEntry(history: seq<Entry>)
    requires history != [] && Accurate(history)
    ensures IsFirstBest(HistoryResponse(history).entries.value, FirstBest(history))
  {
    var entries, k := HistoryResponse(history).entries.value, FirstBest(history);
    assert WellScored(entries);
    assert forall j :: 0 <= j < |entries| ==> entries[j].score.value <= entries[k].score.value;
  }

  /** The Judge accepts what a reachable server reports, whatever the scores, and takes from it the
      largest final score with the moves and peak of the first game that reached it. */
  method JudgeReachableHistory(events: seq<Event>, max: nat) returns (result: Result<HistoryScore, HistoryError>)
    requires max >= 1
    ensures result.Ok?
    ensures var history := Run(Initial(), events, max).store.history;
            if history == [] then result.value == HistoryScore(0, 0, 0)
            else var best := history[FirstBest(history)];
                 result.value == HistoryScore(best.score, best.moves, best.peak)
  {
    var history := Run(Initial(), events, max).store.history;
    ReachableSessionsAreConsistent(events, max);
    assert Accurate(history);
    if history != [] {
      SameBestEntry(history);
      assert HistoryResponse(history).entries.value[FirstBest(history)] == Published(history[FirstBest(history)]);
    }
    result := ParseGameHistory(HistoryResponse(history));
  }
}
