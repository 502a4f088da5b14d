/** The reading of a Codex event stream (src/codex_candidate.rs): an automaton over turn events that
    also picks the usage report. Decoding a line as JSON is not modelled; its outcome is. */
module CodexEvents {
  import opened Wrappers

  /** The largest value of a 64-bit unsigned word. */
  const USIZE_MAX := 0xFFFF_FFFF_FFFF_FFFF

  type usize = n: int | 0 <= n <= USIZE_MAX

  /** A field of a usage report; a number that does not fit a `usize` is invalid. */
  datatype Field = Missing | Invalid | Number(n: usize)

  datatype Report = Report(input: Field, output: Field, cached: Field)

  /** The values of an event's `type`; a completed item is told apart by whether it is a tool's. */
  datatype Kind =
    | ThreadStarted | TurnStarted | TurnCompleted | TurnFailed | ToolCompleted | Other

  datatype Line = Blank | Malformed | Event(kind: Kind, usage: Option<Report>)

  datatype Usage = Usage(prompt: usize, completion: usize, total: usize, cacheRead: Option<usize>, toolCalls: nat)

  datatype UsageError =
    | InvalidLine | InvalidUsage | NoThread | NoTurn | MalformedTurns | NotCompleted

  // ----------------------------------------------------------- what the stream is meant to say

  /** The turn events of a stream, in order. */
  function Turns(lines: seq<Line>): (turns: seq<Kind>)
    ensures forall k :: k in turns ==> k in {TurnStarted, TurnCompleted, TurnFailed}
  {
    if lines == [] then []
    else
      var line := lines[|lines| - 1];
      Turns(lines[..|lines| - 1])
      + if line.Event? && line.kind in {TurnStarted, TurnCompleted, TurnFailed} then [line.kind] else []
  }

  function ToolCalls(lines: seq<Line>): (n: nat)
    ensures n <= |lines|
  {
    if lines == [] then 0
    else
      var line := lines[|lines| - 1];
      ToolCalls(lines[..|lines| - 1]) + if line.Event? && line.kind == ToolCompleted then 1 else 0
  }

  /** Starts and ends alternate, beginning with a start. */
  predicate Alternates(turns: seq<Kind>) {
    forall i :: 0 <= i < |turns| ==> (turns[i] == TurnStarted <==> i % 2 == 0)
  }

  /** Any number of turns that completed or failed, and then one that completed. */
  predicate Complete(turns: seq<Kind>) {
    && turns != [] && |turns| % 2 == 0 && Alternates(turns)
    && turns[|turns| - 1] == TurnCompleted
  }

  predicate EndsIn(turns: seq<Kind>, kind: Kind) {
    turns != [] && turns[|turns| - 1] == kind
  }

  predicate ValidReport(r: Report) {
    r.input.Number? && r.output.Number? && !r.cached.Invalid?
  }

  predicate Readable(line: Line) {
    !line.Malformed? && (line.Event? && line.usage.Some? ==> ValidReport(line.usage.value))
  }

  predicate AllReadable(lines: seq<Line>) {
    forall i :: 0 <= i < |lines| ==> Readable(lines[i])
  }

  /** The first line that cannot be read; a malformed one has no usage to look at. */
  predicate FirstUnreadable(lines: seq<Line>, k: int) {
    0 <= k < |lines| && !Readable(lines[k]) && forall j :: 0 <= j < k ==> Readable(lines[j])
  }

  predicate Reports(line: Line) {
    line.Event? && line.usage.Some?
  }

  predicate HasThread(lines: seq<Line>) {
    exists i :: 0 <= i < |lines| && lines[i].Event? && lines[i].kind == ThreadStarted
  }

  predicate LastReport(lines: seq<Line>, k: int) {
    0 <= k < |lines| && Reports(lines[k]) && forall i :: k < i < |lines| ==> !Reports(lines[i])
  }

  predicate NoReport(lines: seq<Line>) {
    forall i :: 0 <= i < |lines| ==> !Reports(lines[i])
  }

  function SaturatingAdd(a: usize, b: usize): usize {
    if a + b > USIZE_MAX then USIZE_MAX else a + b
  }

  /** What a valid report amounts to after `toolCalls` completed tools. */
  function UsageOf(r: Report, toolCalls: nat): Usage
    requires ValidReport(r)
  {
    Usage(r.input.n, r.output.n, SaturatingAdd(r.input.n, r.output.n),
          if r.cached.Number? then Some(r.cached.n) else None, toolCalls)
  }

  /** The report of line `k`, with the tools completed up to and including that line. */
  function UsageAt(lines: seq<Line>, k: int): Usage
    requires 0 <= k < |lines| && Reports(lines[k]) && Readable(lines[k])
  {
    UsageOf(lines[k].usage.value, ToolCalls(lines[..k + 1]))
  }

  // ------------------------------------------------------------------------------- the code

  method UsizeField(field: Field) returns (value: Result<usize, UsageError>)
    ensures value == if field.Number? then Ok(field.n) else Err(InvalidUsage)
  {
    var optional := OptionalUsizeField(field);
    if optional.Err? {
      return Err(InvalidUsage);
    }
    match optional.value
    case None => return Err(InvalidUsage);
    case Some(n) => return Ok(n);
  }

  method OptionalUsizeField(field: Field) returns (value: Result<Option<usize>, UsageError>)
    ensures value.Err? <==> field.Invalid?
    ensures value.Ok? ==> value.value == if field.Number? then Some(field.n) else None
    ensures value.Err? ==> value.error == InvalidUsage
  {
    match field
    case Missing => return Ok(None);
    case Invalid => return Err(InvalidUsage);
    case Number(n) => return Ok(Some(n));
  }

  /** The fields of a report and what they are read as; a total beyond a word is the largest word. */
  predicate Reads(u: Usage, r: Report, toolCalls: nat) {
    && r.input == Number(u.prompt) && r.output == Number(u.completion) && u.toolCalls == toolCalls
    && (u.prompt + u.completion <= USIZE_MAX ==> u.total == u.prompt + u.completion)
    && (u.prompt + u.completion > USIZE_MAX ==> u.total == USIZE_MAX)
    && (match r.cached
        case Missing => u.cacheRead == None
        case Number(n) => u.cacheRead == Some(n)
        case Invalid => false)
  }

  method ReadReport(report: Report, toolCalls: nat) returns (usage: Result<Usage, UsageError>)
    ensures usage == if ValidReport(report) then Ok(UsageOf(report, toolCalls)) else Err(InvalidUsage)
    // both counts are numbers of a word, and the cached count is one if it is there
    ensures usage.Ok? <==> report.input.Number? && report.output.Number? && !report.cached.Invalid?
    ensures usage.Ok? ==> Reads(usage.value, report, toolCalls)
  {
    var prompt :- UsizeField(report.input);
    var completion :- UsizeField(report.output);
    var cached :- OptionalUsizeField(report.cached);
    return Ok(Usage(prompt, completion, SaturatingAdd(prompt, completion), cached, toolCalls));
  }

  method ParseUsage(lines: seq<Line>) returns (usage: Result<Option<Usage>, UsageError>)
    ensures usage.Ok? <==> AllReadable(lines) && HasThread(lines) && Complete(Turns(lines))
    ensures usage.Ok? && usage.value.None? ==> NoReport(lines)
    ensures usage.Ok? && usage.value.Some? ==>
      exists k :: LastReport(lines, k) && usage.value.value == UsageAt(lines, k)
                  && Reads(usage.value.value, lines[k].usage.value, ToolCalls(lines[..k + 1]))
    ensures usage == Err(InvalidLine) <==> exists k :: FirstUnreadable(lines, k) && lines[k].Malformed?
    ensures usage == Err(InvalidUsage) <==> exists k :: FirstUnreadable(lines, k) && !lines[k].Malformed?
    ensures usage == Err(NoThread) <==> AllReadable(lines) && !HasThread(lines)
    ensures usage == Err(NoTurn) <==> AllReadable(lines) && HasThread(lines) && TurnStarted !in Turns(lines)
    ensures usage == Err(NotCompleted) <==>
      AllReadable(lines) && HasThread(lines) && Alternates(Turns(lines)) && EndsIn(Turns(lines), TurnFailed)
  {
    var chosen: Option<Usage> := None;
    var toolCalls: nat := 0;
    var sawThread, sawTurn, activeTurn, malformedOrder := false, false, false, false;
    var terminalTurn: Option<bool> := None;
    var i := 0;
    while i < |lines|
      invariant 0 <= i <= |lines|
      invariant Chosen(lines[..i], chosen)
      invariant toolCalls == ToolCalls(lines[..i])
      invariant sawThread == HasThread(lines[..i])
      invariant sawTurn == (TurnStarted in Turns(lines[..i]))
      invariant Tracks(Turns(lines[..i]), activeTurn, malformedOrder, terminalTurn)
    {
      hide *;
      var line := lines[i];
      assert lines[..i + 1] == lines[..i] + [line];
      LineAdds(lines[..i], line);
      TurnAdds(Turns(lines[..i]), activeTurn, malformedOrder, terminalTurn, if line.Event? then line.kind else Other);
      ChoiceMoves(lines[..i], line, chosen);
      ChosenIsReadable(lines[..i], chosen);
      i := i + 1;
      if line.Blank? {
        continue;
      }
      if line.Malformed? {
        UnreadableLine(lines, i - 1);
        return Err(InvalidLine);
      }
      match line.kind {
      case ThreadStarted => sawThread := true;
      case TurnStarted =>
        if activeTurn {
          malformedOrder := true;
        }
        sawTurn, activeTurn, terminalTurn := true, true, None;
      case TurnCompleted =>
        if !activeTurn {
          malformedOrder := true;
        }
        activeTurn, terminalTurn := false, Some(true);
      case TurnFailed =>
        if !activeTurn {
          malformedOrder := true;
        }
        activeTurn, terminalTurn := false, Some(false);
      case _ =>
      }
      if line.kind == ToolCompleted {
        toolCalls := toolCalls + 1;
      }
      if line.usage.None? {
        continue;
      }
      var read := ReadReport(line.usage.value, toolCalls);
      if read.Err? {
        UnreadableLine(lines, i - 1);
        return Err(InvalidUsage);
      }
      chosen := Some(read.value);
    }
    assert lines[..i] == lines;
    FlagsDecide(Turns(lines), activeTurn, malformedOrder, terminalTurn);
    ReadableHasNoFirst(lines);
    hide *;
    if !sawThread {
      return Err(NoThread);
    }
    if !sawTurn {
      return Err(NoTurn);
    }
    if malformedOrder || activeTurn {
      return Err(MalformedTurns);
    }
    if terminalTurn != Some(true) {
      return Err(NotCompleted);
    }
    return Ok(chosen);
  }

  /** What the automaton's flags say about the turn events so far. */
  predicate Tracks(turns: seq<Kind>, activeTurn: bool, malformedOrder: bool, terminalTurn: Option<bool>) {
    && activeTurn == (turns != [] && turns[|turns| - 1] == TurnStarted)
    && malformedOrder == !Alternates(turns)
    && terminalTurn ==
      if turns == [] || turns[|turns| - 1] == TurnStarted then None
      else Some(turns[|turns| - 1] == TurnCompleted)
  }

  /** Every line so far could be read, and the usage is that of the last report. */
  ghost predicate Chosen(lines: seq<Line>, usage: Option<Usage>) {
    && AllReadable(lines)
    && (usage.None? ==> NoReport(lines))
    && (usage.Some? ==> exists k :: LastReport(lines, k) && usage.value == UsageAt(lines, k))
  }

  lemma ChosenIsReadable(lines: seq<Line>, usage: Option<Usage>)
    requires Chosen(lines, usage)
    ensures AllReadable(lines)
  {
  }

  /** The final tests accept exactly the complete streams. */
  lemma FlagsDecide(turns: seq<Kind>, activeTurn: bool, malformedOrder: bool, terminalTurn: Option<bool>)
    requires Tracks(turns, activeTurn, malformedOrder, terminalTurn)
    requires forall k :: k in turns ==> k in {TurnStarted, TurnCompleted, TurnFailed}
    ensures Complete(turns) <==> !malformedOrder && !activeTurn && terminalTurn == Some(true)
    ensures Complete(turns) ==> TurnStarted in turns
    ensures Alternates(turns) && EndsIn(turns, TurnFailed) <==>
      TurnStarted in turns && !malformedOrder && !activeTurn && terminalTurn != Some(true)
  {
    if turns != [] && Alternates(turns) {
      assert turns[0] == TurnStarted && turns[0] in turns;
      assert turns[|turns| - 1] in turns;
      assert turns[|turns| - 1] == TurnStarted <==> (|turns| - 1) % 2 == 0;
    }
  }

  lemma UnreadableLine(lines: seq<Line>, i: int)
    requires 0 <= i < |lines|
    requires lines[i].Malformed? || (Reports(lines[i]) && !ValidReport(lines[i].usage.value))
    requires AllReadable(lines[..i])
    ensures !AllReadable(lines) && FirstUnreadable(lines, i)
    ensures forall k :: FirstUnreadable(lines, k) ==> k == i
  {
    assert !Readable(lines[i]);
    assert forall j :: 0 <= j < i ==> lines[..i][j] == lines[j];
  }

  lemma ReadableHasNoFirst(lines: seq<Line>)
    requires AllReadable(lines)
    ensures forall k :: !FirstUnreadable(lines, k)
  {
  }

  /** One more line changes nothing but what it says. */
  lemma LineAdds(was: seq<Line>, line: Line)
    ensures Turns(was + [line]) ==
      if line.Event? && line.kind in {TurnStarted, TurnCompleted, TurnFailed} then Turns(was) + [line.kind]
      else Turns(was)
    ensures ToolCalls(was + [line]) == ToolCalls(was) + if line.Event? && line.kind == ToolCompleted then 1 else 0
    ensures HasThread(was + [line]) <==> HasThread(was) || (line.Event? && line.kind == ThreadStarted)
    ensures AllReadable(was + [line]) <==> AllReadable(was) && Readable(line)
  {
    var lines := was + [line];
    assert lines[..|lines| - 1] == was;
    assert lines[|was|] == line && forall i :: 0 <= i < |was| ==> lines[i] == was[i];
  }

  /** A line without a report leaves the choice as it was; a valid report takes its place. */
  lemma ChoiceMoves(was: seq<Line>, line: Line, usage: Option<Usage>)
    requires Chosen(was, usage)
    ensures line.Blank? || (line.Event? && line.usage.None?) ==> Chosen(was + [line], usage)
    ensures line.Event? && line.usage.Some? && ValidReport(line.usage.value) ==>
      Chosen(was + [line], Some(UsageOf(line.usage.value, ToolCalls(was + [line]))))
  {
    var lines := was + [line];
    if !Readable(line) {
    } else if Reports(line) {
      LineAdds(was, line);
      assert lines[..|was| + 1] == lines;
      assert LastReport(lines, |was|) && UsageAt(lines, |was|) == UsageOf(line.usage.value, ToolCalls(lines));
    } else {
      LineAdds(was, line);
      if usage.Some? {
        var k :| LastReport(was, k) && usage.value == UsageAt(was, k);
        assert lines[..k + 1] == was[..k + 1];
        assert LastReport(lines, k) && UsageAt(lines, k) == UsageAt(was, k);
      }
    }
  }

  /** One more turn event moves the flags as the automaton does. */
  lemma TurnAdds(turns: seq<Kind>, activeTurn: bool, malformedOrder: bool, terminalTurn: Option<bool>, kind: Kind)
    requires Tracks(turns, activeTurn, malformedOrder, terminalTurn)
    ensures kind == TurnStarted ==> Tracks(turns + [kind], true, malformedOrder || activeTurn, None)
    ensures kind in {TurnCompleted, TurnFailed} ==>
      Tracks(turns + [kind], false, malformedOrder || !activeTurn, Some(kind == TurnCompleted))
  {
    var next := turns + [kind];
    assert next[|turns|] == kind && forall i :: 0 <= i < |turns| ==> next[i] == turns[i];
    if Alternates(turns) && turns != [] {
      assert turns[|turns| - 1] == TurnStarted <==> (|turns| - 1) % 2 == 0;
    }
  }

  /** A run of turns, each of which completed or failed. */
  function Word(completed: seq<bool>): seq<Kind> {
    if completed == [] then []
    else Word(completed[..|completed| - 1])
         + [TurnStarted, if completed[|completed| - 1] then TurnCompleted else TurnFailed]
  }

  /** Complete streams are exactly the runs of turns of which the last completed. */
  lemma {:induction false} CompleteIsARunOfTurns(turns: seq<Kind>)
    requires forall k :: k in turns ==> k in {TurnStarted, TurnCompleted, TurnFailed}
    ensures Complete(turns) <==>
      exists completed :: completed != [] && completed[|completed| - 1] && turns == Word(completed)
  {
    if Complete(turns) {
      var completed := AsWord(turns);
      WordAlternates(completed);
      assert completed != [];
    }
    forall completed | completed != [] && completed[|completed| - 1] && turns == Word(completed)
      ensures Complete(turns)
    {
      WordAlternates(completed);
    }
  }

  lemma {:induction false} WordAlternates(completed: seq<bool>)
    ensures |Word(completed)| == 2 * |completed| && Alternates(Word(completed))
    ensures completed != [] ==>
      Word(completed)[|Word(completed)| - 1] == if completed[|completed| - 1] then TurnCompleted else TurnFailed
  {
    if completed != [] {
      var front, last := Word(completed[..|completed| - 1]), completed[|completed| - 1];
      WordAlternates(completed[..|completed| - 1]);
      var word := front + [TurnStarted, if last then TurnCompleted else TurnFailed];
      assert Word(completed) == word;
      hide Word;
      assert forall i :: 0 <= i < |front| ==> word[i] == front[i];
    }
  }

  lemma {:induction false} AsWord(turns: seq<Kind>) returns (completed: seq<bool>)
    requires |turns| % 2 == 0 && Alternates(turns)
    requires forall k :: k in turns ==> k in {TurnStarted, TurnCompleted, TurnFailed}
    ensures turns == Word(completed)
  {
    if turns == [] {
      completed := [];
    } else {
      var n := |turns| - 2;
      var end := if turns[n + 1] == TurnCompleted then TurnCompleted else TurnFailed;
      assert turns[n] == TurnStarted && turns[n + 1] != TurnStarted && turns[n + 1] in turns;
      assert turns[n + 1] == end;
      assert turns == turns[..n] + [TurnStarted, end];
      assert forall k :: k in turns[..n] ==> k in turns;
      hide Word;
      var rest := AsWord(turns[..n]);
      completed := rest + [end == TurnCompleted];
      WordGrows(rest, end == TurnCompleted);
    }
  }

  lemma WordGrows(completed: seq<bool>, last: bool)
    ensures Word(completed + [last]) == Word(completed) + [TurnStarted, if last then TurnCompleted else TurnFailed]
  {
    assert (completed + [last])[..|completed|] == completed;
  }
}
