/** Redaction of credentials from captured output (src/codex_auth.rs). */
module Redaction {
  import opened Wrappers
  import Sequences

  /** The bytes of the replacement text, "[redacted]". */
  const MARKER: seq<byte> := [91, 114, 101, 100, 97, 99, 116, 101, 100, 93]

  // ---------------------------------------------------------------- substrings

  predicate OccursAt(text: seq<byte>, s: seq<byte>, i: int) {
    0 <= i && i + |s| <= |text| && text[i..i + |s|] == s
  }

  ghost predicate Occurs(text: seq<byte>, s: seq<byte>) {
    exists i :: OccursAt(text, s, i)
  }

  /** The leftmost position of `s` at or after `from`. */
  function Next(text: seq<byte>, s: seq<byte>, from: nat): (found: Option<nat>)
    ensures found.Some? ==> from <= found.value && found.value + |s| <= |text|
    decreases |text| + 1 - from
  {
    if from + |s| > |text| then None
    else if OccursAt(text, s, from) then Some(from)
    else Next(text, s, from + 1)
  }

  ghost predicate IsNext(text: seq<byte>, s: seq<byte>, from: nat, found: Option<nat>) {
    match found
    case None => forall j :: from <= j ==> !OccursAt(text, s, j)
    case Some(i) => from <= i && OccursAt(text, s, i) && forall j :: from <= j < i ==> !OccursAt(text, s, j)
  }

  lemma {:induction false} NextIsNext(text: seq<byte>, s: seq<byte>, from: nat)
    ensures IsNext(text, s, from, Next(text, s, from))
    decreases |text| + 1 - from
  {
    if from + |s| <= |text| && !OccursAt(text, s, from) {
      NextIsNext(text, s, from + 1);
    }
  }

  /** Only the leftmost position qualifies. */
  lemma NextIsUnique(text: seq<byte>, s: seq<byte>, from: nat, found: Option<nat>)
    requires IsNext(text, s, from, found)
    ensures found == Next(text, s, from)
  {
    NextIsNext(text, s, from);
    var next := Next(text, s, from);
    if found.Some? && next.Some? {
      assert OccursAt(text, s, found.value) && OccursAt(text, s, next.value);
    }
  }

  // -------------------------------------------------------------- specification

  /** One pass from `cursor` on: leftmost, non-overlapping replacement of one secret. */
  function RedactFrom(text: seq<byte>, secret: seq<byte>, marker: seq<byte>, cursor: nat): seq<byte>
    requires secret != [] && cursor <= |text|
    decreases |text| - cursor
  {
    match Next(text, secret, cursor)
    case None => text[cursor..]
    case Some(i) => text[cursor..i] + marker + RedactFrom(text, secret, marker, i + |secret|)
  }

  function RedactOne(text: seq<byte>, secret: seq<byte>, marker: seq<byte>): seq<byte>
    requires secret != []
  {
    RedactFrom(text, secret, marker, 0)
  }

  /** All passes, in the order in which the secrets are listed. */
  function Redact(text: seq<byte>, secrets: seq<seq<byte>>): seq<byte>
    decreases |secrets|
  {
    if secrets == [] then text
    else if secrets[0] == [] then Redact(text, secrets[1..])
    else Redact(RedactOne(text, secrets[0], MARKER), secrets[1..])
  }

  // -------------------------------------------------------------- the algorithm

  /** The first window at or after `cursor` that equals the secret. */
  method Position(text: seq<byte>, secret: seq<byte>, cursor: nat) returns (start: Option<nat>)
    requires cursor <= |text|
    ensures start == Next(text, secret, cursor)
  {
    var i := cursor;
    while i + |secret| <= |text|
      invariant cursor <= i <= |text| + 1
      invariant forall j :: cursor <= j < i ==> !OccursAt(text, secret, j)
      decreases |text| - i
    {
      if text[i..i + |secret|] == secret {
        NextIsUnique(text, secret, cursor, Some(i));
        return Some(i);
      }
      i := i + 1;
    }
    NextIsUnique(text, secret, cursor, None);
    return None;
  }

  lemma PassStep(done: seq<byte>, text: seq<byte>, secret: seq<byte>, marker: seq<byte>, cursor: nat, start: nat)
    requires secret != [] && cursor <= |text| && Next(text, secret, cursor) == Some(start)
    ensures done + RedactFrom(text, secret, marker, cursor)
         == done + text[cursor..start] + marker + RedactFrom(text, secret, marker, start + |secret|)
  {
    var rest := RedactFrom(text, secret, marker, start + |secret|);
    Sequences.AppendAssociates(done, text[cursor..start] + marker, rest);
    Sequences.AppendAssociates(done, text[cursor..start], marker);
  }

  /** One secret's pass over the text: copy up to the next match, write the marker, move on. */
  method RedactPass(text: seq<byte>, secret: seq<byte>, marker: seq<byte>) returns (redacted: seq<byte>)
    requires secret != []
    ensures redacted == RedactOne(text, secret, marker)
  {
    PassBegins(text, secret, marker);
    hide RedactFrom, RedactOne, OccursAt, Next;
    redacted := [];
    var cursor := 0;
    var found := Position(text, secret, cursor);
    while found.Some?
      invariant 0 <= cursor <= |text| && found == Next(text, secret, cursor)
      invariant redacted + RedactFrom(text, secret, marker, cursor) == RedactOne(text, secret, marker)
      decreases |text| - cursor
    {
      var start := found.value;
      PassStep(redacted, text, secret, marker, cursor, start);
      redacted := redacted + text[cursor..start] + marker;
      cursor := start + |secret|;
      found := Position(text, secret, cursor);
    }
    PassEnds(text, secret, marker, cursor);
    redacted := redacted + text[cursor..];
  }

  lemma PassBegins(text: seq<byte>, secret: seq<byte>, marker: seq<byte>)
    requires secret != []
    ensures [] + RedactFrom(text, secret, marker, 0) == RedactOne(text, secret, marker)
  {
    hide RedactFrom;
  }

  lemma PassEnds(text: seq<byte>, secret: seq<byte>, marker: seq<byte>, cursor: nat)
    requires secret != [] && cursor <= |text| && Next(text, secret, cursor).None?
    ensures RedactFrom(text, secret, marker, cursor) == text[cursor..]
  {
    hide Next;
  }

  method RedactBytes(bytes: seq<byte>, secrets: seq<seq<byte>>) returns (output: seq<byte>)
    ensures output == Redact(bytes, secrets)
  {
    if |secrets| == 0 {
      return bytes;
    }
    output := bytes;
    assert secrets[0..] == secrets;
    for k := 0 to |secrets|
      invariant Redact(output, secrets[k..]) == Redact(bytes, secrets)
    {
      var secret := secrets[k];
      assert secrets[k..][0] == secret && secrets[k..][1..] == secrets[k + 1..];
      if |secret| == 0 {
        continue;
      }
      output := RedactPass(output, secret, MARKER);
    }
  }

  // ---------------------------------------------- what one pass means: the gaps

  /** `parts` with `separator` between neighbours. */
  function Join(parts: seq<seq<byte>>, separator: seq<byte>): seq<byte>
    requires |parts| > 0
  {
    if |parts| == 1 then parts[0] else parts[0] + separator + Join(parts[1..], separator)
  }

  lemma JoinCons(first: seq<byte>, rest: seq<seq<byte>>, separator: seq<byte>)
    requires |rest| > 0
    ensures Join([first] + rest, separator) == first + separator + Join(rest, separator)
  {
    assert ([first] + rest)[1..] == rest;
  }

  /** The pieces of text that one pass keeps. */
  function Gaps(text: seq<byte>, secret: seq<byte>, cursor: nat): (gaps: seq<seq<byte>>)
    requires secret != [] && cursor <= |text|
    ensures |gaps| > 0
    decreases |text| - cursor
  {
    match Next(text, secret, cursor)
    case None => [text[cursor..]]
    case Some(i) => [text[cursor..i]] + Gaps(text, secret, i + |secret|)
  }

  /** One pass changes nothing but the secret: the text is its gaps joined by the secret, and the
      output is the same gaps joined by the marker. */
  lemma {:induction false} PassReplacesOnlyTheSecret(text: seq<byte>, secret: seq<byte>, marker: seq<byte>, cursor: nat)
    requires secret != [] && cursor <= |text|
    ensures Join(Gaps(text, secret, cursor), secret) == text[cursor..]
    ensures Join(Gaps(text, secret, cursor), marker) == RedactFrom(text, secret, marker, cursor)
    decreases |text| - cursor
  {
    hide Next;
    match Next(text, secret, cursor)
    case None =>
    case Some(i) =>
      PassReplacesOnlyTheSecret(text, secret, marker, i + |secret|);
      JoinCons(text[cursor..i], Gaps(text, secret, i + |secret|), secret);
      JoinCons(text[cursor..i], Gaps(text, secret, i + |secret|), marker);
      NextIsNext(text, secret, cursor);
      ThreePieces(text, cursor, i, i + |secret|);
  }

  lemma ThreePieces(text: seq<byte>, a: nat, b: nat, c: nat)
    requires a <= b <= c <= |text|
    ensures text[a..] == text[a..b] + text[b..c] + text[c..]
  {
  }

  /** No gap holds the secret. */
  lemma {:induction false} GapsAreClean(text: seq<byte>, secret: seq<byte>, cursor: nat, k: nat)
    requires secret != [] && cursor <= |text| && k < |Gaps(text, secret, cursor)|
    ensures !Occurs(Gaps(text, secret, cursor)[k], secret)
    decreases |text| - cursor
  {
    var next := Next(text, secret, cursor);
    if next.Some? && k > 0 {
      GapsAreClean(text, secret, next.value + |secret|, k - 1);
    } else {
      assert text[cursor..|text|] == text[cursor..];
      CleanBefore(text, secret, cursor, if next.Some? then next.value else |text|);
    }
  }

  lemma PieceOccurrence(text: seq<byte>, from: nat, to: nat, s: seq<byte>, i: int)
    requires from <= to <= |text| && OccursAt(text[from..to], s, i)
    ensures OccursAt(text, s, from + i)
  {
    Sequences.SliceSlice(text, from, to, i, i + |s|);
  }

  // ---------------------------------------------------- which secrets are removed

  /** A marker laid over `s` with its first byte at position `d` of `s` meets `s` somewhere and
      agrees with it wherever the two overlap. */
  predicate MarkerFits(s: seq<byte>, marker: seq<byte>, d: int) {
    -|marker| < d < |s| && forall k :: 0 <= k < |marker| && 0 <= d + k < |s| ==> s[d + k] == marker[k]
  }

  /** The secret can appear in a text because of an inserted marker. */
  ghost predicate Collides(s: seq<byte>, marker: seq<byte>) {
    exists d :: MarkerFits(s, marker, d)
  }

  /** An occurrence in `left + marker + right` that avoids both sides lies over the marker. */
  lemma OccurrenceBesideMarker(left: seq<byte>, right: seq<byte>, s: seq<byte>, marker: seq<byte>, p: int)
    requires s != [] && !Collides(s, marker)
    requires OccursAt(left + marker + right, s, p)
    ensures OccursAt(left, s, p) || OccursAt(right, s, p - |left| - |marker|)
  {
    var whole := left + marker + right;
    if p + |s| <= |left| {
      assert whole[p..p + |s|] == left[p..p + |s|];
    } else if p >= |left| + |marker| {
      var q := p - |left| - |marker|;
      assert whole[p..p + |s|] == right[q..q + |s|];
    } else {
      var d := |left| - p;
      forall k | 0 <= k < |marker| && 0 <= d + k < |s| ensures s[d + k] == marker[k] {
        assert whole[p..p + |s|][d + k] == whole[|left| + k];
      }
      assert MarkerFits(s, marker, d);
    }
  }

  /** A pass for any secret creates no occurrence of a secret that cannot collide. */
  lemma {:induction false} PassCreatesNone(text: seq<byte>, secret: seq<byte>, s: seq<byte>, marker: seq<byte>, cursor: nat)
    requires secret != [] && s != [] && !Collides(s, marker) && cursor <= |text|
    requires Occurs(RedactFrom(text, secret, marker, cursor), s)
    ensures Occurs(text, s)
    decreases |text| - cursor
  {
    var output := RedactFrom(text, secret, marker, cursor);
    var p :| OccursAt(output, s, p);
    match Next(text, secret, cursor)
    case None =>
      assert text[cursor..|text|] == text[cursor..];
      PieceOccurrence(text, cursor, |text|, s, p);
    case Some(i) =>
      var tail := RedactFrom(text, secret, marker, i + |secret|);
      OccurrenceBesideMarker(text[cursor..i], tail, s, marker, p);
      if OccursAt(text[cursor..i], s, p) {
        PieceOccurrence(text, cursor, i, s, p);
      } else {
        PassCreatesNone(text, secret, s, marker, i + |secret|);
      }
  }

  /** The text before the next occurrence holds none. */
  lemma CleanBefore(text: seq<byte>, s: seq<byte>, cursor: nat, end: nat)
    requires s != [] && cursor <= end <= |text|
    requires Next(text, s, cursor) == if end == |text| then None else Some(end)
    ensures !Occurs(text[cursor..end], s)
  {
    NextIsNext(text, s, cursor);
    forall j ensures !OccursAt(text[cursor..end], s, j) {
      if OccursAt(text[cursor..end], s, j) {
        PieceOccurrence(text, cursor, end, s, j);
      }
    }
  }

  /** The pass for a secret that cannot collide leaves none of it. */
  lemma {:induction false} PassRemovesAll(text: seq<byte>, s: seq<byte>, marker: seq<byte>, cursor: nat)
    requires s != [] && !Collides(s, marker) && cursor <= |text|
    ensures !Occurs(RedactFrom(text, s, marker, cursor), s)
    decreases |text| - cursor
  {
    match Next(text, s, cursor)
    case None =>
      CleanBefore(text, s, cursor, |text|);
      assert text[cursor..|text|] == text[cursor..];
    case Some(i) =>
      var tail := RedactFrom(text, s, marker, i + |s|);
      CleanBefore(text, s, cursor, i);
      PassRemovesAll(text, s, marker, i + |s|);
      forall p ensures !OccursAt(text[cursor..i] + marker + tail, s, p) {
        if OccursAt(text[cursor..i] + marker + tail, s, p) {
          OccurrenceBesideMarker(text[cursor..i], tail, s, marker, p);
        }
      }
  }

  lemma {:induction false} LaterPassesCreateNone(text: seq<byte>, secrets: seq<seq<byte>>, s: seq<byte>)
    requires s != [] && !Collides(s, MARKER)
    ensures Occurs(Redact(text, secrets), s) ==> Occurs(text, s)
    decreases |secrets|
  {
    if secrets != [] {
      if secrets[0] == [] {
        LaterPassesCreateNone(text, secrets[1..], s);
      } else {
        var once := RedactOne(text, secrets[0], MARKER);
        if Occurs(once, s) { PassCreatesNone(text, secrets[0], s, MARKER, 0); }
        LaterPassesCreateNone(once, secrets[1..], s);
      }
    }
  }

  /** Main result: whatever the other secrets and whatever their order, a listed secret that
      cannot collide with the marker does not occur in the output. */
  lemma {:induction false} RedactionIsComplete(text: seq<byte>, secrets: seq<seq<byte>>, s: seq<byte>)
    requires s in secrets && s != [] && !Collides(s, MARKER)
    ensures !Occurs(Redact(text, secrets), s)
    decreases |secrets|
  {
    if secrets[0] == s {
      PassRemovesAll(text, s, MARKER, 0);
      LaterPassesCreateNone(RedactOne(text, s, MARKER), secrets[1..], s);
    } else {
      assert s in secrets[1..];
      RedactionIsComplete(if secrets[0] == [] then text else RedactOne(text, secrets[0], MARKER), secrets[1..], s);
    }
  }

  /** Every text and every list of secrets holding `s` gives an output without `s`. */
  ghost predicate AlwaysRemoved(s: seq<byte>) {
    forall text: seq<byte>, secrets: seq<seq<byte>> :: s in secrets ==> !Occurs(Redact(text, secrets), s)
  }

  /** The same for lists that are sorted longest first, as those of the code are. */
  ghost predicate RemovedWhenSorted(s: seq<byte>) {
    forall text: seq<byte>, secrets: seq<seq<byte>> ::
      s in secrets && LongestFirst(secrets) ==> !Occurs(Redact(text, secrets), s)
  }

  /** Laid over a marker, with the parts that stick out on either side, `s` occurs. */
  lemma FittingMarkerMakesOccurrence(s: seq<byte>, marker: seq<byte>, d: int, u: seq<byte>, v: seq<byte>)
    requires MarkerFits(s, marker, d)
    requires u == if d > 0 then s[..d] else []
    requires v == if d + |marker| < |s| then s[d + |marker|..] else []
    ensures Occurs(u + marker + v, s)
  {
    var output := u + marker + v;
    var p := if d > 0 then 0 else -d;
    var slice := output[p..p + |s|];
    forall k | 0 <= k < |s| ensures slice[k] == s[k] {
      if 0 <= k - d < |marker| {
        assert s[d + (k - d)] == marker[k - d];
      }
    }
    assert OccursAt(output, s, p);
  }

  lemma RedactTwo(text: seq<byte>, first: seq<byte>, second: seq<byte>)
    requires first != [] && second != []
    ensures Redact(text, [first, second]) == RedactOne(RedactOne(text, first, MARKER), second, MARKER)
  {
    var secrets := [first, second];
    var once := RedactOne(text, first, MARKER);
    assert secrets[1..] == [second] && |[second][1..]| == 0;
    assert Redact(once, [second]) == Redact(RedactOne(once, second, MARKER), [second][1..]);
  }

  /** A secret of the length of `s`, made of two bytes that `s` neither begins nor ends with. */
  function Decoy(s: seq<byte>): (decoy: seq<byte>)
    requires s != []
    ensures |decoy| == |s| && decoy[0] != s[0] && decoy[0] != s[|s| - 1]
    ensures forall k :: 1 <= k < |s| ==> decoy[k] != decoy[0] && decoy[k] != s[0] && decoy[k] != s[|s| - 1]
  {
    var first := Unlike(s[0], s[|s| - 1], s[0]);
    var other := Unlike(s[0], s[|s| - 1], first);
    [first] + seq(|s| - 1, k => other)
  }

  function Unlike(x: byte, y: byte, z: byte): (b: byte)
    ensures b != x && b != y && b != z
  {
    if 0 !in {x, y, z} then 0 else if 1 !in {x, y, z} then 1 else if 2 !in {x, y, z} then 2 else 3
  }

  /** Around a decoy, shorter texts make no occurrence of the secret. */
  lemma DecoyHidesNothing(s: seq<byte>, u: seq<byte>, v: seq<byte>, i: int)
    requires |u| < |s| && |v| < |s|
    ensures !OccursAt(u + Decoy(s) + v, s, i)
  {
    var decoy := Decoy(s);
    var text := u + decoy + v;
    if 0 <= i && i + |s| <= |text| {
      assert text[i..i + |s|][0] == text[i] && text[i..i + |s|][|s| - 1] == text[i + |s| - 1];
      if i < |u| {
        assert text[i + |s| - 1] == decoy[i + |s| - 1 - |u|];
      } else {
        assert text[i] == decoy[i - |u|];
      }
    }
  }

  /** The pass for the decoy puts the marker in its place and changes nothing else. */
  lemma DecoyIsReplaced(s: seq<byte>, u: seq<byte>, v: seq<byte>, marker: seq<byte>)
    requires |u| < |s| && |v| < |s|
    ensures RedactOne(u + Decoy(s) + v, Decoy(s), marker) == u + marker + v
  {
    var decoy := Decoy(s);
    var text := u + decoy + v;
    forall j | 0 <= j < |u| ensures !OccursAt(text, decoy, j) {
      assert text[j..j + |decoy|][|u| - j] == text[|u|] == decoy[0];
    }
    assert text[|u|..|u| + |decoy|] == decoy;
    assert OccursAt(text, decoy, |u|);
    NextIsUnique(text, decoy, 0, Some(|u|));
    NextIsUnique(text, decoy, |u| + |decoy|, None);
    assert text[|u| + |decoy|..] == v && text[0..|u|] == u;
    assert RedactFrom(text, decoy, marker, |u| + |decoy|) == v;
    assert RedactFrom(text, decoy, marker, 0)
        == text[0..|u|] + marker + RedactFrom(text, decoy, marker, |u| + |decoy|);
  }

  /** A colliding secret survives, even in a list that is sorted as the code sorts it: the decoy is turned
      into a marker after the secret's own pass. */
  lemma CollidingSecretSurvives(s: seq<byte>, d: int) returns (text: seq<byte>, secrets: seq<seq<byte>>)
    requires s != [] && MarkerFits(s, MARKER, d)
    ensures secrets == [s, Decoy(s)] && |text| < 2 * |s|
    ensures s in secrets && LongestFirst(secrets) && Occurs(Redact(text, secrets), s)
  {
    var u := if d > 0 then s[..d] else [];
    var v := if d + |MARKER| < |s| then s[d + |MARKER|..] else [];
    text, secrets := u + Decoy(s) + v, [s, Decoy(s)];
    FittingMarkerMakesOccurrence(s, MARKER, d, u, v);
    assert |u| < |s| && |v| < |s|;
    hide MarkerFits, OccursAt, Decoy, RedactOne;
    forall i ensures !OccursAt(text, s, i) { DecoyHidesNothing(s, u, v, i); }
    AbsentIsKept(text, s, MARKER);
    DecoyIsReplaced(s, u, v, MARKER);
    RedactTwo(text, s, Decoy(s));
  }

  lemma AbsentIsKept(text: seq<byte>, s: seq<byte>, marker: seq<byte>)
    requires s != [] && forall i :: !OccursAt(text, s, i)
    ensures RedactOne(text, s, marker) == text
  {
    NextIsUnique(text, s, 0, None);
    assert text[0..|text|] == text;
  }

  /** Exactly the colliding secrets can survive, in any list and in one that is sorted longest first. */
  lemma RemovedExactlyWhenNotColliding(s: seq<byte>)
    requires s != []
    ensures AlwaysRemoved(s) <==> !Collides(s, MARKER)
    ensures RemovedWhenSorted(s) <==> !Collides(s, MARKER)
  {
    if Collides(s, MARKER) {
      var d :| MarkerFits(s, MARKER, d);
      var text, secrets := CollidingSecretSurvives(s, d);
    } else {
      forall text: seq<byte>, secrets: seq<seq<byte>> | s in secrets ensures !Occurs(Redact(text, secrets), s) {
        RedactionIsComplete(text, secrets, s);
      }
    }
  }

  /** A secret without square brackets collides exactly when it is part of the word "redacted". */
  lemma BracketFreeCollision(s: seq<byte>)
    requires s != [] && MARKER[0] !in s && MARKER[9] !in s
    ensures Collides(s, MARKER) <==> Occurs(MARKER[1..9], s)
  {
    if Collides(s, MARKER) {
      var d :| MarkerFits(s, MARKER, d);
      FitsInsideTheWord(s, d);
    }
    if Occurs(MARKER[1..9], s) {
      var i :| OccursAt(MARKER[1..9], s, i);
      WordFits(s, i);
    }
    hide MarkerFits, OccursAt;
  }

  lemma FitsInsideTheWord(s: seq<byte>, d: int)
    requires s != [] && MARKER[0] !in s && MARKER[9] !in s && MarkerFits(s, MARKER, d)
    ensures OccursAt(MARKER[1..9], s, -d - 1)
  {
    if d >= 0 { assert false; }
    if d + 9 < |s| { assert false; }
    var slice := MARKER[1..9][-d - 1..-d - 1 + |s|];
    forall k | 0 <= k < |s| ensures slice[k] == s[k] {
      assert s[d + (k - d)] == MARKER[k - d];
    }
  }

  lemma WordFits(s: seq<byte>, i: int)
    requires s != [] && OccursAt(MARKER[1..9], s, i)
    ensures MarkerFits(s, MARKER, -i - 1)
  {
    var d := -i - 1;
    forall k | 0 <= k < |MARKER| && 0 <= d + k < |s| ensures s[d + k] == MARKER[k] {
      assert MARKER[1..9][i..i + |s|][d + k] == MARKER[k];
    }
  }

  // ------------------------------------------------- the secrets of a credential file

  /** A parsed credential document; `Other` stands for null, booleans and numbers. */
  datatype Json = Other | Str(bytes: seq<byte>) | Arr(items: seq<Json>) | Obj(values: seq<Json>)

  /** `text` is one of the strings nested anywhere in `value`. */
  ghost predicate HoldsString(value: Json, text: seq<byte>) {
    match value
    case Other => false
    case Str(bytes) => bytes == text
    case Arr(items) => exists k :: 0 <= k < |items| && HoldsString(items[k], text)
    case Obj(values) => exists k :: 0 <= k < |values| && HoldsString(values[k], text)
  }

  /** The non-empty strings of a document, at any depth, in the order in which they are visited. */
  function Strings(value: Json): seq<seq<byte>>
    decreases value, 1
  {
    match value
    case Other => []
    case Str(bytes) => if bytes != [] then [bytes] else []
    case Arr(items) => AllStrings(items)
    case Obj(values) => AllStrings(values)
  }

  function AllStrings(children: seq<Json>): seq<seq<byte>>
    decreases children, 0
  {
    if children == [] then []
    else AllStrings(children[..|children| - 1]) + Strings(children[|children| - 1])
  }

  lemma {:induction false} StringsAreHeld(value: Json, s: seq<byte>)
    ensures s in Strings(value) <==> s != [] && HoldsString(value, s)
    decreases value, 1
  {
    match value
    case Other =>
    case Str(bytes) =>
    case Arr(items) => AllStringsAreHeld(items, s);
    case Obj(values) => AllStringsAreHeld(values, s);
  }

  lemma {:induction false} AllStringsAreHeld(children: seq<Json>, s: seq<byte>)
    ensures s in AllStrings(children) <==>
      s != [] && exists k :: 0 <= k < |children| && HoldsString(children[k], s)
    decreases children, 0
  {
    if children != [] {
      var n := |children| - 1;
      var front := children[..n];
      AllStringsAreHeld(front, s);
      StringsAreHeld(children[n], s);
      assert forall k :: 0 <= k < n ==> front[k] == children[k];
    }
  }

  method VisitAll(children: seq<Json>, found: seq<seq<byte>>) returns (values: seq<seq<byte>>)
    ensures values == found + AllStrings(children)
    decreases children, 0
  {
    values := found;
    for k := 0 to |children|
      invariant values == found + AllStrings(children[..k])
    {
      values := Visit(children[k], values);
      assert children[..k + 1][..k] == children[..k];
      Sequences.AppendAssociates(found, AllStrings(children[..k]), Strings(children[k]));
    }
    assert children[..|children|] == children;
  }

  /** Collects the non-empty strings of a document, at any depth. */
  method Visit(value: Json, found: seq<seq<byte>>) returns (values: seq<seq<byte>>)
    ensures values == found + Strings(value)
    decreases value, 1
  {
    values := found;
    match value
    case Other =>
    case Str(bytes) =>
      if bytes != [] { values := values + [bytes]; }
    case Arr(items) => values := VisitAll(items, values);
    case Obj(children) => values := VisitAll(children, values);
  }

  /** Longest first; equal lengths keep their order. */
  function InsertByLength(s: seq<byte>, sorted: seq<seq<byte>>): seq<seq<byte>> {
    if sorted == [] || |s| >= |sorted[0]| then [s] + sorted
    else [sorted[0]] + InsertByLength(s, sorted[1..])
  }

  function SortByLength(values: seq<seq<byte>>): seq<seq<byte>> {
    if values == [] then [] else InsertByLength(values[0], SortByLength(values[1..]))
  }

  /** Drops each value that repeats the one before it. */
  function Dedup(values: seq<seq<byte>>): seq<seq<byte>> {
    if |values| < 2 then values
    else if values[0] == values[1] then Dedup(values[1..])
    else [values[0]] + Dedup(values[1..])
  }

  ghost predicate LongestFirst(values: seq<seq<byte>>) {
    forall i, j :: 0 <= i < j < |values| ==> |values[i]| >= |values[j]|
  }

  lemma {:induction false} InsertKeeps(s: seq<byte>, sorted: seq<seq<byte>>)
    ensures forall x :: x in InsertByLength(s, sorted) <==> x == s || x in sorted
    ensures LongestFirst(sorted) ==> LongestFirst(InsertByLength(s, sorted))
  {
    if sorted != [] && |s| < |sorted[0]| {
      InsertKeeps(s, sorted[1..]);
      var rest := InsertByLength(s, sorted[1..]);
      forall j | 0 <= j < |rest| && LongestFirst(sorted) ensures |sorted[0]| >= |rest[j]| {
        assert rest[j] in rest;
      }
    }
  }

  lemma {:induction false} SortKeeps(values: seq<seq<byte>>)
    ensures forall x :: x in SortByLength(values) <==> x in values
    ensures LongestFirst(SortByLength(values))
  {
    if values != [] {
      SortKeeps(values[1..]);
      InsertKeeps(values[0], SortByLength(values[1..]));
    }
  }

  lemma {:induction false} DedupKeeps(values: seq<seq<byte>>)
    ensures forall x :: x in Dedup(values) <==> x in values
    ensures LongestFirst(values) ==> LongestFirst(Dedup(values))
  {
    if |values| >= 2 {
      var rest := Dedup(values[1..]);
      DedupKeeps(values[1..]);
      assert forall x :: x in values <==> x == values[0] || x in values[1..];
      forall j | 0 <= j < |rest| && LongestFirst(values) ensures |values[0]| >= |rest[j]| {
        assert rest[j] in values[1..];
      }
    }
  }

  /** The list that the code makes of a credential file and its strings. */
  function SecretsOf(document: seq<byte>, value: Json): seq<seq<byte>> {
    Dedup(SortByLength([document] + Strings(value)))
  }

  lemma SecretsAreHeld(document: seq<byte>, value: Json)
    ensures LongestFirst(SecretsOf(document, value))
    ensures forall s :: s in SecretsOf(document, value) <==> s == document || (s != [] && HoldsString(value, s))
  {
    var values := [document] + Strings(value);
    SortKeeps(values);
    DedupKeeps(SortByLength(values));
    forall s ensures s in values <==> s == document || (s != [] && HoldsString(value, s)) {
      StringsAreHeld(value, s);
    }
  }

  /** The secrets of a credential file: its whole text and every non-empty string in it. */
  method ExtractSecretBuffers(document: seq<byte>, value: Json) returns (secrets: Result<seq<seq<byte>>, string>)
    ensures secrets.Ok? <==> value.Obj?
    ensures secrets.Ok? ==> secrets.value == SecretsOf(document, value) && LongestFirst(secrets.value)
    ensures secrets.Ok? ==> forall s :: s in secrets.value <==> s == document || (s != [] && HoldsString(value, s))
  {
    if !value.Obj? {
      return Err("Codex auth.json must contain a valid JSON object");
    }
    var values := Visit(value, [document]);
    SecretsAreHeld(document, value);
    return Ok(Dedup(SortByLength(values)));
  }

  /** No string of the credential file survives in redacted output, unless it collides with the
      marker; neither does the file itself. */
  method RedactCredentials(document: seq<byte>, value: Json, text: seq<byte>) returns (output: seq<byte>)
    requires value.Obj?
    ensures output == Redact(text, SecretsOf(document, value))
    ensures forall s :: s != [] && !Collides(s, MARKER) && (s == document || HoldsString(value, s)) ==> !Occurs(output, s)
  {
    var secrets := ExtractSecretBuffers(document, value);
    output := RedactBytes(text, secrets.value);
    forall s | s != [] && !Collides(s, MARKER) && (s == document || HoldsString(value, s)) ensures !Occurs(output, s) {
      RedactionIsComplete(text, secrets.value, s);
    }
  }

  function Lengths(strings: seq<seq<byte>>): nat {
    if strings == [] then 0 else |strings[0]| + Lengths(strings[1..])
  }

  /** A text that holds these strings, each between quotation marks and escaped or not, is longer than they
      are together. */
  predicate HasRoomFor(document: seq<byte>, value: Json) {
    value.Obj? && |document| > Lengths(Strings(value))
  }

  /** Whatever credential file holds the string `s`, redacted output does not. */
  ghost predicate NeverShown(s: seq<byte>) {
    forall document: seq<byte>, value: Json, text: seq<byte> ::
      HasRoomFor(document, value) && HoldsString(value, s) ==> !Occurs(Redact(text, SecretsOf(document, value)), s)
  }

  lemma AbsentIsSkipped(text: seq<byte>, s: seq<byte>, secrets: seq<seq<byte>>)
    requires |s| > |text|
    ensures Redact(text, [s] + secrets) == Redact(text, secrets)
  {
    AbsentIsKept(text, s, MARKER);
    assert ([s] + secrets)[1..] == secrets;
  }

  /** The credential file that holds a string and then its decoy. */
  function WithDecoy(s: seq<byte>): Json
    requires s != []
  {
    Obj([Str(s), Str(Decoy(s))])
  }

  lemma AllStringsAppend(front: seq<Json>, child: Json)
    ensures AllStrings(front + [child]) == AllStrings(front) + Strings(child)
  {
    assert (front + [child])[..|front|] == front;
    hide Strings;
  }

  lemma StringsOfTwo(a: seq<byte>, b: seq<byte>)
    requires a != [] && b != []
    ensures AllStrings([Str(a), Str(b)]) == [a, b]
  {
    AllStringsAppend([], Str(a));
    AllStringsAppend([Str(a)], Str(b));
    assert [] + [Str(a)] == [Str(a)] && [Str(a)] + [Str(b)] == [Str(a), Str(b)];
    assert Strings(Str(a)) == [a] && Strings(Str(b)) == [b] && AllStrings([]) == [];
    hide AllStrings, Strings;
    assert [] + [a] == [a] && [a] + [b] == [a, b];
  }

  lemma LengthsOfTwo(a: seq<byte>, b: seq<byte>)
    ensures Lengths([a, b]) == |a| + |b|
  {
    var two, one := [a, b], [b];
    assert two[1..] == one && |one[1..]| == 0;
    assert Lengths(one) == |b| + Lengths(one[1..]);
  }

  lemma StringsOfObject(values: seq<Json>)
    ensures Strings(Obj(values)) == AllStrings(values)
  {
    hide AllStrings;
  }

  lemma StringsWithDecoy(s: seq<byte>)
    requires s != []
    ensures Strings(WithDecoy(s)) == [s, Decoy(s)] && HoldsString(WithDecoy(s), s)
    ensures Lengths(Strings(WithDecoy(s))) == 2 * |s|
  {
    hide Decoy, Strings, AllStrings, HoldsString, Lengths;
    StringsOfObject([Str(s), Str(Decoy(s))]);
    StringsOfTwo(s, Decoy(s));
    LengthsOfTwo(s, Decoy(s));
    StringsAreHeld(WithDecoy(s), s);
  }

  lemma SecretsWithDecoy(s: seq<byte>, document: seq<byte>)
    requires s != [] && |document| > 2 * |s|
    ensures SecretsOf(document, WithDecoy(s)) == [document] + [s, Decoy(s)]
  {
    StringsWithDecoy(s);
    var decoy := Decoy(s);
    hide Decoy, Strings;
    assert [document] + [s, decoy] == [document, s, decoy];
    assert [document, s, decoy][1..] == [s, decoy] && [s, decoy][1..] == [decoy];
    var last := [decoy];
    assert |last[1..]| == 0;
    assert SortByLength([decoy]) == InsertByLength(decoy, SortByLength([])) == [decoy];
    assert SortByLength([s, decoy]) == InsertByLength(s, [decoy]) == [s, decoy];
    assert SortByLength([document, s, decoy]) == InsertByLength(document, [s, decoy]) == [document, s, decoy];
    assert Dedup([s, decoy]) == [s] + Dedup([decoy]) == [s, decoy];
    assert Dedup([document, s, decoy]) == [document] + Dedup([s, decoy]);
  }

  /** A colliding string of a credential file survives: in every file that holds it and its decoy, and is
      longer than both, whatever else the file is made of. */
  lemma CollidingCredentialSurvives(s: seq<byte>, d: int, document: seq<byte>) returns (text: seq<byte>)
    requires s != [] && MarkerFits(s, MARKER, d) && |document| > 2 * |s|
    ensures HasRoomFor(document, WithDecoy(s)) && HoldsString(WithDecoy(s), s)
    ensures Occurs(Redact(text, SecretsOf(document, WithDecoy(s))), s)
  {
    StringsWithDecoy(s);
    SecretsWithDecoy(s, document);
    var secrets;
    text, secrets := CollidingSecretSurvives(s, d);
    hide Redact, SecretsOf, Strings, Decoy, Occurs, MarkerFits;
    AbsentIsSkipped(text, document, secrets);
  }

  /** Exactly the strings that do not collide with the marker are removed with every credential file. */
  lemma NeverShownExactlyWhenNotColliding(s: seq<byte>)
    requires s != []
    ensures NeverShown(s) <==> !Collides(s, MARKER)
  {
    if Collides(s, MARKER) {
      var d :| MarkerFits(s, MARKER, d);
      var document := seq(2 * |s| + 1, k => s[0]);
      var text := CollidingCredentialSurvives(s, d, document);
    } else {
      forall document: seq<byte>, value: Json, text: seq<byte> | HoldsString(value, s)
        ensures !Occurs(Redact(text, SecretsOf(document, value)), s)
      {
        SecretsAreHeld(document, value);
        RedactionIsComplete(text, SecretsOf(document, value), s);
      }
    }
    hide MarkerFits, Redact, SecretsOf, Occurs;
  }
}
