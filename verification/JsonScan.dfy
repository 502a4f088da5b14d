/** Finding a JSON object in the output of a Judge (src/legacy_judge.rs): a scanner that counts braces
    outside strings, against a printer of JSON with any whitespace and any escapes. */
module JsonScan {
  import opened Wrappers
  import Sequences

  // ------------------------------------------------------------------ what the braces mean

  /** The quote, backslash or brace at `k` is taken literally: the backslash before it is inside a string
      and is not literal itself. */
  predicate Escaped(t: string, k: int)
    requires 0 <= k <= |t|
    decreases k, 0
  {
    k > 0 && t[k - 1] == '\\' && Inside(t, k - 1) && !Escaped(t, k - 1)
  }

  /** Position `k` lies inside a string: an odd number of quotes that are not literal comes before it. */
  predicate Inside(t: string, k: int)
    requires 0 <= k <= |t|
    decreases k, 1
  {
    k > 0 && (if t[k - 1] == '"' && !Escaped(t, k - 1) then !Inside(t, k - 1) else Inside(t, k - 1))
  }

  /** Opening minus closing braces among the first `k` characters, those inside strings left out. */
  function Balance(t: string, k: int): int
    requires 0 <= k <= |t|
    decreases k
  {
    if k == 0 then 0
    else
      Balance(t, k - 1)
      + if Inside(t, k - 1) then 0 else if t[k - 1] == '{' then 1 else if t[k - 1] == '}' then -1 else 0
  }

  /** The length of the shortest start of the text whose braces balance. */
  predicate Closes(t: string, k: int) {
    0 < k <= |t| && Balance(t, k) == 0 && forall m :: 0 < m < k ==> Balance(t, m) != 0
  }

  lemma ClosesOnce(t: string, j: int, k: int)
    requires Closes(t, j) && Closes(t, k)
    ensures j == k
  {
  }

  // -------------------------------------------------------------------------- bytes of text

  function Width(c: char): (w: nat)
    ensures 1 <= w <= 4
  {
    if c as int < 0x80 then 1 else if c as int < 0x800 then 2 else if c as int < 0x1_0000 then 3 else 4
  }

  /** A character in UTF-8 (section 3 of RFC 3629). */
  function Utf8(c: char): (bytes: seq<byte>)
    ensures |bytes| == Width(c)
  {
    var n := c as int;
    var (m, l) := (n / 0x40, n / 0x40 / 0x40);
    if n < 0x80 then [n]
    else if n < 0x800 then [0xC0 + m, 0x80 + n % 0x40]
    else if n < 0x1_0000 then [0xE0 + l, 0x80 + m % 0x40, 0x80 + n % 0x40]
    else [0xF0 + l / 0x40, 0x80 + l % 0x40, 0x80 + m % 0x40, 0x80 + n % 0x40]
  }

  /** The code that the bytes of a character stand for. */
  function Decoded(bytes: seq<byte>): int {
    if |bytes| == 1 then bytes[0] as int
    else if |bytes| == 2 then (bytes[0] as int - 0xC0) * 0x40 + (bytes[1] as int - 0x80)
    else if |bytes| == 3 then
      (bytes[0] as int - 0xE0) * 0x1000 + (bytes[1] as int - 0x80) * 0x40 + (bytes[2] as int - 0x80)
    else if |bytes| == 4 then
      (bytes[0] as int - 0xF0) * 0x4_0000 + (bytes[1] as int - 0x80) * 0x1000 + (bytes[2] as int - 0x80) * 0x40
      + (bytes[3] as int - 0x80)
    else -1
  }

  /** The bytes of a character give it back. */
  lemma Utf8IsDecoded(c: char)
    ensures Decoded(Utf8(c)) == c as int
  {
    var n := c as int;
    var (m, l) := (n / 0x40, n / 0x40 / 0x40);
    assert n == 0x40 * m + n % 0x40 && m == 0x40 * l + m % 0x40 && l == 0x40 * (l / 0x40) + l % 0x40;
  }

  /** The length of a text in UTF-8. */
  function Bytes(t: string): nat {
    if t == [] then 0 else Bytes(t[..|t| - 1]) + Width(t[|t| - 1])
  }

  // ---------------------------------------------------------------------------- the scanner

  /** The offset just behind the object that the text starts with. Two facts about the counter: it never
      goes below zero, and what is returned is where the balance first returns to zero. */
  method JsonObjectEnd(value: string) returns (end: Option<nat>)
    requires value != [] && value[0] == '{'
    ensures end.None? ==> forall k :: !Closes(value, k)
    ensures end.Some? ==> exists k :: Closes(value, k) && end.value == Bytes(value[..k])
  {
    var depth: nat := 0;
    var quoted, escape := false, false;
    var offset := 0;
    var index := 0;
    while index < |value|
      invariant 0 <= index <= |value| && offset == Bytes(value[..index])
      invariant quoted == Inside(value, index) && escape == Escaped(value, index)
      invariant depth == Balance(value, index)
      invariant forall m :: 0 < m <= index ==> Balance(value, m) > 0
    {
      var c := value[index];
      BytesGrow(value, index);
      EscapedIsInside(value, index);
      if escape {
        escape := false;
      } else if quoted && c == '\\' {
        escape := true;
      } else if c == '"' {
        quoted := !quoted;
      } else if !quoted && c == '{' {
        depth := depth + 1;
      } else if !quoted && c == '}' {
        depth := depth - 1;
        if depth == 0 {
          assert Closes(value, index + 1);
          return Some(offset + 1);
        }
      }
      offset := offset + Width(c);
      index := index + 1;
    }
    return None;
  }

  lemma BytesGrow(t: string, k: nat)
    requires k < |t|
    ensures Bytes(t[..k + 1]) == Bytes(t[..k]) + Width(t[k])
  {
    assert t[..k + 1][..k] == t[..k];
  }

  lemma EscapedIsInside(t: string, k: nat)
    requires k <= |t|
    ensures Escaped(t, k) ==> Inside(t, k)
  {
  }

  // -------------------------------------------------------------------------- printed JSON

  /** A character of a string as it is written: plain, or behind a backslash. The four digits of a
      numeric escape are plain characters after it. */
  datatype Piece = Plain(c: char) | Escape(c: char)

  /** A JSON value with its spelling: `gap`s are the whitespace between tokens. */
  datatype Json =
    | Atom(text: string)
    | Text(pieces: seq<Piece>)
    | Array(open: string, items: seq<Item>)
    | Object(open: string, members: seq<Member>)

  datatype Item = Item(before: string, value: Json, after: string)

  datatype Member = Member(before: string, key: seq<Piece>, gap: string, item: Item)

  /** Neither a quote nor a brace: what whitespace, numbers and the three words consist of. */
  predicate Neutral(text: string) {
    forall c :: c in text ==> c != '"' && c != '{' && c != '}'
  }

  predicate ProperPiece(p: Piece) {
    p.Plain? ==> p.c != '"' && p.c != '\\'
  }

  predicate ProperPieces(pieces: seq<Piece>) {
    forall k :: 0 <= k < |pieces| ==> ProperPiece(pieces[k])
  }

  predicate Proper(v: Json) {
    match v
    case Atom(text) => Neutral(text)
    case Text(pieces) => ProperPieces(pieces)
    case Array(open, items) => Neutral(open) && forall k :: 0 <= k < |items| ==> ProperItem(items[k])
    case Object(open, members) => Neutral(open) && forall k :: 0 <= k < |members| ==> ProperMember(members[k])
  }

  predicate ProperItem(i: Item) {
    Neutral(i.before) && Proper(i.value) && Neutral(i.after)
  }

  predicate ProperMember(m: Member) {
    Neutral(m.before) && ProperPieces(m.key) && Neutral(m.gap) && ProperItem(m.item)
  }

  function PrintPieces(pieces: seq<Piece>): string {
    if pieces == [] then []
    else (if pieces[0].Plain? then [pieces[0].c] else ['\\', pieces[0].c]) + PrintPieces(pieces[1..])
  }

  function Quoted(pieces: seq<Piece>): string {
    "\"" + (PrintPieces(pieces) + "\"")
  }

  function Print(v: Json): string
    decreases v, 0
  {
    match v
    case Atom(text) => text
    case Text(pieces) => Quoted(pieces)
    case Array(open, items) => "[" + (open + (PrintItems(items) + "]"))
    case Object(open, members) => "{" + (open + (PrintMembers(members) + "}"))
  }

  function PrintItem(i: Item): string
    decreases i, 0
  {
    i.before + (Print(i.value) + i.after)
  }

  function PrintItems(items: seq<Item>): string
    decreases items, 1
  {
    if items == [] then []
    else PrintItem(items[0]) + ((if |items| == 1 then "" else ",") + PrintItems(items[1..]))
  }

  function PrintMember(m: Member): string
    decreases m, 0
  {
    m.before + (Quoted(m.key) + (m.gap + (":" + PrintItem(m.item))))
  }

  function PrintMembers(members: seq<Member>): string
    decreases members, 1
  {
    if members == [] then []
    else PrintMember(members[0]) + ((if |members| == 1 then "" else ",") + PrintMembers(members[1..]))
  }

  // ------------------------------------------------------------- reading one text after another

  /** What is known of a text after some of its characters. */
  datatype State = State(depth: int, quoted: bool, escape: bool)

  function Feed(st: State, c: char): State {
    if st.escape then st.(escape := false)
    else if st.quoted then
      if c == '\\' then st.(escape := true) else if c == '"' then st.(quoted := false) else st
    else if c == '"' then st.(quoted := true)
    else if c == '{' then st.(depth := st.depth + 1)
    else if c == '}' then st.(depth := st.depth - 1)
    else st
  }

  function FeedAll(st: State, t: string): State
    decreases |t|
  {
    if t == [] then st else FeedAll(Feed(st, t[0]), t[1..])
  }

  /** Reading the text never takes the depth below `d`. */
  predicate Above(st: State, t: string, d: int)
    decreases |t|
  {
    t != [] ==> Feed(st, t[0]).depth >= d && Above(Feed(st, t[0]), t[1..], d)
  }

  /** Reading the text outside strings returns to where it began and stays above it. */
  ghost predicate Balanced(t: string) {
    forall d :: FeedAll(State(d, false, false), t) == State(d, false, false) && Above(State(d, false, false), t, d)
  }

  lemma {:induction false} FeedInTurn(st: State, a: string, b: string, d: int)
    ensures FeedAll(st, a + b) == FeedAll(FeedAll(st, a), b)
    ensures Above(st, a, d) && Above(FeedAll(st, a), b, d) ==> Above(st, a + b, d)
    decreases |a|
  {
    if a == [] {
      assert a + b == b;
    } else {
      assert (a + b)[1..] == a[1..] + b;
      FeedInTurn(Feed(st, a[0]), a[1..], b, d);
    }
  }

  lemma BalancedTogether(a: string, b: string)
    requires Balanced(a) && Balanced(b)
    ensures Balanced(a + b)
  {
    forall d ensures
      && FeedAll(State(d, false, false), a + b) == State(d, false, false)
      && Above(State(d, false, false), a + b, d)
    {
      FeedInTurn(State(d, false, false), a, b, d);
    }
  }

  lemma {:induction false} NeutralIsBalanced(t: string)
    requires Neutral(t)
    ensures Balanced(t)
  {
    if t != [] {
      assert t[0] in t && forall c :: c in t[1..] ==> c in t;
      NeutralIsBalanced(t[1..]);
    }
  }

  /** Inside a string no piece changes the depth or ends the string. */
  lemma {:induction false} PiecesStayInside(pieces: seq<Piece>, d: int)
    requires ProperPieces(pieces)
    ensures FeedAll(State(d, true, false), PrintPieces(pieces)) == State(d, true, false)
    ensures Above(State(d, true, false), PrintPieces(pieces), d)
  {
    if pieces != [] {
      PiecesStayInside(pieces[1..], d);
      var st, p, rest := State(d, true, false), pieces[0], PrintPieces(pieces[1..]);
      assert ProperPiece(p);
      var first := if p.Plain? then [p.c] else ['\\', p.c];
      assert FeedAll(st, first) == st && Above(st, first, d) by {
        if p.Escape? {
          assert first == ['\\'] + [p.c];
          Single(st, '\\', d);
          Single(State(d, true, true), p.c, d);
          FeedInTurn(st, ['\\'], [p.c], d);
        } else {
          Single(st, p.c, d);
        }
      }
      FeedInTurn(st, first, rest, d);
    }
  }

  lemma QuotedIsBalanced(pieces: seq<Piece>)
    requires ProperPieces(pieces)
    ensures Balanced(Quoted(pieces))
  {
    forall d ensures
      && FeedAll(State(d, false, false), Quoted(pieces)) == State(d, false, false)
      && Above(State(d, false, false), Quoted(pieces), d)
    {
      PiecesStayInside(pieces, d);
      var outside, inside, body := State(d, false, false), State(d, true, false), PrintPieces(pieces);
      Single(inside, '"', d);
      FeedInTurn(inside, body, "\"", d);
      Single(outside, '"', d);
      FeedInTurn(outside, "\"", body + "\"", d);
    }
  }

  lemma Single(st: State, c: char, d: int)
    ensures FeedAll(st, [c]) == Feed(st, c)
    ensures Above(st, [c], d) <==> Feed(st, c).depth >= d
  {
    assert [c][1..] == [];
  }

  /** Braces around a balanced text: the depth is raised in between. */
  lemma BracedIsBalanced(inner: string)
    requires Balanced(inner)
    ensures Balanced("{" + (inner + "}"))
  {
    forall d ensures
      && FeedAll(State(d, false, false), "{" + (inner + "}")) == State(d, false, false)
      && Above(State(d, false, false), "{" + (inner + "}"), d)
    {
      var high := State(d + 1, false, false);
      assert FeedAll(high, inner) == high && Above(high, inner, d + 1);
      BracedFrom(inner, d);
    }
  }

  lemma BracedFrom(inner: string, d: int)
    requires
      var high := State(d + 1, false, false);
      FeedAll(high, inner) == high && Above(high, inner, d + 1)
    ensures FeedAll(State(d, false, false), "{" + (inner + "}")) == State(d, false, false)
    ensures Above(State(d, false, false), "{" + (inner + "}"), d)
  {
    hide FeedAll, Above;
    var low, high := State(d, false, false), State(d + 1, false, false);
    AboveLower(high, inner, d + 1, d);
    Single(high, '}', d);
    FeedInTurn(high, inner, "}", d);
    Single(low, '{', d);
    FeedInTurn(low, "{", inner + "}", d);
  }

  lemma {:induction false} AboveLower(st: State, t: string, d: int, lower: int)
    requires Above(st, t, d) && lower <= d
    ensures Above(st, t, lower)
    decreases |t|
  {
    if t != [] {
      AboveLower(Feed(st, t[0]), t[1..], d, lower);
    }
  }

  lemma {:induction false} PrintIsBalanced(v: Json)
    requires Proper(v)
    ensures Balanced(Print(v))
    decreases v, 0
  {
    match v
    case Atom(text) => NeutralIsBalanced(text);
    case Text(pieces) => QuotedIsBalanced(pieces);
    case Array(open, items) =>
      NeutralIsBalanced(open);
      ItemsAreBalanced(items);
      NeutralIsBalanced("[");
      NeutralIsBalanced("]");
      hide Balanced;
      BalancedTogether(PrintItems(items), "]");
      BalancedTogether(open, PrintItems(items) + "]");
      BalancedTogether("[", open + (PrintItems(items) + "]"));
    case Object(open, members) =>
      InnerIsBalanced(open, members);
      BracedIsBalanced(open + PrintMembers(members));
      ObjectIsBraced(open, members);
  }

  lemma InnerIsBalanced(open: string, members: seq<Member>)
    requires Proper(Object(open, members))
    ensures Balanced(open + PrintMembers(members))
    decreases Object(open, members), 0, 0
  {
    NeutralIsBalanced(open);
    MembersAreBalanced(members);
    BalancedTogether(open, PrintMembers(members));
  }

  lemma ObjectIsBraced(open: string, members: seq<Member>)
    ensures Print(Object(open, members)) == "{" + ((open + PrintMembers(members)) + "}")
  {
    Sequences.AppendAssociates(open, PrintMembers(members), "}");
  }

  lemma {:induction false} ItemIsBalanced(i: Item)
    requires ProperItem(i)
    ensures Balanced(PrintItem(i))
    decreases i, 0
  {
    NeutralIsBalanced(i.before);
    PrintIsBalanced(i.value);
    NeutralIsBalanced(i.after);
    hide Balanced;
    BalancedTogether(Print(i.value), i.after);
    BalancedTogether(i.before, Print(i.value) + i.after);
  }

  lemma {:induction false} ItemsAreBalanced(items: seq<Item>)
    requires forall k :: 0 <= k < |items| ==> ProperItem(items[k])
    ensures Balanced(PrintItems(items))
    decreases items, 1
  {
    NeutralIsBalanced("");
    if items != [] {
      var comma := if |items| == 1 then "" else ",";
      ItemIsBalanced(items[0]);
      ItemsAreBalanced(items[1..]);
      NeutralIsBalanced(comma);
      hide Balanced;
      BalancedTogether(comma, PrintItems(items[1..]));
      BalancedTogether(PrintItem(items[0]), comma + PrintItems(items[1..]));
    }
  }

  lemma {:induction false} MemberIsBalanced(m: Member)
    requires ProperMember(m)
    ensures Balanced(PrintMember(m))
    decreases m, 0
  {
    NeutralIsBalanced(m.before);
    QuotedIsBalanced(m.key);
    NeutralIsBalanced(m.gap);
    NeutralIsBalanced(":");
    ItemIsBalanced(m.item);
    hide Balanced;
    BalancedTogether(":", PrintItem(m.item));
    BalancedTogether(m.gap, ":" + PrintItem(m.item));
    BalancedTogether(Quoted(m.key), m.gap + (":" + PrintItem(m.item)));
    BalancedTogether(m.before, Quoted(m.key) + (m.gap + (":" + PrintItem(m.item))));
  }

  lemma {:induction false} MembersAreBalanced(members: seq<Member>)
    requires forall k :: 0 <= k < |members| ==> ProperMember(members[k])
    ensures Balanced(PrintMembers(members))
    decreases members, 1
  {
    NeutralIsBalanced("");
    if members != [] {
      var comma := if |members| == 1 then "" else ",";
      MemberIsBalanced(members[0]);
      MembersAreBalanced(members[1..]);
      NeutralIsBalanced(comma);
      hide Balanced;
      BalancedTogether(comma, PrintMembers(members[1..]));
      BalancedTogether(PrintMember(members[0]), comma + PrintMembers(members[1..]));
    }
  }

  // ------------------------------------------------------------- reading and the balance agree

  lemma {:induction false} FeedMeans(t: string, k: nat)
    requires k <= |t|
    ensures FeedAll(State(0, false, false), t[..k]) == State(Balance(t, k), Inside(t, k), Escaped(t, k))
  {
    if k > 0 {
      FeedMeans(t, k - 1);
      EscapedIsInside(t, k - 1);
      assert t[..k] == t[..k - 1] + [t[k - 1]];
      var st := FeedAll(State(0, false, false), t[..k - 1]);
      FeedInTurn(State(0, false, false), t[..k - 1], [t[k - 1]], 0);
      Single(st, t[k - 1], 0);
    }
  }

  lemma {:induction false} AboveAt(st: State, t: string, d: int, m: nat)
    requires Above(st, t, d) && 0 < m <= |t|
    ensures FeedAll(st, t[..m]).depth >= d
    decreases |t|
  {
    var rest := t[1..];
    assert t[..m][1..] == rest[..m - 1];
    if m > 1 {
      AboveAt(Feed(st, t[0]), rest, d, m - 1);
    } else {
      assert rest[..0] == [];
    }
  }

  /** A printed object closes exactly at its end, whatever follows it. */
  lemma PrintedObjectCloses(v: Json, suffix: string)
    requires v.Object? && Proper(v)
    ensures Closes(Print(v) + suffix, |Print(v)|)
  {
    var inner := v.open + PrintMembers(v.members);
    var printed, t := Print(v), Print(v) + suffix;
    InnerIsBalanced(v.open, v.members);
    ObjectIsBraced(v.open, v.members);
    PrintIsBalanced(v);
    assert t == "{" + (inner + ("}" + suffix)) && t[..|printed|] == printed;
    assert Balance(t, |printed|) == 0 by { FeedMeans(t, |printed|); }
    forall m | 0 < m < |printed| ensures Balance(t, m) != 0 {
      RaisedInside(t, inner, "}" + suffix, m);
    }
  }

  lemma RaisedInside(t: string, inner: string, rest: string, m: nat)
    requires t == "{" + (inner + rest) && 0 < m <= |inner| + 1 && Balanced(inner)
    ensures Balance(t, m) >= 1
  {
    assert t[..m] == "{" + inner[..m - 1];
    FeedMeans(t, m);
    InnerDepth(inner, m - 1);
    hide *;
  }

  lemma InnerDepth(inner: string, m: nat)
    requires m <= |inner| && Balanced(inner)
    ensures FeedAll(State(0, false, false), "{" + inner[..m]).depth >= 1
  {
    assert Above(State(1, false, false), inner, 1);
    Single(State(0, false, false), '{', 0);
    FeedInTurn(State(0, false, false), "{", inner[..m], 0);
    if m > 0 {
      AboveAt(State(1, false, false), inner, 1, m);
    } else {
      assert inner[..0] == [];
    }
  }

  /** The scanner undoes the printer: on a printed object followed by anything it returns the length of
      the object in bytes. */
  method ScanUndoesPrint(v: Json, suffix: string) returns (end: Option<nat>)
    requires v.Object? && Proper(v)
    ensures end == Some(Bytes(Print(v)))
  {
    var text := Print(v) + suffix;
    assert text[0] == '{';
    PrintedObjectCloses(v, suffix);
    end := JsonObjectEnd(text);
    var k :| Closes(text, k) && end.value == Bytes(text[..k]);
    ClosesOnce(text, k, |Print(v)|);
    assert text[..|Print(v)|] == Print(v);
  }

  // ------------------------------------------------------------------ the structured result

  const START := ">>>>> Start Structured Result"
  const END := ">>>>> End Structured Result"

  /** The first place where the pattern occurs. */
  function Find(t: string, pattern: string): (at: Option<nat>)
    ensures at.Some? ==> at.value + |pattern| <= |t| && pattern <= t[at.value..]
    ensures at.Some? ==> forall k :: 0 <= k < at.value ==> !(pattern <= t[k..])
    ensures at.None? ==> forall k :: 0 <= k <= |t| ==> !(pattern <= t[k..])
  {
    FindFrom(t, pattern, 0)
  }

  function FindFrom(t: string, pattern: string, from: nat): (at: Option<nat>)
    requires from <= |t|
    ensures at.Some? ==> from <= at.value && at.value + |pattern| <= |t| && pattern <= t[at.value..]
    ensures at.Some? ==> forall k :: from <= k < at.value ==> !(pattern <= t[k..])
    ensures at.None? ==> forall k :: from <= k <= |t| ==> !(pattern <= t[k..])
    decreases |t| - from
  {
    if pattern <= t[from..] then Some(from)
    else if from == |t| then None
    else FindFrom(t, pattern, from + 1)
  }

  predicate Blank(t: string) {
    forall c :: c in t ==> Whitespace(c)
  }

  function Trim(t: string): string {
    if t != [] && Whitespace(t[0]) then Trim(t[1..])
    else if t != [] && Whitespace(t[|t| - 1]) then Trim(t[..|t| - 1])
    else t
  }

  /** A text without whitespace at its ends. */
  predicate Bare(t: string) {
    t != [] ==> !Whitespace(t[0]) && !Whitespace(t[|t| - 1])
  }

  lemma {:induction false} TrimBlank(t: string)
    requires Blank(t)
    ensures Trim(t) == []
  {
    if t != [] {
      assert t[0] in t;
      TrimBlank(t[1..]);
    }
    hide Whitespace;
  }

  lemma {:induction false} TrimBefore(before: string, t: string)
    requires Blank(before)
    ensures Trim(before + t) == Trim(t)
  {
    hide Whitespace;
    if before == [] {
      assert before + t == t;
    } else {
      assert before[0] in before;
      assert (before + t)[0] == before[0] && (before + t)[1..] == before[1..] + t;
      TrimBefore(before[1..], t);
    }
  }

  lemma {:induction false} TrimAfter(body: string, after: string)
    requires body != [] && Bare(body) && Blank(after)
    ensures Trim(body + after) == body
    decreases |after|
  {
    hide Whitespace;
    var t := body + after;
    assert t[0] == body[0];
    if after == [] {
      assert t == body;
    } else {
      var n := |after| - 1;
      assert after[n] in after && t[|t| - 1] == after[n] && t[..|t| - 1] == body + after[..n];
      TrimAfter(body, after[..n]);
    }
  }

  /** Trimming takes the whitespace away from both ends and nothing else. */
  lemma TrimOf(before: string, body: string, after: string)
    requires Blank(before) && Bare(body) && Blank(after)
    ensures Trim(before + body + after) == body
  {
    Sequences.AppendAssociates(before, body, after);
    TrimBefore(before, body + after);
    if body == [] {
      Sequences.EmptyInFront(after);
      TrimBlank(after);
    } else {
      TrimAfter(body, after);
    }
    hide *;
  }

  lemma {:induction false} TrimIs(t: string) returns (before: string, after: string)
    ensures t == before + Trim(t) + after && Blank(before) && Bare(Trim(t)) && Blank(after)
    decreases |t|
  {
    before, after := [], [];
    hide Whitespace;
    if t != [] && Whitespace(t[0]) {
      before, after := TrimIs(t[1..]);
      before := [t[0]] + before;
    } else if t != [] && Whitespace(t[|t| - 1]) {
      before, after := TrimIs(t[..|t| - 1]);
      after := after + [t[|t| - 1]];
    }
  }

  /** Nothing was found, a marked result could not be parsed, or the end marker comes first, which the
      program does not survive. */
  datatype Extraction<+V> = Parsed(value: Option<V>) | Invalid | OutOfOrder

  /** At `i` starts an object that parses and carries a score. */
  ghost predicate ScoredAt<V>(t: string, i: int, parse: string -> Option<V>, scored: V -> bool, v: V) {
    && 0 <= i < |t| && t[i] == '{'
    && exists k :: Closes(t[i..], k) && parse(t[i..][..k]) == Some(v) && scored(v)
  }

  /** No object before it parses and carries a score. */
  ghost predicate FirstScored<V(!new)>(t: string, i: int, parse: string -> Option<V>, scored: V -> bool, v: V) {
    && ScoredAt(t, i, parse, scored, v)
    && forall j, w :: 0 <= j < i ==> !ScoredAt(t, j, parse, scored, w)
  }

  /** The first characters that make up `n` bytes. */
  function TakeBytes(t: string, n: int): string {
    if n <= 0 || t == [] then [] else [t[0]] + TakeBytes(t[1..], n - Width(t[0]))
  }

  lemma {:induction false} TakeBytesOfPrefix(t: string, k: nat)
    requires k <= |t|
    ensures TakeBytes(t, Bytes(t[..k])) == t[..k]
  {
    if k > 0 {
      BytesFront(t[..k]);
      assert t[..k][1..] == t[1..][..k - 1];
      TakeBytesOfPrefix(t[1..], k - 1);
    }
  }

  lemma {:induction false} BytesFront(t: string)
    requires t != []
    ensures Bytes(t) == Width(t[0]) + Bytes(t[1..])
  {
    if |t| > 1 {
      BytesFront(t[..|t| - 1]);
      assert t[..|t| - 1][1..] == t[1..][..|t| - 2];
    } else {
      assert t[..0] == [] && t[1..] == [];
    }
  }

  /** Both markers are there, in this order, and these three texts are what is between them. */
  predicate MarkedBody(output: string, before: string, body: string, after: string) {
    && Find(output, START).Some? && Find(output, END).Some?
    && Find(output, START).value + |START| <= Find(output, END).value
    && output[Find(output, START).value + |START|..Find(output, END).value] == before + body + after
  }

  /** What is between the markers is parsed without the whitespace around it. */
  method ParseMarked<V(!new)>(output: string, from: nat, to: nat, parse: string -> Option<V>)
    returns (result: Extraction<V>)
    requires from <= |output| && to <= |output|
    ensures to < from ==> result == OutOfOrder
    ensures from <= to ==> result == ParsedAs(parse, Trim(output[from..to]))
    ensures forall before, body, after ::
      from <= to && output[from..to] == before + body + after && Blank(before) && Bare(body) && Blank(after) ==>
        result == ParsedAs(parse, body)
  {
    if to < from {
      return OutOfOrder;
    }
    forall before, body, after | output[from..to] == before + body + after && Blank(before) && Bare(body) && Blank(after)
      ensures Trim(output[from..to]) == body
    {
      TrimOf(before, body, after);
    }
    hide Trim, Blank, Bare;
    return ParsedAs(parse, Trim(output[from..to]));
  }

  function ParsedAs<V>(parse: string -> Option<V>, body: string): Extraction<V> {
    if parse(body).Some? then Parsed(parse(body)) else Invalid
  }

  /** Between the markers if there are both; otherwise the first object with a score. */
  method ExtractStructured<V(!new)>(output: string, parse: string -> Option<V>, scored: V -> bool)
    returns (result: Extraction<V>)
    ensures Find(output, START).Some? && Find(output, END).Some? ==>
      var from, to := Find(output, START).value + |START|, Find(output, END).value;
      result ==
        if to < from then OutOfOrder else ParsedAs(parse, Trim(output[from..to]))
    // a text between the markers is parsed without the whitespace around it
    ensures forall before, body, after ::
      MarkedBody(output, before, body, after) && Blank(before) && Bare(body) && Blank(after) ==>
        result == if parse(body).Some? then Parsed(parse(body)) else Invalid
    ensures Find(output, START).None? || Find(output, END).None? ==>
      && result.Parsed?
      && (result.value.None? ==> forall i, v :: !ScoredAt(output, i, parse, scored, v))
      && (result.value.Some? ==>
            exists i :: FirstScored(output, i, parse, scored, result.value.value))
  {
    var start, end := Find(output, START), Find(output, END);
    if start.Some? && end.Some? {
      result := ParseMarked(output, start.value + |START|, end.value, parse);
      return;
    }
    hide Balance, Inside, Escaped, Closes, Bytes, TakeBytes, Trim;
    var index := 0;
    while index < |output|
      invariant 0 <= index <= |output|
      invariant forall j, v :: 0 <= j < index ==> !ScoredAt(output, j, parse, scored, v)
    {
      if output[index] == '{' {
        var tail := output[index..];
        var length := JsonObjectEnd(tail);
        if length.Some? {
          ghost var k :| Closes(tail, k) && length.value == Bytes(tail[..k]);
          TakeBytesOfPrefix(tail, k);
          var value := parse(TakeBytes(tail, length.value));
          if value.Some? && scored(value.value) {
            assert ScoredAt(output, index, parse, scored, value.value);
            assert FirstScored(output, index, parse, scored, value.value);
            return Parsed(value);
          }
          NotScored(output, index, k, parse, scored);
        }
      }
      index := index + 1;
    }
    return Parsed(None);
  }

  lemma NotScored<V(!new)>(t: string, i: nat, k: int, parse: string -> Option<V>, scored: V -> bool)
    requires i < |t| && Closes(t[i..], k)
    requires parse(t[i..][..k]).Some? ==> !scored(parse(t[i..][..k]).value)
    ensures forall v :: !ScoredAt(t, i, parse, scored, v)
  {
    forall v ensures !ScoredAt(t, i, parse, scored, v) {
      forall j | Closes(t[i..], j) ensures j == k { ClosesOnce(t[i..], j, k); }
    }
  }

  /** A printed result is found behind any output without braces, whatever comes after it. */
  lemma PrintedResultIsFound<V(!new)>(
    noise: string, v: Json, suffix: string, parse: string -> Option<V>, scored: V -> bool, value: V)
    requires v.Object? && Proper(v) && '{' !in noise
    requires parse(Print(v)) == Some(value) && scored(value)
    ensures
      var t := noise + (Print(v) + suffix);
      && FirstScored(t, |noise|, parse, scored, value)
      && (forall i, w :: FirstScored(t, i, parse, scored, w) ==> i == |noise| && w == value)
  {
    var text := Print(v) + suffix;
    var t := noise + text;
    assert t[|noise|..] == text && text[..|Print(v)|] == Print(v);
    assert t[|noise|] == text[0] == '{';
    PrintedObjectCloses(v, suffix);
    forall j | Closes(text, j) ensures j == |Print(v)| { ClosesOnce(text, j, |Print(v)|); }
    forall j | 0 <= j < |noise| ensures t[j] != '{' {
      assert t[j] == noise[j] && noise[j] in noise;
    }
  }

  /** A printed object has no whitespace at its ends, so between the markers it is parsed as printed. */
  lemma PrintedObjectIsBare(v: Json)
    requires v.Object?
    ensures Bare(Print(v))
  {
    var t := Print(v);
    assert t[0] == '{' && t[|t| - 1] == '}';
  }

  /** A printed result between the markers, with any whitespace around it, is the value that is parsed. */
  method MarkedResultIsFound<V(!new)>(
    output: string, before: string, v: Json, after: string, parse: string -> Option<V>, scored: V -> bool)
    returns (result: Extraction<V>)
    requires v.Object? && Blank(before) && Blank(after) && MarkedBody(output, before, Print(v), after)
    ensures result == if parse(Print(v)).Some? then Parsed(parse(Print(v))) else Invalid
  {
    PrintedObjectIsBare(v);
    hide *;
    result := ExtractStructured(output, parse, scored);
  }
}
