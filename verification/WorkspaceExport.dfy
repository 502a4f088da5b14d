/** The export of a container's workspace (src/workspace.rs) selects by the same limits as the submission
    (src/submission.rs), but sorts joined paths as text where the submission sorts by component. */
module WorkspaceExport {
  import opened Wrappers
  import opened Orders
  import opened Submission

  /** A component of a normalised path. */
  predicate Proper(path: Path) {
    forall k :: 0 <= k < |path| ==> path[k] != [] && '/' !in path[k]
  }

  predicate JoinedLess(a: Path, b: Path) {
    StringLess(Join(a), Join(b))
  }

  /** `a` ends where `b` goes on with a character that sorts before the slash, and `more` follows `a`. */
  predicate Undercuts(a: string, more: bool, b: string) {
    more && a < b && b[|a|] < '/'
  }

  /** The first components in which the paths differ are such that the slash after one of them counts. */
  predicate Swapped(p: Path, q: Path) {
    && p != [] && q != []
    && (if p[0] == q[0] then Swapped(p[1..], q[1..])
        else Undercuts(p[0], |p| > 1, q[0]) || Undercuts(q[0], |q| > 1, p[0]))
  }

  // -------------------------------------------------------------------- text with a common start

  lemma {:induction false} CommonStart(s: string, a: string, b: string)
    ensures StringLess(s + a, s + b) <==> StringLess(a, b)
  {
    if s == [] {
      assert s + a == a && s + b == b;
    } else {
      CommonStart(s[1..], a, b);
      assert (s + a)[1..] == s[1..] + a && (s + b)[1..] == s[1..] + b;
    }
  }

  /** Texts that start differently are ordered by the start, whatever follows. */
  lemma {:induction false} DifferentStart(a: string, b: string, s: string, t: string)
    requires !(a <= b) && !(b <= a)
    ensures StringLess(a + s, b + t) <==> StringLess(a, b)
  {
    assert (a + s)[0] == a[0] && (b + t)[0] == b[0];
    if a[0] == b[0] {
      assert a == [a[0]] + a[1..] && b == [b[0]] + b[1..];
      assert !(a[1..] <= b[1..]) by {
        assert a[1..] <= b[1..] ==> a <= b;
      }
      assert !(b[1..] <= a[1..]) by {
        assert b[1..] <= a[1..] ==> b <= a;
      }
      DifferentStart(a[1..], b[1..], s, t);
      assert (a + s)[1..] == a[1..] + s && (b + t)[1..] == b[1..] + t;
    }
  }

  lemma {:induction false} PrefixIsLess(a: string, b: string)
    requires a < b
    ensures StringLess(a, b)
  {
    if a != [] {
      PrefixIsLess(a[1..], b[1..]);
    }
  }

  /** After a common start the next characters decide. */
  lemma NextDecides(a: string, s: string, b: string)
    requires s != [] && a < b && s[0] != b[|a|]
    ensures StringLess(a + s, b) <==> s[0] < b[|a|]
    ensures StringLess(b, a + s) <==> b[|a|] < s[0]
  {
    var t := b[|a|..];
    assert b == a + t && t[0] == b[|a|];
    CommonStart(a, s, t);
    CommonStart(a, t, s);
  }

  /** What follows the first component of a joined path. */
  function Tail(path: Path): string
    requires path != []
  {
    if |path| == 1 then [] else "/" + Join(path[1..])
  }

  lemma JoinSplits(path: Path)
    requires path != []
    ensures Join(path) == path[0] + Tail(path)
    ensures |path| > 1 ==> Tail(path) != [] && Tail(path)[0] == '/'
  {
  }

  // -------------------------------------------------------------------- the two orders compared

  lemma TailsDecide(p: Path, q: Path)
    requires Proper(p) && Proper(q) && p != [] && q != [] && p[0] == q[0] && p != q
    ensures JoinedLess(p, q) <==> JoinedLess(p[1..], q[1..])
  {
    assert p == [p[0]] + p[1..] && q == [q[0]] + q[1..];
    JoinSplits(p);
    JoinSplits(q);
    CommonStart(p[0], Tail(p), Tail(q));
    if |p| > 1 && |q| > 1 {
      CommonStart("/", Join(p[1..]), Join(q[1..]));
    } else if |p| == 1 && |q| > 1 {
      JoinIsNotEmpty(q[1..]);
    } else if |p| > 1 {
      JoinIsNotEmpty(p[1..]);
    }
  }

  lemma JoinIsNotEmpty(path: Path)
    requires Proper(path) && path != []
    ensures Join(path) != []
  {
  }

  /** First components that differ: text order and component order agree unless one undercuts. */
  lemma HeadsDecide(p: Path, q: Path)
    requires Proper(p) && Proper(q) && p != [] && q != [] && p[0] != q[0]
    ensures PathLess(p, q) <==> StringLess(p[0], q[0])
    ensures
      JoinedLess(p, q) <==>
        if Undercuts(p[0], |p| > 1, q[0]) then false
        else if Undercuts(q[0], |q| > 1, p[0]) then true
        else StringLess(p[0], q[0])
  {
    JoinSplits(p);
    JoinSplits(q);
    var a, b := p[0], q[0];
    if a < b {
      PrefixGoesOn(a, Tail(p), b, Tail(q));
    } else if b < a {
      PrefixGoesOn(b, Tail(q), a, Tail(p));
      PrefixIsLess(b, a);
      LessIsAsymmetric(b, a);
    } else {
      DifferentStart(a, b, Tail(p), Tail(q));
    }
  }

  lemma LessIsAsymmetric(a: string, b: string)
    requires StringLess(a, b)
    ensures !StringLess(b, a)
  {
    StringLessIsStrictOrder();
    hide StringLess;
  }

  /** One component is the start of the other. */
  lemma PrefixGoesOn(a: string, s: string, b: string, t: string)
    requires a < b && '/' !in b && (s == [] || s[0] == '/')
    ensures StringLess(a, b)
    ensures StringLess(a + s, b + t) <==> s == [] || '/' < b[|a|]
    ensures StringLess(b + t, a + s) <==> s != [] && b[|a|] < '/'
  {
    PrefixIsLess(a, b);
    assert b[|a|] in b;
    assert a < b + t && (b + t)[|a|] == b[|a|];
    if s == [] {
      assert a + s == a;
      PrefixIsLess(a, b + t);
      LessIsAsymmetric(a, b + t);
    } else {
      NextDecides(a, s, b + t);
    }
  }

  /** For two different paths the text order and the component order agree exactly when neither path is
      swapped against the other. */
  lemma {:induction false} OrdersAgreeExactlyWhen(p: Path, q: Path)
    requires Proper(p) && Proper(q) && p != q
    ensures (JoinedLess(p, q) <==> PathLess(p, q)) <==> !Swapped(p, q)
    decreases |p|
  {
    if p == [] {
      JoinIsNotEmpty(q);
    } else if q == [] {
      JoinIsNotEmpty(p);
    } else if p[0] == q[0] {
      TailsDecide(p, q);
      assert p == [p[0]] + p[1..] && q == [q[0]] + q[1..];
      OrdersAgreeExactlyWhen(p[1..], q[1..]);
    } else {
      HeadsDecide(p, q);
      if p[0] < q[0] {
        PrefixIsLess(p[0], q[0]);
      } else if q[0] < p[0] {
        PrefixIsLess(q[0], p[0]);
        LessIsAsymmetric(q[0], p[0]);
      }
    }
  }

  // ------------------------------------------------------------------ what the order is worth

  ghost predicate SortedByText(files: seq<Candidate>) {
    forall i, j :: 0 <= i < j < |files| ==> JoinedLess(files[i].path, files[j].path)
  }

  ghost predicate NoneSwapped(files: seq<Candidate>) {
    forall c, c' :: c in files && c' in files && c.path != c'.path ==> !Swapped(c.path, c'.path)
  }

  /** The export takes the files in the order of the submission exactly when no two of them are swapped. */
  lemma SameOrderExactlyWhen(files: seq<Candidate>, exported: seq<Candidate>)
    requires DistinctPaths(files) && forall c :: c in files ==> Proper(c.path)
    requires SortedByText(exported) && forall c :: c in exported <==> c in files
    ensures exported == SortByPath(files) <==> NoneSwapped(files)
  {
    SortSorts(files);
    hide *;
    if NoneSwapped(files) {
      UnswappedIsSorted(files, exported);
      SortedIsUnique(exported, SortByPath(files));
    }
    if exported == SortByPath(files) {
      SortedIsUnswapped(files, exported);
    }
  }

  lemma UnswappedIsSorted(files: seq<Candidate>, exported: seq<Candidate>)
    requires SortedByText(exported) && forall c :: c in exported ==> c in files && Proper(c.path)
    requires NoneSwapped(files)
    ensures SortedByPath(exported)
  {
    StringLessIsStrictOrder();
    hide PathLess, StringLess, Swapped, Proper, Join;
    forall i, j | 0 <= i < j < |exported| ensures PathLess(exported[i].path, exported[j].path) {
      assert exported[i] in exported && exported[j] in exported;
      assert JoinedLess(exported[i].path, exported[j].path);
      assert exported[i].path != exported[j].path;
      OrdersAgreeExactlyWhen(exported[i].path, exported[j].path);
    }
  }

  lemma SortedIsUnswapped(files: seq<Candidate>, exported: seq<Candidate>)
    requires SortedByText(exported) && SortedByPath(exported)
    requires forall c :: c in files ==> c in exported && Proper(c.path)
    ensures NoneSwapped(files)
  {
    StringLessIsStrictOrder();
    PathLessIsStrictOrder();
    hide PathLess, StringLess, Swapped, Proper, Join;
    forall c, c' | c in files && c' in files && c.path != c'.path ensures !Swapped(c.path, c'.path) {
      var i :| 0 <= i < |exported| && exported[i] == c;
      var j :| 0 <= j < |exported| && exported[j] == c';
      OrdersAgreeExactlyWhen(c.path, c'.path);
      if i < j {
        assert JoinedLess(exported[i].path, exported[j].path);
      } else {
        assert JoinedLess(exported[j].path, exported[i].path);
      }
    }
  }

  // ---------------------------------------------------------------- what the selections have in common

  ghost predicate SameMembers(a: seq<Candidate>, b: seq<Candidate>) {
    forall c :: c in a <==> c in b
  }

  /** The limits that a policy may have (src/submission.rs:22-34). */
  predicate ValidPolicy(p: Policy) {
    p.maxFiles > 0 && p.maxFileBytes > 0 && p.maxTotalBytes >= p.maxFileBytes
  }

  /** The files that the policy matches, however large. */
  function Matching(p: Policy, files: seq<Candidate>): seq<Candidate> {
    Filter(p.(maxFileBytes := U64_MAX), files)
  }

  /** What the export selects from the files of a workspace, given in text order. */
  function Exported(p: Policy, inTextOrder: seq<Candidate>): seq<Candidate> {
    Greedy(p, Matching(p, inTextOrder))
  }

  /** What the submission selects from them. */
  function Submitted(p: Policy, files: seq<Candidate>): seq<Candidate> {
    Greedy(p, SortByPath(Matching(p, files)))
  }

  /** Under every policy export and submission select the same files. */
  ghost predicate SelectAlike(files: seq<Candidate>, inTextOrder: seq<Candidate>) {
    forall p | ValidPolicy(p) :: SameMembers(Exported(p, inTextOrder), Submitted(p, files))
  }

  function Room(n: nat): Policy {
    Policy(n, U64_MAX, U64_MAX, (path: string) => true)
  }

  /** The files outside the benchmark's own directory. */
  function Unreserved(files: seq<Candidate>): (open: seq<Candidate>)
    ensures forall c :: c in open <==> c in files && !Reserved(Join(c.path))
  {
    Matching(Room(1), files)
  }

  /** The submission selects from the files that its walk finds. */
  lemma SubmittedFromTheWalk(p: Policy, root: seq<Entry>)
    ensures Submitted(p, AllFiles(root, [])) == Greedy(p, MatchingInOrder(p, root))
  {
    hide Greedy;
  }

  /** With room for exactly so many files and no other limit, the first ones are taken. */
  lemma TakesTheFirst(files: seq<Candidate>, n: nat, p: Policy)
    requires n <= |files| && Total(files) <= U64_MAX
    requires p.maxFiles == n && p.maxFileBytes == p.maxTotalBytes == U64_MAX
    ensures Greedy(p, files) == files[..n]
  {
    TotalAppends(files[..n], files[n..]);
    assert files[..n] + files[n..] == files;
    WhatFitsIsTaken(p, files[..n]);
    FullStaysFull(p, files, n);
  }

  /** Where two orders of one set of files first differ, a limit on the count tells them apart. */
  lemma DifferentOrdersCompete(a: seq<Candidate>, b: seq<Candidate>, n: nat) returns (p: Policy)
    requires DistinctPaths(a) && DistinctPaths(b) && Total(a) <= U64_MAX && Total(b) <= U64_MAX
    requires n < |a| && n < |b| && a[..n] == b[..n] && a[n] != b[n]
    ensures p == Room(n + 1) && a[n] in Greedy(p, a) && a[n] !in Greedy(p, b)
  {
    p := Room(n + 1);
    TakesTheFirst(a, n + 1, p);
    TakesTheFirst(b, n + 1, p);
    assert a[n] in a[..n + 1] by { assert a[..n + 1][n] == a[n]; }
    forall k | 0 <= k < n ensures b[k] != a[n] {
      assert b[k] == b[..n][k] == a[..n][k] == a[k] && a[k].path != a[n].path;
    }
    assert forall k :: 0 <= k < n + 1 ==> b[..n + 1][k] == b[k];
  }

  lemma FirstDifference(a: seq<Candidate>, b: seq<Candidate>) returns (n: nat)
    requires |a| == |b| && a != b
    ensures n < |a| && a[..n] == b[..n] && a[n] != b[n]
  {
    assert a[..|a|] == a && b[..|b|] == b;
    n := 0;
    while n < |a| && a[n] == b[n]
      invariant n <= |a| && a[..n] == b[..n]
    {
      assert a[..n + 1] == a[..n] + [a[n]] && b[..n + 1] == b[..n] + [b[n]];
      n := n + 1;
    }
  }

  /** Two orders of one set of files lead to the same selections exactly if they are the same order. */
  lemma AlikeExactlyInOneOrder(a: seq<Candidate>, b: seq<Candidate>)
    requires DistinctPaths(a) && DistinctPaths(b) && |a| == |b| && Total(a) <= U64_MAX && Total(b) <= U64_MAX
    ensures (forall p | ValidPolicy(p) :: SameMembers(Greedy(p, a), Greedy(p, b))) <==> a == b
  {
    if a != b {
      var n := FirstDifference(a, b);
      var p := DifferentOrdersCompete(a, b, n);
      assert ValidPolicy(p) && !SameMembers(Greedy(p, a), Greedy(p, b));
    }
  }

  lemma SortedIsDistinct(files: seq<Candidate>, exported: seq<Candidate>)
    requires SortedByText(exported)
    ensures DistinctPaths(exported)
  {
    StringLessIsStrictOrder();
    hide StringLess, Join;
    forall i, j | 0 <= i < j < |exported| ensures exported[i].path != exported[j].path {
      assert JoinedLess(exported[i].path, exported[j].path);
    }
  }

  /** Sequences without repetitions that have the same members have the same length and total. */
  lemma {:induction false} SameMembersSameTotal(a: seq<Candidate>, b: seq<Candidate>)
    requires DistinctPaths(a) && DistinctPaths(b) && SameMembers(a, b)
    ensures |a| == |b| && Total(a) == Total(b)
  {
    assert b == [] || b[0] in b;
    if a != [] {
      var n := |a| - 1;
      assert a[n] in a;
      var k: nat :| k < |b| && b[k] == a[n];
      WithoutOne(a, n);
      WithoutOne(b, k);
      assert a[..n] + a[n + 1..] == a[..n];
      assert SameMembers(a[..n], b[..k] + b[k + 1..]);
      hide Total, DistinctPaths;
      SameMembersSameTotal(a[..n], b[..k] + b[k + 1..]);
    }
  }

  lemma WithoutOne(files: seq<Candidate>, k: nat)
    requires DistinctPaths(files) && k < |files|
    ensures
      var rest := files[..k] + files[k + 1..];
      && DistinctPaths(rest) && |rest| == |files| - 1 && Total(files) == Total(rest) + files[k].size
      && forall x :: x in rest <==> x in files && x != files[k]
  {
    var rest := files[..k] + files[k + 1..];
    assert forall i :: 0 <= i < |rest| ==> rest[i] == files[if i < k then i else i + 1];
    forall x | x in files && x != files[k] ensures x in rest {
      var i: nat :| i < |files| && files[i] == x;
      assert rest[if i < k then i else i - 1] == x;
    }
    TotalWithoutOne(files, k);
    hide Total;
  }

  lemma TotalWithoutOne(files: seq<Candidate>, k: nat)
    requires k < |files|
    ensures Total(files) == Total(files[..k] + files[k + 1..]) + files[k].size
  {
    hide Total;
    assert files[..k + 1] + files[k + 1..] == files && files[..k + 1] == files[..k] + [files[k]];
    TotalAppends(files[..k + 1], files[k + 1..]);
    TotalAddsLast(files[..k], files[k]);
    TotalAppends(files[..k], files[k + 1..]);
  }

  lemma {:induction false} FilterIsSortedByText(p: Policy, files: seq<Candidate>)
    requires SortedByText(files)
    ensures SortedByText(Filter(p, files))
  {
    hide StringLess, Join, Wanted;
    if files != [] {
      var rest := files[1..];
      assert forall i :: 0 <= i < |rest| ==> rest[i] == files[i + 1];
      FilterIsSortedByText(p, rest);
      var kept := Filter(p, rest);
      forall j | 0 <= j < |kept| ensures JoinedLess(files[0].path, kept[j].path) {
        assert kept[j] in rest;
      }
    }
  }

  /** The patterns alone decide what matches. */
  lemma {:induction false} MatchingBySelects(p: Policy, q: Policy, files: seq<Candidate>)
    requires p.selects == q.selects
    ensures Matching(p, files) == Matching(q, files)
  {
    if files != [] {
      MatchingBySelects(p, q, files[1..]);
    }
    hide Join, Reserved;
  }

  /** Both sides see the matching files in one order exactly when none of these are swapped. */
  lemma MatchingInOneOrderExactlyWhen(p: Policy, files: seq<Candidate>, inTextOrder: seq<Candidate>)
    requires DistinctPaths(files) && forall c :: c in files ==> Proper(c.path)
    requires SortedByText(inTextOrder) && forall c :: c in inTextOrder <==> c in files
    ensures Matching(p, inTextOrder) == SortByPath(Matching(p, files)) <==> NoneSwapped(Matching(p, files))
  {
    hide SortByPath, Wanted, NoneSwapped, Proper, DistinctPaths, SortedByText;
    FilterIsDistinct(p.(maxFileBytes := U64_MAX), files);
    FilterIsSortedByText(p.(maxFileBytes := U64_MAX), inTextOrder);
    SameOrderExactlyWhen(Matching(p, files), Matching(p, inTextOrder));
  }

  lemma MatchingIsUnreserved(p: Policy, files: seq<Candidate>)
    requires NoneSwapped(Unreserved(files))
    ensures NoneSwapped(Matching(p, files))
  {
    hide Join, Reserved, Swapped, Matching;
    forall c | c in Matching(p, files) ensures c in Unreserved(files) {
      MatchingMatches(p, files, c);
    }
  }

  lemma MatchingMatches(p: Policy, files: seq<Candidate>, c: Candidate)
    requires c in Matching(p, files)
    ensures c in files && Matches(p, Join(c.path))
  {
    hide Join, Reserved;
  }

  /** Export and submission of one workspace select the same files under every policy exactly when no two
      files outside the benchmark's own directory are swapped. (Together these have to stay below the
      largest size a policy can name.) */
  lemma SelectAlikeExactlyWhen(files: seq<Candidate>, inTextOrder: seq<Candidate>)
    requires DistinctPaths(files) && forall c :: c in files ==> Proper(c.path)
    requires SortedByText(inTextOrder) && forall c :: c in inTextOrder <==> c in files
    requires Total(Unreserved(files)) <= U64_MAX
    ensures SelectAlike(files, inTextOrder) <==> NoneSwapped(Unreserved(files))
  {
    if NoneSwapped(Unreserved(files)) {
      forall p | ValidPolicy(p) ensures SameMembers(Exported(p, inTextOrder), Submitted(p, files)) {
        hide Matching, Greedy, SortByPath, NoneSwapped, Unreserved, SortedByText, DistinctPaths, Proper;
        MatchingIsUnreserved(p, files);
        MatchingInOneOrderExactlyWhen(p, files, inTextOrder);
      }
    } else {
      MatchingInOneOrderExactlyWhen(Room(1), files, inTextOrder);
      var p := DifferentSelections(files, inTextOrder);
      assert !SameMembers(Exported(p, inTextOrder), Submitted(p, files));
    }
    hide *;
  }

  /** If the unreserved files are not in one order, room for some number of them tells the sides apart. */
  lemma DifferentSelections(files: seq<Candidate>, inTextOrder: seq<Candidate>) returns (p: Policy)
    requires DistinctPaths(files) && SortedByText(inTextOrder) && forall c :: c in inTextOrder <==> c in files
    requires Total(Unreserved(files)) <= U64_MAX
    requires Matching(Room(1), inTextOrder) != SortByPath(Matching(Room(1), files))
    ensures ValidPolicy(p) && !SameMembers(Exported(p, inTextOrder), Submitted(p, files))
  {
    var a, b := Matching(Room(1), inTextOrder), SortByPath(Matching(Room(1), files));
    var open := Matching(Room(1), files);
    assert open == Unreserved(files);
    hide Wanted, SortedByText, DistinctPaths, SortByPath, Greedy, Join, Total;
    SortedIsDistinct(files, inTextOrder);
    FilterIsDistinct(Room(1), files);
    FilterIsDistinct(Room(1), inTextOrder);
    SortSorts(open);
    SortKeepsTotal(open);
    SortedByPathIsDistinct(b);
    SameMembersSameTotal(a, b);
    var n := FirstDifference(a, b);
    p := DifferentOrdersCompete(a, b, n);
    MatchingBySelects(p, Room(1), files);
    MatchingBySelects(p, Room(1), inTextOrder);
    assert a[n] in Exported(p, inTextOrder) && a[n] !in Submitted(p, files);
  }

  lemma SortedByPathIsDistinct(files: seq<Candidate>)
    requires SortedByPath(files)
    ensures DistinctPaths(files)
  {
    PathLessIsStrictOrder();
    hide PathLess;
  }

  /** One pair of swapped files, and the policy with room for one of them. */
  lemma SwappedFilesCompete() returns (files: seq<Candidate>, inTextOrder: seq<Candidate>, p: Policy)
    ensures DistinctPaths(files) && SortedByText(inTextOrder) && forall c :: c in inTextOrder <==> c in files
    ensures ValidPolicy(p)
    ensures Candidate(["a-b", "x"], 1) in Exported(p, inTextOrder)
    ensures Candidate(["a-b", "x"], 1) !in Submitted(p, files)
  {
    hide Greedy, Total, SortByPath, Matching, Reserved;
    var first, second := Candidate(["a-b", "x"], 1), Candidate(["a", "x"], 1);
    var p1, p2 := first.path, second.path;
    assert Proper(p1) && Proper(p2);
    assert p1[0] == "a-b" && p2[0] == "a" && p2[0] < p1[0] && p1[0][1] == '-';
    PrefixIsLess(p2[0], p1[0]);
    HeadsDecide(p1, p2);
    HeadsDecide(p2, p1);
    ReservedByFirstComponent(p1);
    ReservedByFirstComponent(p2);
    inTextOrder, files := [first, second], [second, first];
    assert SortedByText(inTextOrder) && SortedByPath(files);
    TotalOfTwo(first, second);
    TotalOfTwo(second, first);
    hide PathLess, StringLess, Join;
    SortSorts(files);
    SortedIsUnique(files, SortByPath(files));
    p := DifferentOrdersCompete(inTextOrder, files, 0);
    BothMatch(p, first, second);
    BothMatch(p, second, first);
  }

  lemma BothMatch(p: Policy, a: Candidate, b: Candidate)
    requires Matches(p, Join(a.path)) && Matches(p, Join(b.path))
    ensures Matching(p, [a, b]) == [a, b]
  {
    var wide := p.(maxFileBytes := U64_MAX);
    hide Join, Reserved;
    assert Wanted(wide, a) && Wanted(wide, b) && [a, b][1..] == [b] && [b][1..] == [];
    assert Filter(wide, [b]) == [b] + Filter(wide, []);
    assert Filter(wide, [a, b]) == [a] + Filter(wide, [b]);
  }

  lemma TotalOfTwo(a: Candidate, b: Candidate)
    ensures Total([a, b]) == a.size + b.size
  {
    assert [a, b] == [] + [a] + [b];
    TotalAddsLast([], a);
    TotalAddsLast([] + [a], b);
  }

  // -------------------------------------------------------------------- what both sides share

  /** A joined path is reserved exactly when its first component is the benchmark's own directory. */
  lemma ReservedByFirstComponent(path: Path)
    requires Proper(path) && path != []
    ensures Reserved(Join(path)) <==> path[0] == ".a3s"
  {
    JoinSplits(path);
    var a, s, own := path[0], Tail(path), ".a3s";
    assert forall k :: 0 <= k < |a| ==> (a + s)[k] == a[k] && a[k] in a && a[k] != '/';
    assert s != [] ==> (a + s)[|a|] == '/';
    assert if s == [] then a + s == a else a + "/" == (a + s)[..|a| + 1];
    assert '/' !in own && ".a3s/" == own + "/";
    if own + "/" <= a + s {
      assert (a + s)[4] == '/' && forall k :: 0 <= k < 4 ==> (a + s)[k] == own[k] && own[k] in own;
      assert |a| == 4 && (a + s)[..4] == a == own;
    } else if own == a + s {
      assert forall k :: 0 <= k < 4 ==> (a + s)[k] == own[k] && own[k] in own;
      assert s == [] && a + s == a;
    }
  }

  /** The matching files by their first component, for names without slashes. */
  lemma MatchingByFirstComponent(p: Policy, root: seq<Entry>, c: Candidate)
    requires Proper(c.path) && c.path != []
    ensures c in MatchingInOrder(p, root) <==>
      HasFile(root, c.path, c.size) && p.selects(Join(c.path)) && c.path[0] != ".a3s"
  {
    ReservedByFirstComponent(c.path);
    MatchingIsExactly(p, root, c);
    hide MatchingInOrder, HasFile, Join;
  }

  /** Every path that the walk can find passes the depth check of the export. */
  lemma {:induction false} WalkedPathsAreShallow(entries: seq<Entry>, prefix: Path, c: Candidate)
    requires !Unusable(entries, |prefix|) && |prefix| <= MAX_DEPTH
    requires c in AllFiles(entries, prefix)
    ensures |c.path| <= MAX_DEPTH + 1
    decreases entries, 1
  {
    if c in FilesOf(entries[0], prefix) {
      assert !UnusableEntry(entries[0], |prefix|);
      EntryPathsAreShallow(entries[0], prefix, c);
    } else {
      var rest := entries[1..];
      assert forall k :: 0 <= k < |rest| ==> rest[k] == entries[k + 1];
      WalkedPathsAreShallow(rest, prefix, c);
    }
  }

  lemma {:induction false} EntryPathsAreShallow(e: Entry, prefix: Path, c: Candidate)
    requires !UnusableEntry(e, |prefix|) && |prefix| <= MAX_DEPTH
    requires c in FilesOf(e, prefix)
    ensures |c.path| <= MAX_DEPTH + 1
    decreases e, 0
  {
    if e.node.Dir? {
      WalkedPathsAreShallow(e.node.entries, prefix + [e.name.value], c);
    }
  }
}
