/** The choice of the files that are submitted (src/submission.rs): a walk over the workspace, a sort by
    path, and a greedy selection under limits. Directories are listed in an order of their own. */
module Submission {
  import opened Wrappers
  import opened Orders
  import Sequences

  const U64_MAX := 0xFFFF_FFFF_FFFF_FFFF

  type u64 = n: int | 0 <= n <= U64_MAX

  /** The components of a relative path. */
  type Path = seq<string>

  predicate PathLess(a: Path, b: Path) {
    Lex(StringLess, a, b)
  }

  lemma PathLessIsStrictOrder()
    ensures StrictOrder(PathLess)
  {
    StringLessIsStrictOrder();
    forall a: Path ensures !PathLess(a, a) {
      LexIsIrreflexive(StringLess, a);
    }
    forall a: Path, b: Path, c: Path | PathLess(a, b) && PathLess(b, c) ensures PathLess(a, c) {
      LexIsTransitive(StringLess, a, b, c);
    }
    forall a: Path, b: Path ensures a == b || PathLess(a, b) || PathLess(b, a) {
      LexIsTotal(StringLess, a, b);
    }
  }

  /** By the texts of the first components that differ. */
  lemma PathLessIs(a: Path, b: Path)
    ensures PathLess(a, b) <==>
      exists k :: 0 <= k <= |a| && k < |b| && a[..k] == b[..k] && (k == |a| || StringLess(a[k], b[k]))
  {
    StringLessIsStrictOrder();
    LexIs(StringLess, a, b);
    hide Lex, StringLess;
  }

  /** The path as it is matched, with slashes. */
  function Join(path: Path): string {
    if path == [] then []
    else if |path| == 1 then path[0]
    else path[0] + "/" + Join(path[1..])
  }

  predicate Reserved(joined: string) {
    joined == ".a3s" || ".a3s/" <= joined
  }

  /** The limits, and which joined paths the patterns select. */
  datatype Policy = Policy(
    maxFiles: nat, maxFileBytes: u64, maxTotalBytes: u64, selects: string -> bool)

  predicate Matches(p: Policy, joined: string) {
    p.selects(joined) && !Reserved(joined)
  }

  // ------------------------------------------------------------------------- the workspace

  datatype Node = File(size: u64) | Dir(entries: seq<Entry>) | Symlink | Special

  /** An entry of a directory; the name is missing when it is not UTF-8. */
  datatype Entry = Entry(name: Option<string>, node: Node)

  datatype Candidate = Candidate(path: Path, size: u64)

  const MAX_DEPTH := 64

  /** Somewhere in the directory is a name that cannot be read, or a directory that lies too deep. */
  predicate Unusable(entries: seq<Entry>, depth: nat) {
    exists k :: 0 <= k < |entries| && UnusableEntry(entries[k], depth)
  }

  predicate UnusableEntry(e: Entry, depth: nat) {
    && !e.node.Symlink?
    && (e.name.None? || (e.node.Dir? && (depth + 1 > MAX_DEPTH || Unusable(e.node.entries, depth + 1))))
  }

  /** Every file below a directory, in the order in which it is listed. */
  function AllFiles(entries: seq<Entry>, prefix: Path): seq<Candidate>
    decreases entries
  {
    if entries == [] then []
    else FilesOf(entries[0], prefix) + AllFiles(entries[1..], prefix)
  }

  function FilesOf(e: Entry, prefix: Path): seq<Candidate>
    decreases e
  {
    if e.name.None? then []
    else
      match e.node
      case File(size) => [Candidate(prefix + [e.name.value], size)]
      case Dir(entries) => AllFiles(entries, prefix + [e.name.value])
      case _ => []
  }

  /** The file at a path, found by following names. */
  predicate HasFile(entries: seq<Entry>, path: Path, size: u64)
    decreases |path|
  {
    && path != []
    && exists k :: 0 <= k < |entries| && EntryHasFile(entries[k], path, size)
  }

  predicate EntryHasFile(e: Entry, path: Path, size: u64)
    requires path != []
    decreases |path|, 0
  {
    && e.name == Some(path[0])
    && (if |path| == 1 then e.node == File(size) else e.node.Dir? && HasFile(e.node.entries, path[1..], size))
  }

  /** No directory holds two entries of one name. */
  predicate DistinctNames(entries: seq<Entry>) {
    && (forall i, j :: 0 <= i < j < |entries| && entries[i].name.Some? ==> entries[i].name != entries[j].name)
    && (forall i :: 0 <= i < |entries| ==> DistinctBelow(entries[i]))
  }

  predicate DistinctBelow(e: Entry) {
    e.node.Dir? ==> DistinctNames(e.node.entries)
  }

  // ------------------------------------------------------------------------------ the walk

  /** The files that are worth sorting: those the policy selects, unless one alone is too large. */
  predicate Wanted(p: Policy, c: Candidate) {
    Matches(p, Join(c.path)) && c.size <= p.maxFileBytes
  }

  function Filter(p: Policy, files: seq<Candidate>): (kept: seq<Candidate>)
    ensures forall c :: c in kept <==> c in files && Wanted(p, c)
  {
    if files == [] then []
    else (if Wanted(p, files[0]) then [files[0]] else []) + Filter(p, files[1..])
  }

  lemma {:induction false} FilterAppends(p: Policy, a: seq<Candidate>, b: seq<Candidate>)
    ensures Filter(p, a + b) == Filter(p, a) + Filter(p, b)
  {
    if a == [] {
      assert a + b == b;
    } else {
      FilterAppends(p, a[1..], b);
      assert (a + b)[1..] == a[1..] + b && (a + b)[0] == a[0];
      hide Wanted;
      var first := if Wanted(p, a[0]) then [a[0]] else [];
      assert Filter(p, a + b) == first + Filter(p, a[1..] + b);
      assert Filter(p, a) == first + Filter(p, a[1..]);
      Sequences.AppendAssociates(first, Filter(p, a[1..]), Filter(p, b));
    }
  }

  /** Pushes the wanted files below a directory; the first unusable entry ends the walk. */
  method Visit(p: Policy, entries: seq<Entry>, prefix: Path, files: seq<Candidate>)
    returns (ok: bool, found: seq<Candidate>)
    ensures ok == !Unusable(entries, |prefix|)
    ensures ok ==> found == files + Filter(p, AllFiles(entries, prefix))
    decreases Dir(entries)
  {
    found := files;
    var k := 0;
    while k < |entries|
      invariant 0 <= k <= |entries|
      invariant !Unusable(entries[..k], |prefix|)
      invariant found == files + Filter(p, AllFiles(entries[..k], prefix))
    {
      hide *;
      OneMoreEntry(p, entries, k, prefix);
      Sequences.AppendAssociates(
        files, Filter(p, AllFiles(entries[..k], prefix)), Filter(p, FilesOf(entries[k], prefix)));
      ok, found := VisitEntry(p, entries[k], prefix, found);
      if !ok {
        return;
      }
      k := k + 1;
    }
    assert entries[..k] == entries;
    ok := true;
  }

  /** One entry of a directory: links and special files are passed over. */
  method VisitEntry(p: Policy, e: Entry, prefix: Path, files: seq<Candidate>)
    returns (ok: bool, found: seq<Candidate>)
    ensures ok == !UnusableEntry(e, |prefix|)
    ensures ok ==> found == files + Filter(p, FilesOf(e, prefix))
    decreases e
  {
    EntryFiles(p, e, prefix);
    hide *;
    if e.node.Symlink? {
      return true, files;
    }
    if e.name.None? {
      return false, files;
    }
    var relative := prefix + [e.name.value];
    match e.node {
      case Dir(inner) =>
        if |relative| > MAX_DEPTH {
          return false, files;
        }
        ok, found := Visit(p, inner, relative, files);
      case File(size) =>
        ok := true;
        found := if Matches(p, Join(relative)) && size <= p.maxFileBytes then files + [Candidate(relative, size)]
                 else files;
      case Special =>
        return true, files;
    }
  }

  lemma EntryFiles(p: Policy, e: Entry, prefix: Path)
    ensures e.node.Symlink? || e.node.Special? ==> Filter(p, FilesOf(e, prefix)) == []
    ensures e.name.Some? && e.node.File? ==>
      var c := Candidate(prefix + [e.name.value], e.node.size);
      Filter(p, FilesOf(e, prefix)) ==
        if Matches(p, Join(c.path)) && c.size <= p.maxFileBytes then [c] else []
    ensures e.name.Some? && e.node.Dir? ==>
      FilesOf(e, prefix) == AllFiles(e.node.entries, prefix + [e.name.value])
    ensures UnusableEntry(e, |prefix|) <==>
      && !e.node.Symlink?
      && (e.name.None? || (e.node.Dir? && (|prefix| + 1 > MAX_DEPTH || Unusable(e.node.entries, |prefix| + 1))))
  {
    if e.name.Some? && e.node.File? {
      var c := Candidate(prefix + [e.name.value], e.node.size);
      assert FilesOf(e, prefix) == [c] && [c][1..] == [];
      assert Filter(p, [c]) == (if Wanted(p, c) then [c] else []) + Filter(p, []);
    }
  }

  lemma OneMoreEntry(p: Policy, entries: seq<Entry>, k: nat, prefix: Path)
    requires k < |entries|
    ensures Filter(p, AllFiles(entries[..k + 1], prefix)) ==
      Filter(p, AllFiles(entries[..k], prefix)) + Filter(p, FilesOf(entries[k], prefix))
    ensures Unusable(entries[..k + 1], |prefix|) <==>
      Unusable(entries[..k], |prefix|) || UnusableEntry(entries[k], |prefix|)
    ensures UnusableEntry(entries[k], |prefix|) ==> Unusable(entries, |prefix|)
  {
    var front := entries[..k];
    assert entries[..k + 1] == front + [entries[k]];
    AllFilesAppends(front, entries[k], prefix);
    FilterAppends(p, AllFiles(front, prefix), FilesOf(entries[k], prefix));
    assert entries[..k + 1][k] == entries[k];
    assert forall j :: 0 <= j < k ==> entries[..k + 1][j] == front[j];
  }

  lemma {:induction false} AllFilesAppends(entries: seq<Entry>, e: Entry, prefix: Path)
    ensures AllFiles(entries + [e], prefix) == AllFiles(entries, prefix) + FilesOf(e, prefix)
  {
    if entries == [] {
      assert entries + [e] == [e] && AllFiles([e], prefix) == FilesOf(e, prefix) + AllFiles([e][1..], prefix);
    } else {
      AllFilesAppends(entries[1..], e, prefix);
      assert (entries + [e])[1..] == entries[1..] + [e] && (entries + [e])[0] == entries[0];
      Sequences.AppendAssociates(FilesOf(entries[0], prefix), AllFiles(entries[1..], prefix), FilesOf(e, prefix));
    }
  }

  /** The walk finds exactly the files that names lead to. */
  lemma {:induction false} WalkFindsFiles(entries: seq<Entry>, prefix: Path, path: Path, size: u64)
    ensures Candidate(prefix + path, size) in AllFiles(entries, prefix) <==> HasFile(entries, path, size)
    decreases entries, 1
  {
    if entries == [] {
    } else {
      var rest := entries[1..];
      WalkFindsFiles(rest, prefix, path, size);
      EntryFindsFiles(entries[0], prefix, path, size);
      if HasFile(entries, path, size) {
        var k :| 0 <= k < |entries| && EntryHasFile(entries[k], path, size);
        if k > 0 {
          assert rest[k - 1] == entries[k];
        }
      }
      if HasFile(rest, path, size) {
        var k :| 0 <= k < |rest| && EntryHasFile(rest[k], path, size);
        assert entries[k + 1] == rest[k];
      }
    }
  }

  lemma {:induction false} EntryFindsFiles(e: Entry, prefix: Path, path: Path, size: u64)
    ensures Candidate(prefix + path, size) in FilesOf(e, prefix) <==>
      path != [] && EntryHasFile(e, path, size)
    decreases e, 0
  {
    if e.name.Some? && e.node.File? {
      assert prefix + path == prefix + [e.name.value] <==> path == [e.name.value] by {
        assert (prefix + path)[|prefix|..] == path;
        assert (prefix + [e.name.value])[|prefix|..] == [e.name.value];
      }
    } else if e.name.Some? && e.node.Dir? {
      var inner := prefix + [e.name.value];
      if path != [] && path[0] == e.name.value {
        assert prefix + path == inner + path[1..];
        WalkFindsFiles(e.node.entries, inner, path[1..], size);
      } else {
        assert !(inner <= prefix + path);
        if Candidate(prefix + path, size) in FilesOf(e, prefix) {
          EntryExtendsPrefix(e, prefix, Candidate(prefix + path, size));
        }
      }
    }
  }

  lemma {:induction false} PathsExtendPrefix(entries: seq<Entry>, prefix: Path, c: Candidate)
    requires c in AllFiles(entries, prefix)
    ensures prefix < c.path
    decreases entries, 1
  {
    if c in FilesOf(entries[0], prefix) {
      EntryExtendsPrefix(entries[0], prefix, c);
    } else {
      PathsExtendPrefix(entries[1..], prefix, c);
    }
  }

  lemma {:induction false} EntryExtendsPrefix(e: Entry, prefix: Path, c: Candidate)
    requires c in FilesOf(e, prefix)
    ensures prefix < c.path && prefix + [e.name.value] <= c.path
    decreases e, 0
  {
    if e.node.Dir? {
      PathsExtendPrefix(e.node.entries, prefix + [e.name.value], c);
    }
  }

  ghost predicate DistinctPaths(files: seq<Candidate>) {
    forall i, j :: 0 <= i < j < |files| ==> files[i].path != files[j].path
  }

  /** Files below different entries have different paths. */
  lemma {:induction false} WalkIsDistinct(entries: seq<Entry>, prefix: Path)
    requires DistinctNames(entries)
    ensures DistinctPaths(AllFiles(entries, prefix))
    decreases entries, 1
  {
    if entries != [] {
      var e, rest := entries[0], entries[1..];
      assert DistinctNames(rest) by {
        assert forall i :: 0 <= i < |rest| ==> rest[i] == entries[i + 1];
      }
      WalkIsDistinct(rest, prefix);
      assert DistinctBelow(e);
      EntryIsDistinct(e, prefix);
      var first, others := FilesOf(e, prefix), AllFiles(rest, prefix);
      forall c, c' | c in first && c' in others ensures c.path != c'.path {
        EntryExtendsPrefix(e, prefix, c);
        var k := FileHasEntry(rest, prefix, c');
        assert rest[k] == entries[k + 1] && e.name != rest[k].name;
        assert c.path[|prefix|] == (prefix + [e.name.value])[|prefix|];
        assert c'.path[|prefix|] == (prefix + [rest[k].name.value])[|prefix|];
      }
      DistinctTogether(first, others);
    }
  }

  lemma DistinctTogether(a: seq<Candidate>, b: seq<Candidate>)
    requires DistinctPaths(a) && DistinctPaths(b)
    requires forall c, c' :: c in a && c' in b ==> c.path != c'.path
    ensures DistinctPaths(a + b)
  {
    forall i, j | 0 <= i < j < |a + b| ensures (a + b)[i].path != (a + b)[j].path {
      if i < |a| <= j {
        assert a[i] in a && b[j - |a|] in b;
      }
    }
  }

  lemma {:induction false} EntryIsDistinct(e: Entry, prefix: Path)
    requires DistinctBelow(e)
    ensures DistinctPaths(FilesOf(e, prefix))
    decreases e, 0
  {
    if e.name.Some? && e.node.Dir? {
      WalkIsDistinct(e.node.entries, prefix + [e.name.value]);
    }
  }

  lemma {:induction false} FileHasEntry(entries: seq<Entry>, prefix: Path, c: Candidate) returns (k: nat)
    requires c in AllFiles(entries, prefix)
    ensures k < |entries| && entries[k].name.Some? && prefix + [entries[k].name.value] <= c.path
    decreases |entries|
  {
    if c in FilesOf(entries[0], prefix) {
      EntryExtendsPrefix(entries[0], prefix, c);
      k := 0;
    } else {
      k := FileHasEntry(entries[1..], prefix, c);
      k := k + 1;
    }
  }

  // ------------------------------------------------------------------------------ the sort

  ghost predicate SortedByPath(files: seq<Candidate>) {
    forall i, j :: 0 <= i < j < |files| ==> PathLess(files[i].path, files[j].path)
  }

  function Insert(c: Candidate, files: seq<Candidate>): (r: seq<Candidate>)
    ensures forall x :: x in r <==> x == c || x in files
  {
    if files == [] || PathLess(c.path, files[0].path) then [c] + files
    else [files[0]] + Insert(c, files[1..])
  }

  function SortByPath(files: seq<Candidate>): (r: seq<Candidate>)
    ensures forall x :: x in r <==> x in files
  {
    if files == [] then [] else Insert(files[0], SortByPath(files[1..]))
  }

  lemma {:induction false} InsertSorts(c: Candidate, files: seq<Candidate>)
    requires SortedByPath(files) && forall x :: x in files ==> x.path != c.path
    ensures SortedByPath(Insert(c, files)) && |Insert(c, files)| == |files| + 1
  {
    PathLessIsStrictOrder();
    hide PathLess;
    if files == [] || PathLess(c.path, files[0].path) {
    } else {
      assert files[0] in files;
      forall x | x in files[1..] ensures x in files && PathLess(files[0].path, x.path) {
        var k :| 0 <= k < |files[1..]| && files[1..][k] == x;
        assert files[k + 1] == x;
      }
      InsertSorts(c, files[1..]);
      SortedFrom(files[0], Insert(c, files[1..]));
    }
  }

  lemma SortedFrom(c: Candidate, files: seq<Candidate>)
    requires SortedByPath(files) && forall x :: x in files ==> PathLess(c.path, x.path)
    ensures SortedByPath([c] + files)
  {
    hide PathLess;
    forall i, j | 0 <= i < j < |[c] + files| ensures PathLess(([c] + files)[i].path, ([c] + files)[j].path) {
      assert ([c] + files)[j] == files[j - 1];
    }
  }

  lemma {:induction false} SortSorts(files: seq<Candidate>)
    requires DistinctPaths(files)
    ensures SortedByPath(SortByPath(files)) && |SortByPath(files)| == |files|
  {
    if files != [] {
      SortSorts(files[1..]);
      forall x | x in SortByPath(files[1..]) ensures x.path != files[0].path {
        var k :| 0 <= k < |files[1..]| && files[1..][k] == x;
        assert files[k + 1] == x;
      }
      InsertSorts(files[0], SortByPath(files[1..]));
    }
  }

  /** Only one sequence has given members and is sorted by path, so any sort yields the same. */
  lemma {:induction false} SortedIsUnique(a: seq<Candidate>, b: seq<Candidate>)
    requires SortedByPath(a) && SortedByPath(b) && forall x :: x in a <==> x in b
    ensures a == b
  {
    PathLessIsStrictOrder();
    hide PathLess;
    assert b == [] || b[0] in b;
    if a == [] {
    } else {
      assert a[0] in a && a[0] in b;
      assert b[0] in b && b[0] in a;
      SmallestFirst(a, b[0]);
      SmallestFirst(b, a[0]);
      assert a[0] == b[0];
      RestMembers(a);
      RestMembers(b);
      SortedIsUnique(a[1..], b[1..]);
      assert a == [a[0]] + a[1..] && b == [b[0]] + b[1..];
    }
  }

  lemma SmallestFirst(files: seq<Candidate>, x: Candidate)
    requires SortedByPath(files) && x in files
    ensures files[0] == x || PathLess(files[0].path, x.path)
  {
    hide PathLess;
  }

  lemma RestMembers(files: seq<Candidate>)
    requires SortedByPath(files) && files != []
    ensures SortedByPath(files[1..]) && forall x :: x in files[1..] <==> x in files && x != files[0]
  {
    PathLessIsStrictOrder();
    hide PathLess;
    forall x | x in files && x != files[0] ensures x in files[1..] {
      var k :| 0 <= k < |files| && files[k] == x;
      assert files[1..][k - 1] == x;
    }
  }

  // ------------------------------------------------------------------------- the selection

  function Total(files: seq<Candidate>): (n: nat)
  {
    if files == [] then 0 else Total(files[..|files| - 1]) + files[|files| - 1].size
  }

  /** One more file stays within every limit. */
  predicate Fits(p: Policy, selected: seq<Candidate>, c: Candidate) {
    && |selected| < p.maxFiles && c.size <= p.maxFileBytes
    && Total(selected) + c.size <= p.maxTotalBytes
  }

  /** The plain greedy selection: every file in turn, if it fits. */
  function Greedy(p: Policy, files: seq<Candidate>): seq<Candidate> {
    if files == [] then []
    else
      var selected, c := Greedy(p, files[..|files| - 1]), files[|files| - 1];
      if Fits(p, selected, c) then selected + [c] else selected
  }

  class TerminalLimits {
    const policy: Policy
    var selected: nat
    var total: u64

    constructor (policy: Policy)
      ensures this.policy == policy && selected == 0 && total == 0
    {
      this.policy, selected, total := policy, 0, 0;
    }

    predicate IsFull()
      reads this
    {
      selected >= policy.maxFiles
    }

    /** The addition is checked for overflow first; that never decides, since the limit is a word too. */
    method Select(size: u64) returns (ok: bool)
      modifies this
      ensures ok == (old(selected) < policy.maxFiles && size <= policy.maxFileBytes
                     && old(total) + size <= policy.maxTotalBytes)
      ensures selected == old(selected) + (if ok then 1 else 0)
      ensures total == old(total) + (if ok then size else 0)
    {
      if IsFull() || size > policy.maxFileBytes {
        return false;
      }
      if total + size > U64_MAX {
        return false;
      }
      var newTotal := total + size;
      if newTotal > policy.maxTotalBytes {
        return false;
      }
      total, selected := newTotal, selected + 1;
      return true;
    }
  }

  /** All matching files below a root, in path order, however large. */
  function MatchingInOrder(p: Policy, root: seq<Entry>): seq<Candidate> {
    SortByPath(Filter(p.(maxFileBytes := U64_MAX), AllFiles(root, [])))
  }

  /** These are exactly the files that names lead to, whose joined path the patterns select, and that are not
      the benchmark's own directory or below it. */
  lemma MatchingIsExactly(p: Policy, root: seq<Entry>, c: Candidate)
    ensures c in MatchingInOrder(p, root) <==>
      && HasFile(root, c.path, c.size) && p.selects(Join(c.path))
      && Join(c.path) != ".a3s" && !(".a3s/" <= Join(c.path))
  {
    WalkFindsFiles(root, [], c.path, c.size);
    assert [] + c.path == c.path;
    SortIsThere(Filter(p.(maxFileBytes := U64_MAX), AllFiles(root, [])), c);
    hide HasFile, Join, SortByPath;
  }

  lemma SortIsThere(files: seq<Candidate>, c: Candidate)
    ensures c in SortByPath(files) <==> c in files
  {
  }

  lemma {:induction false} SelectionIsOffered(p: Policy, files: seq<Candidate>, c: Candidate)
    requires c in Greedy(p, files)
    ensures c in files
    decreases |files|
  {
    if c !in Greedy(p, files[..|files| - 1]) {
      assert c == files[|files| - 1];
    } else {
      SelectionIsOffered(p, files[..|files| - 1], c);
    }
  }

  /** The selection stops as soon as it is full and never looks at files that are too large; it is the
      plain greedy selection from all matching files in path order. */
  method CollectTerminalFiles(p: Policy, root: seq<Entry>) returns (files: Option<seq<Candidate>>)
    requires DistinctNames(root)
    ensures files.Some? <==> !Unusable(root, 0)
    ensures files.Some? ==> files.value == Greedy(p, MatchingInOrder(p, root))
    // only files that are there, that the patterns select, and that are not the benchmark's own
    ensures files.Some? ==> forall c :: c in files.value ==>
      && HasFile(root, c.path, c.size) && p.selects(Join(c.path))
      && Join(c.path) != ".a3s" && !(".a3s/" <= Join(c.path))
  {
    var ok, found := Visit(p, root, [], []);
    if !ok {
      return None;
    }
    hide *;
    forall c | c in Greedy(p, MatchingInOrder(p, root))
      ensures HasFile(root, c.path, c.size) && p.selects(Join(c.path))
      ensures Join(c.path) != ".a3s" && !(".a3s/" <= Join(c.path))
    {
      SelectionIsOffered(p, MatchingInOrder(p, root), c);
      MatchingIsExactly(p, root, c);
    }
    Sequences.EmptyInFront(Filter(p, AllFiles(root, [])));
    PrefilterIsHarmless(p, root);
    var selected := SelectInOrder(p, SortByPath(found));
    return Some(selected);
  }

  method SelectInOrder(p: Policy, candidates: seq<Candidate>) returns (selected: seq<Candidate>)
    ensures selected == Greedy(p, candidates)
  {
    selected := [];
    var limits := new TerminalLimits(p);
    var k := 0;
    while k < |candidates|
      invariant 0 <= k <= |candidates| && fresh(limits) && limits.policy == p
      invariant selected == Greedy(p, candidates[..k])
      invariant limits.selected == |selected| && limits.total == Total(selected)
    {
      if limits.IsFull() {
        FullStaysFull(p, candidates, k);
        return;
      }
      var c := candidates[k];
      GreedyStep(p, candidates, k);
      TotalAddsLast(selected, c);
      hide Greedy, Total;
      var taken := limits.Select(c.size);
      if taken {
        selected := selected + [c];
      }
      k := k + 1;
    }
    assert candidates[..|candidates|] == candidates;
  }

  lemma GreedyStep(p: Policy, files: seq<Candidate>, k: nat)
    requires k < |files|
    ensures Greedy(p, files[..k + 1]) ==
      if Fits(p, Greedy(p, files[..k]), files[k]) then Greedy(p, files[..k]) + [files[k]]
      else Greedy(p, files[..k])
  {
    assert files[..k + 1][..k] == files[..k];
    hide Fits;
  }

  lemma TotalAddsLast(files: seq<Candidate>, c: Candidate)
    ensures Total(files + [c]) == Total(files) + c.size
  {
    assert (files + [c])[..|files|] == files;
  }

  lemma {:induction false} FullStaysFull(p: Policy, files: seq<Candidate>, k: nat)
    requires k <= |files| && |Greedy(p, files[..k])| >= p.maxFiles
    ensures Greedy(p, files) == Greedy(p, files[..k])
    decreases |files|
  {
    if k < |files| {
      assert files[..|files| - 1][..k] == files[..k];
      FullStaysFull(p, files[..|files| - 1], k);
    } else {
      assert files[..k] == files;
    }
  }

  /** Leaving out the files that are too large by themselves changes nothing. */
  lemma {:induction false} GreedyIgnoresLarge(p: Policy, files: seq<Candidate>)
    requires forall c :: c in files ==> Matches(p, Join(c.path))
    ensures Greedy(p, Filter(p, files)) == Greedy(p, files)
    decreases |files|
  {
    if files != [] {
      var front, c := files[..|files| - 1], files[|files| - 1];
      assert files == front + [c] && c in files;
      FilterLast(p, front, c);
      GreedyLast(p, front, c);
      GreedyLast(p, Filter(p, front), c);
      assert forall c :: c in front ==> c in files;
      GreedyIgnoresLarge(p, front);
      hide Filter, Greedy, Matches, Join;
    }
  }

  lemma FilterLast(p: Policy, front: seq<Candidate>, c: Candidate)
    ensures Filter(p, front + [c]) == if Wanted(p, c) then Filter(p, front) + [c] else Filter(p, front)
  {
    FilterAppends(p, front, [c]);
    assert [c][1..] == [];
    assert Filter(p, [c]) == (if Wanted(p, c) then [c] else []) + Filter(p, []);
    hide Wanted;
  }

  lemma GreedyLast(p: Policy, front: seq<Candidate>, c: Candidate)
    ensures Greedy(p, front + [c]) ==
      if Fits(p, Greedy(p, front), c) then Greedy(p, front) + [c] else Greedy(p, front)
  {
    assert (front + [c])[..|front|] == front;
    hide Fits;
  }

  lemma PrefilterIsHarmless(p: Policy, root: seq<Entry>)
    requires DistinctNames(root)
    ensures Greedy(p, SortByPath(Filter(p, AllFiles(root, [])))) == Greedy(p, MatchingInOrder(p, root))
  {
    var all := AllFiles(root, []);
    var wide := p.(maxFileBytes := U64_MAX);
    WalkIsDistinct(root, []);
    FilterIsDistinct(p, all);
    FilterIsDistinct(wide, all);
    SortSorts(Filter(p, all));
    SortSorts(Filter(wide, all));
    var matching := MatchingInOrder(p, root);
    FilterIsSorted(p, matching);
    SortedIsUnique(SortByPath(Filter(p, all)), Filter(p, matching));
    GreedyIgnoresLarge(p, matching);
  }

  lemma {:induction false} FilterIsDistinct(p: Policy, files: seq<Candidate>)
    requires DistinctPaths(files)
    ensures DistinctPaths(Filter(p, files))
  {
    if files != [] {
      assert forall i :: 0 <= i < |files[1..]| ==> files[1..][i] == files[i + 1];
      FilterIsDistinct(p, files[1..]);
      forall x | x in Filter(p, files[1..]) ensures x.path != files[0].path {
        var k :| 0 <= k < |files[1..]| && files[1..][k] == x;
      }
      DistinctTogether([files[0]], Filter(p, files[1..]));
    }
  }

  lemma {:induction false} FilterIsSorted(p: Policy, files: seq<Candidate>)
    requires SortedByPath(files)
    ensures SortedByPath(Filter(p, files))
  {
    hide PathLess;
    if files != [] {
      assert forall i :: 0 <= i < |files[1..]| ==> files[1..][i] == files[i + 1];
      FilterIsSorted(p, files[1..]);
      forall x | x in Filter(p, files[1..]) ensures PathLess(files[0].path, x.path) {
        var k :| 0 <= k < |files[1..]| && files[1..][k] == x;
      }
      SortedFrom(files[0], Filter(p, files[1..]));
    }
  }

  // ---------------------------------------------------------- the order of listing is irrelevant

  /** The same directory, possibly listed in another order, at every level. */
  predicate Relisted(a: seq<Entry>, b: seq<Entry>)
    decreases a, 1
  {
    && (forall i :: 0 <= i < |a| ==> ListedIn(a[i], b))
    && (forall j :: 0 <= j < |b| ==> HasLike(a, b[j]))
  }

  predicate HasLike(a: seq<Entry>, e': Entry)
    decreases a, 0
  {
    exists i :: 0 <= i < |a| && SameEntry(a[i], e')
  }

  predicate ListedIn(e: Entry, b: seq<Entry>)
    decreases e, 1
  {
    exists j :: 0 <= j < |b| && SameEntry(e, b[j])
  }

  predicate SameEntry(e: Entry, e': Entry)
    decreases e, 0
  {
    && e.name == e'.name
    && (if e.node.Dir? then e'.node.Dir? && Relisted(e.node.entries, e'.node.entries) else e.node == e'.node)
  }

  lemma {:induction false} RelistedHasSameFiles(a: seq<Entry>, b: seq<Entry>, path: Path, size: u64)
    requires Relisted(a, b)
    ensures HasFile(a, path, size) <==> HasFile(b, path, size)
    decreases |path|, 1
  {
    if path != [] {
      if HasFile(a, path, size) {
        var i: nat :| i < |a| && EntryHasFile(a[i], path, size);
        var j := LikeIn(a, b, i);
        SameEntryHasSameFiles(a[i], b[j], path, size);
      }
      if HasFile(b, path, size) {
        var j: nat :| j < |b| && EntryHasFile(b[j], path, size);
        var i := LikeOf(a, b, j);
        SameEntryHasSameFiles(a[i], b[j], path, size);
      }
    }
  }

  lemma {:induction false} SameEntryHasSameFiles(e: Entry, e': Entry, path: Path, size: u64)
    requires path != [] && SameEntry(e, e')
    ensures EntryHasFile(e, path, size) <==> EntryHasFile(e', path, size)
    decreases |path|, 0
  {
    hide *;
    SameEntryIs(e, e');
    EntryHasFileIs(e, path, size);
    EntryHasFileIs(e', path, size);
    if e.node.Dir? {
      RelistedHasSameFiles(e.node.entries, e'.node.entries, path[1..], size);
    }
  }

  /** Every entry of one listing has its like in the other. */
  lemma LikeIn(a: seq<Entry>, b: seq<Entry>, i: nat) returns (j: nat)
    requires Relisted(a, b) && i < |a|
    ensures j < |b| && SameEntry(a[i], b[j])
  {
    assert ListedIn(a[i], b);
    j :| j < |b| && SameEntry(a[i], b[j]);
  }

  lemma LikeOf(a: seq<Entry>, b: seq<Entry>, j: nat) returns (i: nat)
    requires Relisted(a, b) && j < |b|
    ensures i < |a| && SameEntry(a[i], b[j])
  {
    assert HasLike(a, b[j]);
    i :| i < |a| && SameEntry(a[i], b[j]);
  }

  lemma SameEntryIs(e: Entry, e': Entry)
    ensures SameEntry(e, e') <==>
      && e.name == e'.name
      && (if e.node.Dir? then e'.node.Dir? && Relisted(e.node.entries, e'.node.entries) else e.node == e'.node)
  {
  }

  lemma EntryHasFileIs(e: Entry, path: Path, size: u64)
    requires path != []
    ensures EntryHasFile(e, path, size) <==>
      && e.name == Some(path[0])
      && (if |path| == 1 then e.node == File(size) else e.node.Dir? && HasFile(e.node.entries, path[1..], size))
  {
  }

  lemma UnusableEntryIs(e: Entry, depth: nat)
    ensures UnusableEntry(e, depth) <==>
      && !e.node.Symlink?
      && (e.name.None? || (e.node.Dir? && (depth + 1 > MAX_DEPTH || Unusable(e.node.entries, depth + 1))))
  {
  }

  lemma {:induction false} RelistedIsEquallyUsable(a: seq<Entry>, b: seq<Entry>, depth: nat)
    requires Relisted(a, b)
    ensures Unusable(a, depth) <==> Unusable(b, depth)
    decreases a, 1
  {
    if Unusable(a, depth) {
      var i: nat :| i < |a| && UnusableEntry(a[i], depth);
      var j := LikeIn(a, b, i);
      SameEntryIsEquallyUsable(a[i], b[j], depth);
    }
    if Unusable(b, depth) {
      var j: nat :| j < |b| && UnusableEntry(b[j], depth);
      var i := LikeOf(a, b, j);
      SameEntryIsEquallyUsable(a[i], b[j], depth);
    }
  }

  lemma {:induction false} SameEntryIsEquallyUsable(e: Entry, e': Entry, depth: nat)
    requires SameEntry(e, e')
    ensures UnusableEntry(e, depth) <==> UnusableEntry(e', depth)
    decreases e, 0
  {
    hide *;
    SameEntryIs(e, e');
    UnusableEntryIs(e, depth);
    UnusableEntryIs(e', depth);
    if e.node.Dir? {
      RelistedIsEquallyUsable(e.node.entries, e'.node.entries, depth + 1);
    }
  }

  /** However the directories are listed, the walk fails or not, and the same files are selected. */
  lemma ListingOrderIsIrrelevant(p: Policy, a: seq<Entry>, b: seq<Entry>)
    requires DistinctNames(a) && DistinctNames(b) && Relisted(a, b)
    ensures Unusable(a, 0) <==> Unusable(b, 0)
    ensures Greedy(p, MatchingInOrder(p, a)) == Greedy(p, MatchingInOrder(p, b))
  {
    RelistedIsEquallyUsable(a, b, 0);
    WalkIsDistinct(a, []);
    WalkIsDistinct(b, []);
    hide *;
    forall c: Candidate ensures c in AllFiles(a, []) <==> c in AllFiles(b, []) {
      WalkFindsFiles(a, [], c.path, c.size);
      WalkFindsFiles(b, [], c.path, c.size);
      RelistedHasSameFiles(a, b, c.path, c.size);
      assert [] + c.path == c.path;
    }
    SameFilesSortAlike(p, AllFiles(a, []), AllFiles(b, []));
    MatchingIs(p, a);
    MatchingIs(p, b);
  }

  lemma MatchingIs(p: Policy, root: seq<Entry>)
    ensures MatchingInOrder(p, root) == SortByPath(Filter(p.(maxFileBytes := U64_MAX), AllFiles(root, [])))
  {
  }

  lemma SameFilesSortAlike(p: Policy, a: seq<Candidate>, b: seq<Candidate>)
    requires DistinctPaths(a) && DistinctPaths(b) && forall c :: c in a <==> c in b
    ensures SortByPath(Filter(p.(maxFileBytes := U64_MAX), a)) == SortByPath(Filter(p.(maxFileBytes := U64_MAX), b))
  {
    var wide := p.(maxFileBytes := U64_MAX);
    FilterIsDistinct(wide, a);
    FilterIsDistinct(wide, b);
    SortSorts(Filter(wide, a));
    SortSorts(Filter(wide, b));
    SortedIsUnique(SortByPath(Filter(wide, a)), SortByPath(Filter(wide, b)));
  }

  // ---------------------------------------------------------------- what the selection keeps

  /** Limits hold, and only offered files are taken. */
  lemma {:induction false} SelectionKeepsLimits(p: Policy, files: seq<Candidate>)
    ensures
      var selected := Greedy(p, files);
      && |selected| <= p.maxFiles && Total(selected) <= p.maxTotalBytes
      && forall c :: c in selected ==> c in files && c.size <= p.maxFileBytes
  {
    if files != [] {
      var front, c := files[..|files| - 1], files[|files| - 1];
      SelectionKeepsLimits(p, front);
      assert (Greedy(p, front) + [c])[..|Greedy(p, front)|] == Greedy(p, front);
      assert files == front + [c];
    }
  }

  lemma {:induction false} SelectionGrows(p: Policy, files: seq<Candidate>, k: nat)
    requires k <= |files|
    ensures Greedy(p, files[..k]) <= Greedy(p, files)
    ensures Total(Greedy(p, files[..k])) <= Total(Greedy(p, files))
    decreases |files|
  {
    if k < |files| {
      var front := files[..|files| - 1];
      assert front[..k] == files[..k];
      SelectionGrows(p, front, k);
      var selected, c := Greedy(p, front), files[|files| - 1];
      assert (selected + [c])[..|selected|] == selected;
    } else {
      assert files[..k] == files;
    }
  }

  /** A file of permitted size that was passed over would not fit even now, unless the count is full. */
  lemma SelectionIsMaximal(p: Policy, files: seq<Candidate>, c: Candidate)
    requires c in files && c !in Greedy(p, files) && c.size <= p.maxFileBytes
    requires |Greedy(p, files)| < p.maxFiles
    ensures Total(Greedy(p, files)) + c.size > p.maxTotalBytes
  {
    var k :| 0 <= k < |files| && files[k] == c;
    SelectionGrows(p, files, k);
    SelectionGrows(p, files, k + 1);
    TakenIfItFits(p, files, k);
    assert !Fits(p, Greedy(p, files[..k]), c);
  }

  lemma TakenIfItFits(p: Policy, files: seq<Candidate>, k: nat)
    requires k < |files|
    ensures Fits(p, Greedy(p, files[..k]), files[k]) ==> files[k] in Greedy(p, files[..k + 1])
  {
    assert files[..k + 1][..k] == files[..k];
    hide Fits;
  }

  /** Files that are within the limits together are all taken. */
  lemma {:induction false} WhatFitsIsTaken(p: Policy, files: seq<Candidate>)
    requires |files| <= p.maxFiles && Total(files) <= p.maxTotalBytes
    requires forall c :: c in files ==> c.size <= p.maxFileBytes
    ensures Greedy(p, files) == files
  {
    if files != [] {
      var front := files[..|files| - 1];
      assert forall c :: c in front ==> c in files;
      WhatFitsIsTaken(p, front);
      assert files[|files| - 1] in files && files == front + [files[|files| - 1]];
    }
  }

  lemma {:induction false} TotalAppends(a: seq<Candidate>, b: seq<Candidate>)
    ensures Total(a + b) == Total(a) + Total(b)
  {
    if b == [] {
      assert a + b == a;
    } else {
      assert (a + b)[..|a + b| - 1] == a + b[..|b| - 1];
      TotalAppends(a, b[..|b| - 1]);
    }
  }

  lemma {:induction false} SortKeepsTotal(files: seq<Candidate>)
    ensures Total(SortByPath(files)) == Total(files) && |SortByPath(files)| == |files|
  {
    if files != [] {
      SortKeepsTotal(files[1..]);
      InsertAddsSize(files[0], SortByPath(files[1..]));
      TotalAppends([files[0]], files[1..]);
      assert files == [files[0]] + files[1..];
    }
  }

  lemma {:induction false} InsertAddsSize(c: Candidate, files: seq<Candidate>)
    ensures Total(Insert(c, files)) == c.size + Total(files) && |Insert(c, files)| == |files| + 1
  {
    TotalAppends([c], files);
    if files == [] || PathLess(c.path, files[0].path) {
    } else {
      InsertAddsSize(c, files[1..]);
      TotalAppends([files[0]], Insert(c, files[1..]));
      TotalAppends([files[0]], files[1..]);
      assert files == [files[0]] + files[1..];
    }
  }

  /** What an export selected in any order of its own is submitted whole. */
  lemma ExportIsSubmittedWhole(p: Policy, offered: seq<Candidate>)
    ensures Greedy(p, SortByPath(Greedy(p, offered))) == SortByPath(Greedy(p, offered))
  {
    SelectionKeepsLimits(p, offered);
    SortKeepsTotal(Greedy(p, offered));
    WhatFitsIsTaken(p, SortByPath(Greedy(p, offered)));
  }
}
