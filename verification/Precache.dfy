/** The precache list of the service worker (shell/vite.serviceWorker.ts). */
module Precache {
  import opened Seqs

  datatype Chunk = Chunk(
    fileName: string,
    isEntry: bool,
    modules: seq<string>,
    imports: seq<string>,
    dynamicImports: seq<string>,
    css: set<string>)

  type Bundle = map<string, Chunk>

  /** A bundle is keyed by file name, so a style sheet never has the name of a chunk. */
  ghost predicate WellFormed(b: Bundle) {
    forall f :: f in b ==> b[f].fileName == f && b[f].css !! b.Keys
  }

  /** `chunks` enumerates the chunks of the bundle, in any order. */
  ghost predicate Enumerates(chunks: seq<Chunk>, b: Bundle) {
    && (forall c :: c in chunks ==> c.fileName in b && b[c.fileName] == c)
    && (forall f :: f in b ==> b[f] in chunks)
  }

  // ---- what the list should hold

  ghost predicate IsPath(b: Bundle, path: seq<string>) {
    && path != []
    && (forall i :: 0 <= i < |path| ==> path[i] in b)
    && (forall i :: 0 < i < |path| ==> path[i] in b[path[i - 1]].imports)
  }

  /** There is a path of static imports between two chunks. */
  ghost predicate Reaches(b: Bundle, from: string, to: string) {
    exists path :: IsPath(b, path) && path[0] == from && path[|path| - 1] == to
  }

  ghost predicate FromRoots(b: Bundle, roots: set<string>, f: string) {
    exists r :: r in roots && Reaches(b, r, f)
  }

  /** A chunk reachable from the roots, or the style sheet of one. */
  ghost predicate Needed(b: Bundle, roots: set<string>, f: string) {
    FromRoots(b, roots, f) || exists c :: c in b && FromRoots(b, roots, c) && f in b[c].css
  }

  ghost predicate Exactly(b: Bundle, roots: set<string>, files: set<string>) {
    forall f :: f in files <==> Needed(b, roots, f)
  }

  // ---- what `walk` keeps

  /** Everything the chunk needs at once is in the list. */
  ghost predicate Complete(b: Bundle, files: set<string>, f: string)
    requires f in b
  {
    b[f].css <= files && forall i :: i in b[f].imports && i in b ==> i in files
  }

  ghost predicate Closed(b: Bundle, files: set<string>) {
    forall f :: f in files && f in b ==> Complete(b, files, f)
  }

  /** Only chunks reachable from `root`, and style sheets of new chunks, were added. */
  ghost predicate Grounded(b: Bundle, root: string, was: set<string>, files: set<string>) {
    forall f :: f in files && f !in was ==>
      if f in b then Reaches(b, root, f) else StyleOf(b, was, files, f)
  }

  ghost predicate StyleOf(b: Bundle, was: set<string>, files: set<string>, f: string) {
    exists c :: c in b && c in files && c !in was && f in b[c].css
  }

  /** The effect of one walk: the root is listed, and what was added is complete and needed. */
  ghost predicate Walked(b: Bundle, root: string, was: set<string>, files: set<string>) {
    && was <= files
    && (root in b ==> root in files)
    && (forall f :: f in files && f !in was && f in b ==> Complete(b, files, f))
    && Grounded(b, root, was, files)
  }

  lemma ReachesSelf(b: Bundle, f: string)
    requires f in b
    ensures Reaches(b, f, f)
  {
    assert IsPath(b, [f]);
  }

  lemma ReachesVia(b: Bundle, f: string, i: string, to: string)
    requires f in b && i in b[f].imports && Reaches(b, i, to)
    ensures Reaches(b, f, to)
  {
    var path :| IsPath(b, path) && path[0] == i && path[|path| - 1] == to;
    var longer := [f] + path;
    forall k | 0 < k < |longer|
      ensures longer[k] in b[longer[k - 1]].imports
    {
      if k > 1 {
        assert longer[k] == path[k - 1] && longer[k - 1] == path[k - 2];
      }
    }
    assert IsPath(b, longer);
  }

  lemma ReachesStep(b: Bundle, from: string, f: string, i: string)
    requires Reaches(b, from, f) && f in b && i in b[f].imports && i in b
    ensures Reaches(b, from, i)
  {
    var path :| IsPath(b, path) && path[0] == from && path[|path| - 1] == f;
    assert IsPath(b, path + [i]);
  }

  /** A closed list holds the whole path once it holds its start. */
  lemma {:induction false} ClosedHoldsPath(b: Bundle, files: set<string>, path: seq<string>)
    requires Closed(b, files) && IsPath(b, path) && path[0] in files
    ensures path[|path| - 1] in files
  {
    if |path| > 1 {
      var front := path[..|path| - 1];
      assert IsPath(b, front);
      ClosedHoldsPath(b, files, front);
      assert Complete(b, files, front[|front| - 1]);
    }
  }

  lemma ClosedHoldsReachable(b: Bundle, files: set<string>, from: string, to: string)
    requires Closed(b, files) && from in files && Reaches(b, from, to)
    ensures to in files
  {
    var path :| IsPath(b, path) && path[0] == from && path[|path| - 1] == to;
    ClosedHoldsPath(b, files, path);
  }

  /** The exact list is closed under imports and style sheets. */
  lemma ExactlyIsClosed(b: Bundle, roots: set<string>, files: set<string>)
    requires WellFormed(b) && Exactly(b, roots, files)
    ensures Closed(b, files)
  {
    forall f | f in files && f in b
      ensures Complete(b, files, f)
    {
      NeededChunk(b, roots, f);
      var r :| r in roots && Reaches(b, r, f);
      forall i | i in b[f].imports && i in b
        ensures i in files
      {
        ReachesStep(b, r, f, i);
        assert FromRoots(b, roots, i);
      }
      forall s | s in b[f].css
        ensures s in files
      {
        assert Needed(b, roots, s);
      }
    }
  }

  lemma NeededChunk(b: Bundle, roots: set<string>, f: string)
    requires WellFormed(b) && f in b && Needed(b, roots, f)
    ensures FromRoots(b, roots, f)
  {
  }

  /** A closed list with all roots, in which every file is needed, is the exact list. */
  lemma ClosedIsExact(b: Bundle, roots: set<string>, files: set<string>)
    requires Closed(b, files)
    requires forall r :: r in roots && r in b ==> r in files
    requires forall f :: f in files ==> Needed(b, roots, f)
    ensures Exactly(b, roots, files)
  {
    forall f | FromRoots(b, roots, f)
      ensures f in files && f in b
    {
      var r :| r in roots && Reaches(b, r, f);
      ClosedHoldsReachable(b, files, r, f);
    }
    forall f | Needed(b, roots, f)
      ensures f in files
    {
      if !FromRoots(b, roots, f) {
        var c :| c in b && FromRoots(b, roots, c) && f in b[c].css;
        assert Complete(b, files, c);
      }
    }
  }

  lemma NeededGrows(b: Bundle, roots: set<string>, more: set<string>, f: string)
    requires roots <= more && Needed(b, roots, f)
    ensures Needed(b, more, f)
  {
    forall c | FromRoots(b, roots, c)
      ensures FromRoots(b, more, c)
    {
      var r :| r in roots && Reaches(b, r, c);
      assert r in more;
    }
  }

  /** One walk adds exactly what its root needs. */
  lemma WalkedIsExact(b: Bundle, roots: set<string>, root: string, was: set<string>, files: set<string>)
    requires WellFormed(b) && Exactly(b, roots, was) && Walked(b, root, was, files)
    ensures Exactly(b, roots + {root}, files)
  {
    var more := roots + {root};
    ExactlyIsClosed(b, roots, was);
    forall f | f in files && f in b
      ensures Complete(b, files, f)
    {
      if f in was {
        assert Complete(b, was, f);
      }
    }
    forall f | f in files
      ensures Needed(b, more, f)
    {
      if f in was {
        NeededGrows(b, roots, more, f);
      } else if f in b {
        assert root in more && Reaches(b, root, f);
      } else {
        var c :| c in b && c in files && c !in was && f in b[c].css;
        assert root in more && Reaches(b, root, c);
        assert FromRoots(b, more, c);
      }
    }
    forall r | r in more && r in b
      ensures r in files
    {
      if r in roots {
        ReachesSelf(b, r);
        assert FromRoots(b, roots, r);
      }
    }
    ClosedIsExact(b, more, files);
  }

  // ---- the roots

  const COLLECT_PAGE := "/src/pages/CollectPage.tsx"
  const OFFLINE_MODULES := ["/src/offline/outbox.ts", "/src/offline/sync.ts", "/src/offline/transport.ts"]

  function Slashes(path: string): string {
    seq(|path|, i requires 0 <= i < |path| => if path[i] == '\\' then '/' else path[i])
  }

  predicate EndsWith(path: string, suffix: string) {
    |suffix| <= |path| && path[|path| - |suffix|..] == suffix
  }

  predicate IsCollect(c: Chunk) {
    exists m :: m in c.modules && EndsWith(Slashes(m), COLLECT_PAGE)
  }

  predicate IsOffline(c: Chunk) {
    exists m :: m in c.modules && exists o :: o in OFFLINE_MODULES && EndsWith(Slashes(m), o)
  }

  /** A path with either kind of slash, written with the forward one. */
  predicate SamePath(written: string, path: string) {
    |written| == |path| &&
    forall i :: 0 <= i < |path| ==> written[i] == path[i] || (written[i] == '/' && path[i] == '\\')
  }

  /** A module whose path ends like this is one of the offline modules, whatever comes before. */
  lemma OfflineHolds(c: Chunk, m: string, before: string)
    requires m in c.modules && forall i :: 0 <= i < |m| ==> m[i] != '\\'
    ensures m == before + "/src/offline/outbox.ts" ==> IsOffline(c)
    ensures m == before + "/src/offline/sync.ts" ==> IsOffline(c)
    ensures m == before + "/src/offline/transport.ts" ==> IsOffline(c)
    ensures m == before + "/src/pages/CollectPage.tsx" ==> IsCollect(c)
  {
    assert Slashes(m) == m;
    assert OFFLINE_MODULES[0] == "/src/offline/outbox.ts" && OFFLINE_MODULES[1] == "/src/offline/sync.ts";
    assert OFFLINE_MODULES[2] == "/src/offline/transport.ts";
    EndHolds(before, "/src/offline/outbox.ts");
    EndHolds(before, "/src/offline/sync.ts");
    EndHolds(before, "/src/offline/transport.ts");
    EndHolds(before, COLLECT_PAGE);
  }

  lemma EndHolds(before: string, end: string)
    ensures EndsWith(before + end, end)
  {
  }

  /** A chunk is an offline one, or the collect page, exactly by such a module, whatever kind of slashes
      its path is written with. */
  lemma OfflineIff(c: Chunk)
    ensures IsOffline(c) <==> exists m :: m in c.modules && OfflinePath(m)
    ensures IsCollect(c) <==> HasPath(c, "/src/pages/CollectPage.tsx")
  {
    forall m: string
      ensures (exists o :: o in OFFLINE_MODULES && EndsWith(Slashes(m), o)) <==> OfflinePath(m)
      ensures EndsWith(Slashes(m), COLLECT_PAGE) <==> PathEnds(m, "/src/pages/CollectPage.tsx")
    {
      OfflinePathIff(m);
    }
  }

  lemma OfflinePathIff(m: string)
    ensures (exists o :: o in OFFLINE_MODULES && EndsWith(Slashes(m), o)) <==> OfflinePath(m)
    ensures EndsWith(Slashes(m), COLLECT_PAGE) <==> PathEnds(m, "/src/pages/CollectPage.tsx")
  {
    assert OFFLINE_MODULES[0] == "/src/offline/outbox.ts" && OFFLINE_MODULES[1] == "/src/offline/sync.ts";
    assert OFFLINE_MODULES[2] == "/src/offline/transport.ts";
    EndsIff(m, "/src/offline/outbox.ts");
    EndsIff(m, "/src/offline/sync.ts");
    EndsIff(m, "/src/offline/transport.ts");
    EndsIff(m, COLLECT_PAGE);
  }

  lemma EndsIff(path: string, end: string)
    requires forall i :: 0 <= i < |end| ==> end[i] != '\\'
    ensures EndsWith(Slashes(path), end) <==> PathEnds(path, end)
  {
    if |end| <= |path| {
      var tail := path[|path| - |end|..];
      assert Slashes(path)[|path| - |end|..] == Slashes(tail);
      if EndsWith(Slashes(path), end) {
        assert forall i :: 0 <= i < |end| ==> end[i] == Slashes(tail)[i];
      }
      if SamePath(end, tail) {
        assert forall i :: 0 <= i < |end| ==> end[i] == Slashes(tail)[i];
        assert Slashes(tail) == end;
      }
    }
  }

  predicate OfflinePath(m: string) {
    || PathEnds(m, "/src/offline/outbox.ts")
    || PathEnds(m, "/src/offline/sync.ts")
    || PathEnds(m, "/src/offline/transport.ts")
  }

  predicate HasPath(c: Chunk, end: string) {
    exists m :: m in c.modules && PathEnds(m, end)
  }

  predicate PathEnds(path: string, end: string) {
    |end| <= |path| && SamePath(end, path[|path| - |end|..])
  }

  /** The first chunk that satisfies `p`. */
  ghost predicate IsFirst(chunks: seq<Chunk>, p: Chunk -> bool, c: Chunk) {
    exists i :: 0 <= i < |chunks| && chunks[i] == c && p(c) && forall j :: 0 <= j < i ==> !p(chunks[j])
  }

  /** The entry, the collect page and the offline modules. */
  ghost predicate AreRoots(chunks: seq<Chunk>, roots: set<string>) {
    exists entry, collect ::
      && IsFirst(chunks, (c: Chunk) => c.isEntry, entry)
      && IsFirst(chunks, IsCollect, collect)
      && RootsAre(chunks, entry, collect, roots)
  }

  ghost predicate RootsAre(chunks: seq<Chunk>, entry: Chunk, collect: Chunk, roots: set<string>) {
    forall f :: f in roots <==> f == entry.fileName || f == collect.fileName || OfflineFile(chunks, f)
  }

  ghost predicate OfflineFile(chunks: seq<Chunk>, f: string) {
    exists c :: c in chunks && IsOffline(c) && c.fileName == f
  }

  // ---- the facades

  predicate IsFacade(b: Bundle, d: string) {
    d in b && b[d].modules == []
  }

  /** The names the facade pass visits, in its order. */
  function Visited(chunks: seq<Chunk>): seq<string> {
    if chunks == [] then [] else Visited(chunks[..|chunks| - 1]) + chunks[|chunks| - 1].dynamicImports
  }

  ghost predicate ImportsNeeded(b: Bundle, roots: set<string>, d: string)
    requires d in b
  {
    exists i :: i in b[d].imports && Needed(b, roots, i)
  }

  /** The roots after the pass: a visited facade joins them when one of its imports is needed by
      the roots so far. */
  ghost function Joined(b: Bundle, names: seq<string>, roots: set<string>): set<string> {
    if names == [] then roots
    else
      var before := Joined(b, names[..|names| - 1], roots);
      var d := names[|names| - 1];
      if IsFacade(b, d) && ImportsNeeded(b, before, d) then before + {d} else before
  }

  /** Only facades that reexport something of the final list join. */
  lemma {:induction false} JoinedAreFacades(b: Bundle, names: seq<string>, roots: set<string>)
    ensures roots <= Joined(b, names, roots)
    ensures forall d :: d in Joined(b, names, roots) && d !in roots ==>
      d in names && d in b && b[d].modules == [] && ImportsNeeded(b, Joined(b, names, roots), d)
  {
    if names != [] {
      var front := names[..|names| - 1];
      JoinedAreFacades(b, front, roots);
      var before, after := Joined(b, front, roots), Joined(b, names, roots);
      forall d | d in after && d !in roots
        ensures d in names && IsFacade(b, d) && ImportsNeeded(b, after, d)
      {
        var i :| i in b[d].imports && Needed(b, before, i);
        NeededGrows(b, before, after, i);
      }
    }
  }

  /** Every visited facade that reexports something the first roots need joins. */
  lemma {:induction false} EarlyFacadesJoin(b: Bundle, names: seq<string>, roots: set<string>, d: string)
    requires d in names && d in b && b[d].modules == [] && ImportsNeeded(b, roots, d)
    ensures d in Joined(b, names, roots)
  {
    var front := names[..|names| - 1];
    if d in front {
      EarlyFacadesJoin(b, front, roots, d);
    } else {
      JoinedAreFacades(b, front, roots);
      var i :| i in b[d].imports && Needed(b, roots, i);
      NeededGrows(b, roots, Joined(b, front, roots), i);
    }
  }

  /** The visited facades that reexport something of the first list. */
  ghost function First(b: Bundle, names: seq<string>, roots: set<string>): set<string> {
    set d | d in names && IsFacade(b, d) && ImportsNeeded(b, roots, d)
  }

  /** A visited facade that reexports only what those bring in, and that they do not import. */
  ghost predicate IsLate(b: Bundle, names: seq<string>, roots: set<string>, d: string) {
    var more := roots + First(b, names, roots);
    d in names && IsFacade(b, d) && ImportsNeeded(b, more, d) && !Needed(b, more, d)
  }

  /** Both sets of roots need the same files: the list is the same. */
  ghost predicate SameList(b: Bundle, roots: set<string>, others: set<string>) {
    forall f :: Needed(b, roots, f) <==> Needed(b, others, f)
  }

  /** Every order of the visits gives the same list. */
  ghost predicate AnyOrder(b: Bundle, names: seq<string>, roots: set<string>) {
    forall other :: multiset(other) == multiset(names) ==> SameList(b, Joined(b, other, roots), Joined(b, names, roots))
  }

  /** The list does not depend on the order of the pass if and only if no visited facade is late. */
  lemma AnyOrderIff(b: Bundle, names: seq<string>, roots: set<string>)
    requires WellFormed(b)
    ensures AnyOrder(b, names, roots) <==> forall d :: !IsLate(b, names, roots, d)
  {
    if forall d :: !IsLate(b, names, roots, d) {
      forall other | multiset(other) == multiset(names)
        ensures SameList(b, Joined(b, other, roots), Joined(b, names, roots))
      {
        MultisetMembership(other, names);
        NobodyLate(b, names, names, roots);
        NobodyLate(b, other, names, roots);
      }
    }
    if d :| IsLate(b, names, roots, d) {
      var joins := LateMayJoin(b, names, roots, d);
      var misses := LateMayMiss(b, names, roots);
      RootNeeded(b, Joined(b, joins, roots), d);
      assert Needed(b, Joined(b, joins, roots), d) && !Needed(b, Joined(b, misses, roots), d);
      assert !SameList(b, Joined(b, joins, roots), Joined(b, names, roots)) ||
        !SameList(b, Joined(b, misses, roots), Joined(b, names, roots));
    }
  }

  /** Without late facades the list is that of the roots and the first facades. */
  lemma NobodyLate(b: Bundle, visited: seq<string>, names: seq<string>, roots: set<string>)
    requires WellFormed(b) && forall d :: d in visited <==> d in names
    requires forall d :: !IsLate(b, names, roots, d)
    ensures SameList(b, Joined(b, visited, roots), roots + First(b, names, roots))
  {
    var more, joined := roots + First(b, names, roots), Joined(b, visited, roots);
    JoinedCovered(b, visited, names, roots);
    JoinedAreFacades(b, visited, roots);
    forall d | d in more
      ensures d in joined
    {
      if d !in roots { EarlyFacadesJoin(b, visited, roots, d); }
    }
    forall f
      ensures Needed(b, joined, f) <==> Needed(b, more, f)
    {
      if Needed(b, more, f) { NeededGrows(b, more, joined, f); }
      if Needed(b, joined, f) { CoveredNeed(b, joined, more, f); }
    }
  }

  /** Each of these roots is one of `more`, or needed by them, or no chunk. */
  ghost predicate Covered(b: Bundle, roots: set<string>, more: set<string>) {
    forall r :: r in roots ==> r in more || Needed(b, more, r)
  }

  lemma {:induction false} JoinedCovered(b: Bundle, visited: seq<string>, names: seq<string>, roots: set<string>)
    requires WellFormed(b) && forall d :: d in visited ==> d in names
    requires forall d :: !IsLate(b, names, roots, d)
    ensures Covered(b, Joined(b, visited, roots), roots + First(b, names, roots))
  {
    if visited != [] {
      var front, d, more := visited[..|visited| - 1], visited[|visited| - 1], roots + First(b, names, roots);
      JoinedCovered(b, front, names, roots);
      var before := Joined(b, front, roots);
      if IsFacade(b, d) && ImportsNeeded(b, before, d) {
        var i :| i in b[d].imports && Needed(b, before, i);
        CoveredNeed(b, before, more, i);
        assert d in names && !IsLate(b, names, roots, d);
      }
    }
  }

  lemma RootNeeded(b: Bundle, roots: set<string>, d: string)
    requires d in roots && d in b
    ensures Needed(b, roots, d)
  {
    ReachesSelf(b, d);
    assert FromRoots(b, roots, d);
  }

  /** What covered roots need is needed. */
  lemma CoveredNeed(b: Bundle, roots: set<string>, more: set<string>, f: string)
    requires WellFormed(b) && Covered(b, roots, more) && Needed(b, roots, f)
    ensures Needed(b, more, f)
  {
    var c := if FromRoots(b, roots, f) then f else (var c :| c in b && FromRoots(b, roots, c) && f in b[c].css; c);
    var r :| r in roots && Reaches(b, r, c);
    if r !in more {
      var path :| IsPath(b, path) && path[0] == r && path[|path| - 1] == c;
      assert r in b;
      NeededChunk(b, more, r);
      var q :| q in more && Reaches(b, q, r);
      ReachesAlong(b, q, path);
    }
    assert FromRoots(b, more, c);
  }

  /** What reaches the start of a path reaches its end. */
  lemma {:induction false} ReachesAlong(b: Bundle, from: string, path: seq<string>)
    requires IsPath(b, path) && Reaches(b, from, path[0])
    ensures Reaches(b, from, path[|path| - 1])
  {
    if |path| > 1 {
      var front := path[..|path| - 1];
      assert IsPath(b, front);
      ReachesAlong(b, from, front);
      ReachesStep(b, from, front[|front| - 1], path[|path| - 1]);
    }
  }

  lemma {:induction false} JoinedTwice(b: Bundle, a: seq<string>, c: seq<string>, roots: set<string>)
    ensures Joined(b, a + c, roots) == Joined(b, c, Joined(b, a, roots))
  {
    if c == [] {
      assert a + c == a;
    } else {
      assert (a + c)[..|a + c| - 1] == a + c[..|c| - 1];
      JoinedTwice(b, a, c[..|c| - 1], roots);
    }
  }

  lemma {:induction false} NoneJoins(b: Bundle, names: seq<string>, roots: set<string>)
    requires forall d :: d in names && IsFacade(b, d) ==> !ImportsNeeded(b, roots, d)
    ensures Joined(b, names, roots) == roots
  {
    if names != [] {
      NoneJoins(b, names[..|names| - 1], roots);
    }
  }

  /** Visiting the first facades first lets a late one join. */
  lemma LateMayJoin(b: Bundle, names: seq<string>, roots: set<string>, d: string) returns (other: seq<string>)
    requires IsLate(b, names, roots, d)
    ensures multiset(other) == multiset(names) && d in Joined(b, other, roots)
  {
    var first := First(b, names, roots);
    var ahead, behind := Filter(names, (x: string) => x in first), Filter(names, (x: string) => x !in first);
    if d in first { RootNeeded(b, roots + first, d); }
    other := ahead + behind;
    FilterPartition(names, (x: string) => x in first, (x: string) => x !in first);
    JoinedTwice(b, ahead, behind, roots);
    var more := Joined(b, ahead, roots);
    JoinedAreFacades(b, ahead, roots);
    forall f | f in roots + first
      ensures f in more
    {
      if f !in roots { EarlyFacadesJoin(b, ahead, roots, f); }
    }
    var i :| i in b[d].imports && Needed(b, roots + first, i);
    NeededGrows(b, roots + first, more, i);
    assert d in behind;
    EarlyFacadesJoin(b, behind, more, d);
  }

  /** Visiting all others before the first facades lets nobody else join. */
  lemma LateMayMiss(b: Bundle, names: seq<string>, roots: set<string>) returns (other: seq<string>)
    ensures multiset(other) == multiset(names) && Joined(b, other, roots) == roots + First(b, names, roots)
  {
    var first := First(b, names, roots);
    var ahead, behind := Filter(names, (x: string) => x !in first), Filter(names, (x: string) => x in first);
    other := ahead + behind;
    FilterPartition(names, (x: string) => x !in first, (x: string) => x in first);
    JoinedTwice(b, ahead, behind, roots);
    NoneJoins(b, ahead, roots);
    AllJoin(b, behind, roots, first);
  }

  lemma AllJoin(b: Bundle, names: seq<string>, roots: set<string>, first: set<string>)
    requires forall d :: d in names <==> d in first
    requires forall d :: d in first ==> IsFacade(b, d) && ImportsNeeded(b, roots, d)
    ensures Joined(b, names, roots) == roots + first
  {
    JoinedAreFacades(b, names, roots);
    forall d | d in first
      ensures d in Joined(b, names, roots)
    {
      EarlyFacadesJoin(b, names, roots, d);
    }
  }

  /** The smallest case: when facade `f` reexports only `x`, which is needed by nothing
      but facade `g`, then `f` joins only if it is visited after `g`. */
  lemma OnePassDependsOnOrder(b: Bundle, e: string, x: string, f: string, g: string)
    requires e != x && e != f && e != g && x != f && x != g && f != g
    requires b.Keys == {e, x, f, g} && WellFormed(b)
    requires b[e].imports == [] && b[e].css == {} && b[x].imports == [] && b[f].imports == [x] && b[g].imports == [e, x]
    requires b[f].modules == [] && b[g].modules == []
    ensures Joined(b, [f, g], {e}) == {e, g}
    ensures Joined(b, [g, f], {e}) == {e, g, f}
    // so the chunk of `f` is on the list or not
    ensures Needed(b, {e, g, f}, f) && !Needed(b, {e, g}, f)
  {
    RootNeeded(b, {e, g, f}, f);
    WithoutF(b, e, x, f, g);
    EntryAlone(b, e);
    assert b[g].imports[0] == e && b[g].imports[1] == x && b[f].imports[0] == x;
    assert ImportsNeeded(b, {e}, g) && !ImportsNeeded(b, {e}, f);
    ReachesSelf(b, x);
    ReachesVia(b, g, x, x);
    assert g in {e} + {g} && FromRoots(b, {e} + {g}, x);
    assert Needed(b, {e} + {g}, x) && x in b[f].imports;
    assert ImportsNeeded(b, {e} + {g}, f);
    JoinedAlone(b, {e}, f);
    JoinedAlone(b, {e}, g);
    assert [f, g][..1] == [f] && [g, f][..1] == [g];
  }

  lemma WithoutF(b: Bundle, e: string, x: string, f: string, g: string)
    requires WellFormed(b) && b.Keys == {e, x, f, g} && f != e && f != x && f != g
    requires b[e].imports == [] && b[x].imports == [] && b[g].imports == [e, x]
    ensures !Needed(b, {e, g}, f)
  {
    var files := {e, g, x} + b[e].css + b[g].css + b[x].css;
    assert f in b && f !in files;
    assert Closed(b, files);
    if Needed(b, {e, g}, f) {
      NeededChunk(b, {e, g}, f);
      var r :| r in {e, g} && Reaches(b, r, f);
      ClosedHoldsReachable(b, files, r, f);
    }
  }

  lemma EntryAlone(b: Bundle, e: string)
    requires e in b && b[e].imports == [] && b[e].css == {}
    ensures Exactly(b, {e}, {e})
  {
    ReachesSelf(b, e);
    assert FromRoots(b, {e}, e);
    ClosedIsExact(b, {e}, {e});
  }

  lemma JoinedAlone(b: Bundle, roots: set<string>, d: string)
    ensures Joined(b, [d], roots) == if IsFacade(b, d) && ImportsNeeded(b, roots, d) then roots + {d} else roots
  {
    assert [d][..0] == [];
  }

  /** Exactly what the roots and the facades that join them need. */
  ghost predicate IsList(b: Bundle, chunks: seq<Chunk>, roots: set<string>, files: set<string>) {
    Exactly(b, Joined(b, Visited(chunks), roots), files)
  }

  /** The list on the modules: a chunk with one of the offline modules is on it, with the chunks it imports
      and its style sheets; so are the first entry and a chunk with the collect page. */
  lemma OfflineIsListed(b: Bundle, chunks: seq<Chunk>, roots: set<string>, files: set<string>, c: Chunk, m: string,
                        before: string)
    requires WellFormed(b) && Enumerates(chunks, b) && AreRoots(chunks, roots) && IsList(b, chunks, roots, files)
    requires c in chunks && m in c.modules && forall i :: 0 <= i < |m| ==> m[i] != '\\'
    requires m == before + "/src/offline/outbox.ts" || m == before + "/src/offline/sync.ts" ||
      m == before + "/src/offline/transport.ts"
    ensures c.fileName in files && c.css <= files && forall i :: i in c.imports && i in b ==> i in files
    ensures exists k :: 0 <= k < |chunks| && chunks[k].fileName in files && FirstEntry(chunks, k)
    ensures exists e :: e in chunks && e.fileName in files && HasPath(e, "/src/pages/CollectPage.tsx")
  {
    OfflineHolds(c, m, before);
    var all := Joined(b, Visited(chunks), roots);
    JoinedAreFacades(b, Visited(chunks), roots);
    assert OfflineFile(chunks, c.fileName);
    RootNeeded(b, all, c.fileName);
    ExactlyIsClosed(b, all, files);
    assert Complete(b, files, c.fileName);
    var entry, collect :| IsFirst(chunks, (x: Chunk) => x.isEntry, entry) && IsFirst(chunks, IsCollect, collect) &&
      RootsAre(chunks, entry, collect, roots);
    RootNeeded(b, all, entry.fileName);
    RootNeeded(b, all, collect.fileName);
    OfflineIff(collect);
    EntryIsFirst(chunks, entry, files);
  }

  predicate FirstEntry(chunks: seq<Chunk>, k: nat)
    requires k < |chunks|
  {
    chunks[k].isEntry && forall j :: 0 <= j < k ==> !chunks[j].isEntry
  }

  lemma EntryIsFirst(chunks: seq<Chunk>, entry: Chunk, files: set<string>)
    requires IsFirst(chunks, (x: Chunk) => x.isEntry, entry) && entry.fileName in files
    ensures exists k :: 0 <= k < |chunks| && chunks[k].fileName in files && FirstEntry(chunks, k)
  {
    var p := (x: Chunk) => x.isEntry;
    var k :| 0 <= k < |chunks| && chunks[k] == entry && p(entry) && forall j :: 0 <= j < k ==> !p(chunks[j]);
    forall j | 0 <= j < k
      ensures !chunks[j].isEntry
    {
      assert !p(chunks[j]);
    }
    assert FirstEntry(chunks, k);
  }

  // ---- the plugin

  datatype Outcome = Listed(files: set<string>) | MissingRoot

  class Plugin {
    const byFile: Bundle
    var files: set<string>

    constructor (byFile: Bundle)
      ensures this.byFile == byFile && files == {}
    {
      this.byFile := byFile;
      files := {};
    }

    /** The recursive walk; it ends on cyclic imports because every call that goes on lists one
        more chunk. */
    method Walk(fileName: string)
      requires WellFormed(byFile)
      modifies this
      ensures Walked(byFile, fileName, old(files), files)
      decreases byFile.Keys - files
    {
      if fileName in files || fileName !in byFile {
        return;
      }
      var chunk := byFile[fileName];
      ghost var was := files;
      files := files + {fileName};
      ReachesSelf(byFile, fileName);
      var k := 0;
      while k < |chunk.imports|
        invariant k <= |chunk.imports|
        invariant InWalk(byFile, fileName, k, was, files)
      {
        ghost var before := files;
        Walk(chunk.imports[k]);
        InWalkStep(byFile, fileName, k, was, before, files);
        k := k + 1;
      }
      InWalkEnds(byFile, fileName, was, files);
      files := files + chunk.css;
    }

    /** `walk` from one more root. */
    method AddRoot(fileName: string, ghost roots: set<string>)
      requires WellFormed(byFile) && Exactly(byFile, roots, files)
      modifies this
      ensures Exactly(byFile, roots + {fileName}, files)
    {
      ghost var was := files;
      Walk(fileName);
      WalkedIsExact(byFile, roots, fileName, was, files);
    }

    /** The single pass over the dynamic imports. */
    method AddFacades(chunks: seq<Chunk>, ghost roots: set<string>)
      requires WellFormed(byFile) && Exactly(byFile, roots, files)
      modifies this
      ensures Exactly(byFile, Joined(byFile, Visited(chunks), roots), files)
    {
      var n := 0;
      assert chunks[..0] == [];
      ghost var names: seq<string> := [];
      while n < |chunks|
        invariant n <= |chunks| && names == Visited(chunks[..n])
        invariant Exactly(byFile, Joined(byFile, names, roots), files)
      {
        var dynamic := chunks[n].dynamicImports;
        var m := 0;
        ghost var earlier := names;
        assert earlier + dynamic[..0] == earlier;
        while m < |dynamic|
          invariant m <= |dynamic| && names == earlier + dynamic[..m]
          invariant Exactly(byFile, Joined(byFile, names, roots), files)
        {
          AddFacade(dynamic[m], names, roots);
          assert earlier + dynamic[..m + 1] == names + [dynamic[m]];
          names := names + [dynamic[m]];
          m := m + 1;
        }
        assert dynamic[..m] == dynamic;
        assert chunks[..n + 1][..n] == chunks[..n];
        n := n + 1;
      }
      assert chunks[..n] == chunks;
    }

    method AddFacade(d: string, ghost names: seq<string>, ghost roots: set<string>)
      requires WellFormed(byFile) && Exactly(byFile, Joined(byFile, names, roots), files)
      modifies this
      ensures Exactly(byFile, Joined(byFile, names + [d], roots), files)
    {
      assert (names + [d])[..|names|] == names;
      ghost var before := Joined(byFile, names, roots);
      if d in byFile && byFile[d].modules == [] && exists i :: i in byFile[d].imports && i in files {
        assert ImportsNeeded(byFile, before, d);
        AddRoot(d, before);
      } else {
        assert IsFacade(byFile, d) ==> !ImportsNeeded(byFile, before, d);
      }
    }

    /** The offline modules, wherever they were bundled. */
    method AddOffline(chunks: seq<Chunk>, ghost roots: set<string>) returns (ghost more: set<string>)
      requires WellFormed(byFile) && Exactly(byFile, roots, files)
      modifies this
      ensures Exactly(byFile, more, files)
      ensures forall f :: f in more <==> f in roots || OfflineFile(chunks, f)
    {
      more := roots;
      var n := 0;
      while n < |chunks|
        invariant n <= |chunks| && Exactly(byFile, more, files)
        invariant forall f :: f in more <==> f in roots || OfflineFile(chunks[..n], f)
      {
        if IsOffline(chunks[n]) {
          AddRoot(chunks[n].fileName, more);
          more := more + {chunks[n].fileName};
        }
        OfflineNext(chunks, n);
        n := n + 1;
      }
      assert chunks[..n] == chunks;
    }

    /** `generateBundle`: the list is exactly what the roots and the selected facades need. */
    method Generate(chunks: seq<Chunk>) returns (r: Outcome)
      requires WellFormed(byFile) && Enumerates(chunks, byFile)
      modifies this
      ensures r.MissingRoot? <==> (forall c :: c in chunks ==> !c.isEntry) || (forall c :: c in chunks ==>
        !IsCollect(c))
      ensures r.Listed? ==> exists roots :: AreRoots(chunks, roots) && IsList(byFile, chunks, roots, r.files)
    {
      files := {};
      assert Exactly(byFile, {}, files);
      var entry := Find(chunks, (c: Chunk) => c.isEntry);
      var collect := Find(chunks, IsCollect);
      if entry == |chunks| || collect == |chunks| {
        return MissingRoot;
      }
      AddRoot(chunks[entry].fileName, {});
      AddRoot(chunks[collect].fileName, {} + {chunks[entry].fileName});
      ghost var roots := AddOffline(chunks, {} + {chunks[entry].fileName} + {chunks[collect].fileName});
      assert RootsAre(chunks, chunks[entry], chunks[collect], roots);
      assert AreRoots(chunks, roots);
      AddFacades(chunks, roots);
      r := Listed(files);
    }
  }

  /** `chunks.find(p)`, as an index. */
  method Find(chunks: seq<Chunk>, p: Chunk -> bool) returns (i: nat)
    ensures i == |chunks| ==> forall c :: c in chunks ==> !p(c)
    ensures i <= |chunks|
    ensures i < |chunks| ==> p(chunks[i]) && IsFirst(chunks, p, chunks[i])
  {
    i := 0;
    while i < |chunks| && !p(chunks[i])
      invariant i <= |chunks| && forall j :: 0 <= j < i ==> !p(chunks[j])
    {
      i := i + 1;
    }
  }

  lemma OfflineNext(chunks: seq<Chunk>, n: nat)
    requires n < |chunks|
    ensures forall f :: OfflineFile(chunks[..n + 1], f) <==>
      OfflineFile(chunks[..n], f) || (IsOffline(chunks[n]) && f == chunks[n].fileName)
  {
    assert chunks[..n + 1] == chunks[..n] + [chunks[n]];
    forall f
      ensures OfflineFile(chunks[..n + 1], f) <==>
        OfflineFile(chunks[..n], f) || (IsOffline(chunks[n]) && f == chunks[n].fileName)
    {
      if IsOffline(chunks[n]) && f == chunks[n].fileName {
        assert chunks[n] in chunks[..n + 1];
      }
      if OfflineFile(chunks[..n], f) {
        var c :| c in chunks[..n] && IsOffline(c) && c.fileName == f;
        assert c in chunks[..n + 1];
      }
    }
  }

  // ---- inside one walk

  /** After `k` imports of the root: every chunk added so far is complete, save the root itself. */
  ghost predicate InWalk(b: Bundle, root: string, k: nat, was: set<string>, files: set<string>)
  {
    && root in b && k <= |b[root].imports| && root !in was
    && was + {root} <= files
    && (forall f :: f in files && f !in was && f != root && f in b ==> Complete(b, files, f))
    && (forall j :: 0 <= j < k && b[root].imports[j] in b ==> b[root].imports[j] in files)
    && Grounded(b, root, was, files)
  }

  lemma InWalkStep(b: Bundle, root: string, k: nat, was: set<string>, before: set<string>, files: set<string>)
    requires InWalk(b, root, k, was, before) && k < |b[root].imports|
    requires Walked(b, b[root].imports[k], before, files)
    ensures InWalk(b, root, k + 1, was, files)
  {
    var i := b[root].imports[k];
    forall f | f in files && f !in was && f != root && f in b
      ensures Complete(b, files, f)
    {
      if f in before {
        assert Complete(b, before, f);
      }
    }
    forall f | f in files && f !in was
      ensures if f in b then Reaches(b, root, f) else StyleOf(b, was, files, f)
    {
      if f in before {
        if f !in b {
          var c :| c in b && c in before && c !in was && f in b[c].css;
          assert c in files;
        }
      } else if f in b {
        ReachesVia(b, root, i, f);
      } else {
        assert StyleOf(b, before, files, f);
        var c :| c in b && c in files && c !in before && f in b[c].css;
        assert c !in was;
      }
    }
  }

  lemma InWalkEnds(b: Bundle, root: string, was: set<string>, files: set<string>)
    requires WellFormed(b) && root in b && InWalk(b, root, |b[root].imports|, was, files)
    ensures Walked(b, root, was, files + b[root].css)
  {
    var all := files + b[root].css;
    forall f | f in all && f !in was && f in b
      ensures Complete(b, all, f)
    {
      if f != root {
        assert Complete(b, files, f);
      }
    }
    forall f | f in all && f !in was
      ensures if f in b then Reaches(b, root, f) else StyleOf(b, was, all, f)
    {
      if f !in b {
        if f in files {
          var c :| c in b && c in files && c !in was && f in b[c].css;
          assert c in all;
        } else {
          assert root in all;
        }
      }
    }
  }
}
