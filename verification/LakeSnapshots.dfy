/** Current-state snapshots of the lake: choosing one, writing the next one, and reading
    "snapshot plus newer rows" (core/app/analytics/snapshot.py, `_dedup_cte` in
    core/app/analytics/aggregate.py). */
module LakeSnapshots {
  import opened Wrappers
  import opened Seqs
  import opened LakeRows

  /** Names under `snapshot/`: `snap-<cut>-<maxLsn>.parquet`, `rebuild-<lsn>`, anything else. */
  datatype Key = Snapshot(cut: int, maxLsn: int) | Rebuild(lsn: int) | Other(name: string)

  /** A complete Parquet file, whose footer may be readable or not right now, or a partial one. */
  datatype Object = Whole(rows: seq<Row>, readable: bool) | Partial

  type Files = map<string, set<Row>>
  type Objects = map<Key, Object>

  /** All rows of the raw `dt=*` files. */
  function Raw(files: Files): set<Row> {
    set f, r | f in files && r in files[f] :: r
  }

  /** The `_ts` threshold shared by the writer and the reader. */
  function CutSeconds(cutMs: int): real {
    cutMs as real / 1000.0
  }

  function UpTo(raw: set<Row>, cut: int): set<Row> {
    set r | r in raw && r.ts <= CutSeconds(cut)
  }

  function Above(raw: set<Row>, cut: int): set<Row> {
    set r | r in raw && r.ts > CutSeconds(cut)
  }

  // ---------------------------------------------------------------- which snapshot

  /** Some rebuild marker lies strictly above this LSN. */
  ghost predicate Barred(objects: Objects, lsn: int) {
    exists m :: Rebuild(m) in objects && m > lsn
  }

  /** What a listing must return: well-formed names not below any rebuild marker. */
  ghost predicate Listed(objects: Objects, k: Key) {
    && k in objects && k.Snapshot?
    && k.cut >= 0 && k.maxLsn >= 0
    && !Barred(objects, k.maxLsn)
  }

  predicate Readable(objects: Objects, k: Key) {
    k in objects && objects[k].Whole? && objects[k].readable
  }

  ghost predicate Usable(objects: Objects, k: Key) {
    Listed(objects, k) && Readable(objects, k)
  }

  /** A usable snapshot on its columns: well-formed names, no marker with a greater number, a complete
      file whose footer can be read. */
  lemma UsableIff(objects: Objects, k: Key)
    ensures Usable(objects, k) <==>
      k.Snapshot? && k.cut >= 0 && k.maxLsn >= 0 && (forall m :: Rebuild(m) in objects ==> m <= k.maxLsn) &&
      k in objects && objects[k].Whole? && objects[k].readable
  {
    if k.Snapshot? && !Barred(objects, k.maxLsn) {
      assert forall m :: Rebuild(m) in objects ==> m <= k.maxLsn;
    }
  }

  /** The most recent usable snapshot. */
  ghost predicate IsLatest(objects: Objects, k: Key) {
    Usable(objects, k) && forall l :: Usable(objects, l) ==> l.cut <= k.cut
  }

  ghost predicate NoneUsable(objects: Objects) {
    forall k :: k in objects ==> !Usable(objects, k)
  }

  // ---------------------------------------------------------------- one writing cycle

  ghost predicate IsMaxLsn(rows: set<Row>, m: int) {
    (exists r :: r in rows && r.lsn == m) && (forall r :: r in rows ==> r.lsn <= m)
  }

  /** A snapshot computed but not yet visible under its name. */
  datatype Fold = Fold(key: Key, rows: seq<Row>)

  function Between(raw: set<Row>, low: int, cut: int): set<Row> {
    set r | r in raw && CutSeconds(low) < r.ts <= CutSeconds(cut)
  }

  ghost predicate FoldsOnto(raw: set<Row>, objects: Objects, base: Key, cut: int, fold: Fold, deltaLsn: int) {
    && IsLatest(objects, base) && base.cut < cut
    && IsMaxLsn(Between(raw, base.cut, cut), deltaLsn)
    && fold.key == Snapshot(cut, if deltaLsn > base.maxLsn then deltaLsn else base.maxLsn)
    && IsLatestPerKey(objects[base].rows, Between(raw, base.cut, cut), fold.rows)
  }

  ghost predicate FoldsFromScratch(raw: set<Row>, objects: Objects, cut: int, fold: Fold) {
    && NoneUsable(objects)
    && fold.key.Snapshot? && fold.key.cut == cut
    && IsMaxLsn(UpTo(raw, cut), fold.key.maxLsn)
    && IsWindow(UpTo(raw, cut), fold.rows)
  }

  ghost predicate NothingToFold(raw: set<Row>, objects: Objects, cut: int) {
    || (NoneUsable(objects) && UpTo(raw, cut) == {})
    || (exists base :: IsLatest(objects, base) && (base.cut >= cut || Between(raw, base.cut, cut) == {}))
  }

  /** A cycle that computes nothing leaves no row behind: each one flushed at or before its cut, in
      milliseconds, is already at or before the cut of a usable snapshot. */
  lemma NothingIsLeft(raw: set<Row>, objects: Objects, cut: int, r: Row) returns (k: Key)
    requires Cycle(raw, objects, cut, None) && r in raw && r.ts * 1000.0 <= cut as real
    ensures Usable(objects, k) && r.ts * 1000.0 <= k.cut as real
  {
    assert r in UpTo(raw, cut);
    k :| IsLatest(objects, k) && (k.cut >= cut || Between(raw, k.cut, cut) == {});
    if k.cut < cut { assert r !in Between(raw, k.cut, cut); }
  }

  /** What a cycle with cut `cut` may compute: nothing, or previous snapshot plus delta. */
  ghost predicate Cycle(raw: set<Row>, objects: Objects, cut: int, r: Option<Fold>) {
    match r
    case None => NothingToFold(raw, objects, cut)
    case Some(fold) =>
      || FoldsFromScratch(raw, objects, cut, fold)
      || (exists base, deltaLsn :: FoldsOnto(raw, objects, base, cut, fold, deltaLsn))
  }

  /** What a failed COPY leaves under the final name: whatever was there before (the copy went
      to a temporary name, or was aborted and not cleaned), nothing, or a partial object. */
  datatype Leftover = AsBefore | Nothing | Broken

  datatype CopyOutcome = CopyOk | CopyFailed(leftover: Leftover)

  datatype WriteResult = NothingNew | Written(uri: Key) | Raised

  /** Storage after the unreadable snapshots met by the cycle were removed. */
  ghost predicate Cleaned(before: Objects, after: Objects) {
    && after.Keys <= before.Keys
    && (forall k :: k in after ==> after[k] == before[k])
    && (forall k :: k in before && k !in after ==> Listed(before, k) && !Readable(before, k))
  }

  /** Those, and all of those, that could be removed. */
  ghost predicate CleanedBy(before: Objects, after: Objects, removable: set<Key>) {
    && Cleaned(before, after)
    && forall k :: Listed(before, k) && !Readable(before, k) ==> (k in after <==> k !in removable)
  }

  class LakeStorage {
    var files: Files
    var objects: Objects

    /** Every name under `snapshot/`, in whatever order the store lists them. */
    method Glob() returns (keys: seq<Key>)
      ensures NoDup(keys)
      ensures forall k :: k in keys <==> k in objects
    {
      keys := [];
      var todo := objects.Keys;
      while todo != {}
        invariant NoDup(keys)
        invariant forall k :: k in keys <==> k in objects && k !in todo
        invariant todo <= objects.Keys
        decreases |todo|
      {
        ghost var member := PickOne(todo);
        var k: Key :| k in todo;
        keys := keys + [k];
        todo := todo - {k};
      }
    }

    method ListSnapshots() returns (r: seq<Key>)
      ensures forall k :: k in r <==> Listed(objects, k)
      ensures NoDup(r) && NewestFirst(r)
      // on the names: a snapshot is listed unless a marker has a greater number, latest cut first
      ensures forall cut, lsn :: Snapshot(cut, lsn) in r <==>
        Snapshot(cut, lsn) in objects && cut >= 0 && lsn >= 0 && forall m :: Rebuild(m) in objects ==> m <= lsn
      ensures forall i, j :: 0 <= i < j < |r| ==> r[i].Snapshot? && r[j].Snapshot? && r[i].cut >= r[j].cut
    {
      var names := Glob();
      var found: seq<Key> := [];
      var floor := 0;
      for i := 0 to |names|
        invariant forall k :: k in found <==> k in names[..i] && WellNamed(k)
        invariant NoDup(found) && floor >= 0
        invariant forall m :: Rebuild(m) in names[..i] ==> m <= floor
        invariant floor > 0 ==> Rebuild(floor) in names[..i]
      {
        if WellNamed(names[i]) {
          NotBefore(names, i);
          found := found + [names[i]];
        } else if names[i].Rebuild? && names[i].lsn >= 0 {
          floor := if names[i].lsn > floor then names[i].lsn else floor;
        }
      }
      assert names[..|names|] == names;
      var kept := Filter(found, (k: Key) => k.Snapshot? && k.maxLsn >= floor);
      FilterNoDup(found, (k: Key) => k.Snapshot? && k.maxLsn >= floor);
      r := NewestCutFirst(kept);
      forall k
        ensures k in r <==> Listed(objects, k)
      {
        if k in objects && WellNamed(k) {
          assert Barred(objects, k.maxLsn) ==> k.maxLsn < floor;
          if k.maxLsn < floor { assert Rebuild(floor) in objects; }
        }
      }
    }

    /** The most recent readable snapshot; none when the listing itself fails. */
    method LatestSnapshot(listingWorks: bool) returns (r: Option<Key>)
      ensures !listingWorks ==> r.None?
      ensures r.Some? ==> IsLatest(objects, r.value)
      ensures listingWorks && r.None? ==> NoneUsable(objects)
    {
      if !listingWorks {
        return None;
      }
      var snaps := ListSnapshots();
      for i := 0 to |snaps|
        invariant forall j :: 0 <= j < i ==> !Readable(objects, snaps[j])
      {
        if Readable(objects, snaps[i]) {
          assert snaps[i] in snaps;
          forall l | Usable(objects, l)
            ensures l.cut <= snaps[i].cut
          {
            assert l in snaps;
          }
          return Some(snaps[i]);
        }
      }
      assert forall k :: k in objects && Usable(objects, k) ==> k in snaps;
      return None;
    }

    /** Largest LSN of the delta, None when there is no row. */
    method MaxLsn(rows: set<Row>) returns (m: Option<int>)
      ensures m.None? <==> rows == {}
      ensures m.Some? ==> IsMaxLsn(rows, m.value)
    {
      m := None;
      var todo := rows;
      ghost var done: set<Row> := {};
      while todo != {}
        invariant rows == done + todo
        invariant m.None? <==> done == {}
        invariant m.Some? ==> IsMaxLsn(done, m.value)
        decreases |todo|
      {
        ghost var member := PickOne(todo);
        var r: Row :| r in todo;
        if m.None? || r.lsn > m.value {
          m := Some(r.lsn);
        }
        todo, done := todo - {r}, done + {r};
      }
    }

    /** The readable snapshots of the listing; the unreadable ones are removed where that works. */
    method ReadableSnapshots(removable: set<Key>) returns (prev: seq<Key>)
      modifies this`objects
      ensures CleanedBy(old(objects), objects, removable)
      ensures forall k :: Usable(objects, k) <==> Usable(old(objects), k)
      ensures forall k :: k in prev <==> Usable(objects, k)
      ensures prev == [] ==> NoneUsable(objects)
      ensures prev != [] ==> IsLatest(objects, prev[0])
    {
      var snaps := ListSnapshots();
      prev := [];
      var keep := objects;
      for i := 0 to |snaps|
        invariant objects == old(objects)
        invariant forall k :: k in prev <==> k in snaps[..i] && Readable(objects, k)
        invariant prev == [] ==> forall j :: 0 <= j < i ==> !Readable(objects, snaps[j])
        invariant prev != [] ==> prev[0].Snapshot? && prev[0] in snaps[..i]
        invariant prev != [] ==> forall j :: 0 <= j < |snaps| && Readable(objects, snaps[j]) ==>
          snaps[j].Snapshot? && snaps[j].cut <= prev[0].cut
        invariant keep.Keys <= objects.Keys && forall k :: k in keep ==> keep[k] == objects[k]
        invariant forall k :: k in objects && k !in keep ==> k in snaps[..i] && !Readable(objects, k)
        invariant forall k :: k in snaps[..i] && !Readable(objects, k) ==> (k in keep <==> k !in removable)
      {
        assert snaps[i] in snaps;
        if Readable(objects, snaps[i]) {
          if prev == [] { FirstReadableIsLatest(objects, snaps, i); }
          prev := prev + [snaps[i]];
        } else if snaps[i] in removable {
          keep := keep - {snaps[i]};
        }
      }
      assert snaps[..|snaps|] == snaps;
      ReadableAreUsable(objects, keep, snaps, prev, removable);
      objects := keep;
    }

    /** Previous snapshot plus the rows between its cut and the new one, reduced. */
    method ComputeFold(prev: seq<Key>, cut: int) returns (fold: Option<Fold>)
      requires prev == [] ==> NoneUsable(objects)
      requires prev != [] ==> IsLatest(objects, prev[0])
      ensures Cycle(Raw(files), objects, cut, fold)
      ensures fold.Some? ==> fold.value.key.Snapshot? && fold.value.key.cut == cut
    {
      var raw := Raw(files);
      if prev == [] {
        var lsn := MaxLsn(UpTo(raw, cut));
        if lsn.None? {
          return None;
        }
        var rows := Window(UpTo(raw, cut));
        fold := Some(Fold(Snapshot(cut, lsn.value), rows));
        assert FoldsFromScratch(raw, objects, cut, fold.value);
      } else {
        var base := prev[0];
        if base.cut >= cut {
          return None;
        }
        var lsn := MaxLsn(Between(raw, base.cut, cut));
        if lsn.None? {
          return None;
        }
        var rows := LatestPerKey(objects[base].rows, Between(raw, base.cut, cut));
        fold := Some(Fold(Snapshot(cut, if lsn.value > base.maxLsn then lsn.value else base.maxLsn), rows));
        assert FoldsOnto(raw, objects, base, cut, fold.value, lsn.value);
      }
    }

    /** COPY under the final name (through a temporary name on a local disk). */
    method Store(fold: Fold, copy: CopyOutcome)
      modifies this`objects
      ensures objects == Published(old(objects), fold, copy)
      // all of the fold becomes readable, or nothing does
      ensures copy.CopyOk? ==> Readable(objects, fold.key) && objects[fold.key].rows == fold.rows
      ensures copy.CopyFailed? ==> forall k :: Readable(objects, k) ==>
        k in old(objects) && objects[k] == old(objects)[k]
      ensures forall k :: k != fold.key ==> (k in objects <==> k in old(objects)) && (k in objects ==>
        objects[k] == old(objects)[k])
    {
      match copy
      case CopyOk =>
        objects := objects[fold.key := Whole(fold.rows, true)];
      case CopyFailed(AsBefore) =>
      case CopyFailed(Nothing) =>
        objects := objects - {fold.key};
      case CopyFailed(Broken) =>
        objects := objects[fold.key := Partial];
    }

    /** One cycle. `fold` is what it computed and `kept` the storage after removing unreadable
        snapshots; what becomes visible is `Published`. */
    method WriteSnapshot(nowMs: int, graceS: int, removable: set<Key>, copy: CopyOutcome)
      returns (r: WriteResult, ghost fold: Option<Fold>, ghost kept: Objects)
      modifies this`objects
      ensures CleanedBy(old(objects), kept, removable)
      ensures Cycle(Raw(files), old(objects), nowMs - graceS * 1000, fold)
      ensures fold.None? ==> r.NothingNew? && objects == kept
      ensures fold.Some? ==> objects == Published(kept, fold.value, copy)
      ensures fold.Some? ==> r == if copy.CopyOk? then Written(fold.value.key) else Raised
      ensures fold.Some? ==> fold.value.key.Snapshot? && fold.value.key.cut == nowMs - graceS * 1000
    {
      var cut := nowMs - graceS * 1000;
      ghost var before := objects;
      var prev := ReadableSnapshots(removable);
      kept := objects;
      var f := ComputeFold(prev, cut);
      fold := f;
      SameCycle(Raw(files), before, kept, cut, fold);
      if f.None? {
        r := NothingNew;
      } else {
        Store(f.value, copy);
        r := if copy.CopyOk? then Written(f.value.key) else Raised;
      }
    }

    /** The reader: nothing without a raw file, which every caller looks for first; else the newest
        usable snapshot plus the rows above its cut, or the raw rows. */
    method ReadCurrent(listingWorks: bool) returns (choice: Option<Key>, out: seq<Row>)
      ensures files == map[] ==> choice.None?
      ensures choice.Some? ==> IsLatest(objects, choice.value)
      ensures choice.None? ==> files == map[] || !listingWorks || NoneUsable(objects)
      ensures Served(files, objects, choice, out)
    {
      if files == map[] {
        return None, [];
      }
      choice := LatestSnapshot(listingWorks);
      if choice.Some? {
        out := LatestPerKey(objects[choice.value].rows, Above(Raw(files), choice.value.cut));
      } else {
        out := Window(Raw(files));
      }
    }
  }

  /** Storage after the copy of a fold ended. */
  function Published(kept: Objects, fold: Fold, copy: CopyOutcome): Objects {
    match copy
    case CopyOk => kept[fold.key := Whole(fold.rows, true)]
    case CopyFailed(AsBefore) => kept
    case CopyFailed(Nothing) => kept - {fold.key}
    case CopyFailed(Broken) => kept[fold.key := Partial]
  }

  /** What `_dedup_cte` computes as `current` when it uses this snapshot, or none. */
  ghost predicate ReaderView(raw: set<Row>, objects: Objects, choice: Option<Key>, out: seq<Row>) {
    match choice
    case None => IsWindow(raw, out)
    case Some(k) =>
      && k in objects && objects[k].Whole? && k.Snapshot?
      && IsLatestPerKey(objects[k].rows, Above(raw, k.cut), out)
  }

  /** What a reader is served, through this snapshot or none. */
  ghost predicate Served(files: Files, objects: Objects, choice: Option<Key>, out: seq<Row>) {
    if files == map[] then choice.None? && out == []
    else ReaderView(Raw(files), objects, choice, out)
  }

  /** Snapshots by decreasing cut. */
  ghost predicate NewestFirst(s: seq<Key>) {
    && (forall k :: k in s ==> k.Snapshot?)
    && (forall i, j :: 0 <= i < j < |s| ==> s[i].cut >= s[j].cut)
  }

  predicate WellNamed(k: Key) {
    k.Snapshot? && k.cut >= 0 && k.maxLsn >= 0
  }

  function NewestCutFirst(s: seq<Key>): (r: seq<Key>)
    requires NoDup(s) && forall k :: k in s ==> k.Snapshot?
    ensures forall k :: k in r <==> k in s
    ensures NoDup(r) && NewestFirst(r)
  {
    var key := (k: Key) => if k.Snapshot? then -k.cut else 0;
    var r := SortBy(s, key);
    PermutedNoDup(s, r);
    assert forall k :: k in r ==> k.Snapshot?;
    assert forall i, j :: 0 <= i < j < |r| ==> key(r[i]) <= key(r[j]);
    r
  }

  lemma PermutedNoDup<T(!new)>(a: seq<T>, b: seq<T>)
    requires NoDup(a) && multiset(a) == multiset(b)
    ensures NoDup(b)
  {
    forall i, j | 0 <= i < j < |b|
      ensures b[i] != b[j]
    {
      if b[i] == b[j] {
        TwiceIn(b, i, j);
        NoDupCount(a, b[i]);
      }
    }
  }

  lemma NotBefore(names: seq<Key>, i: nat)
    requires NoDup(names) && i < |names|
    ensures names[i] !in names[..i]
  {
  }

  lemma {:induction false} FilterNoDup(s: seq<Key>, p: Key -> bool)
    requires NoDup(s)
    ensures NoDup(Filter(s, p))
  {
    var id := (k: Key) => k;
    FilterDistinct(s, p, id);
    var f := Filter(s, p);
    assert forall i, j :: 0 <= i < j < |f| ==> id(f[i]) != id(f[j]);
  }

  /** Removing unreadable snapshots changes neither the markers nor what can be used. */
  lemma DroppingKeepsUsable(before: Objects, after: Objects)
    requires Cleaned(before, after)
    ensures forall k :: Usable(after, k) <==> Usable(before, k)
    ensures forall k :: Listed(after, k) ==> Listed(before, k)
  {
    forall lsn
      ensures Barred(after, lsn) <==> Barred(before, lsn)
    {
      if Barred(before, lsn) {
        var m :| Rebuild(m) in before && m > lsn;
        assert Rebuild(m) in after;
      }
    }
  }

  lemma FirstReadableIsLatest(objects: Objects, snaps: seq<Key>, i: nat)
    requires i < |snaps| && NewestFirst(snaps)
    requires forall j :: 0 <= j < i ==> !Readable(objects, snaps[j])
    ensures snaps[i] in snaps
    ensures forall j :: 0 <= j < |snaps| && Readable(objects, snaps[j]) ==>
      snaps[j] in snaps && snaps[j].cut <= snaps[i].cut
  {
  }

  /** The readable ones of the listing, the latest first, are the usable snapshots, before and after the
      others are removed. */
  lemma ReadableAreUsable(before: Objects, after: Objects, snaps: seq<Key>, prev: seq<Key>, removable: set<Key>)
    requires forall k :: k in snaps <==> Listed(before, k)
    requires forall k :: k in prev <==> k in snaps && Readable(before, k)
    requires prev != [] ==> forall k :: k in snaps && Readable(before, k) ==> k.Snapshot? && prev[0].Snapshot?
    requires prev != [] ==> forall k :: k in snaps && Readable(before, k) ==> k.cut <= prev[0].cut
    requires after.Keys <= before.Keys && forall k :: k in after ==> after[k] == before[k]
    requires forall k :: k in before && k !in after ==> k in snaps && !Readable(before, k)
    requires forall k :: k in snaps && !Readable(before, k) ==> (k in after <==> k !in removable)
    ensures CleanedBy(before, after, removable)
    ensures forall k :: Usable(after, k) <==> Usable(before, k)
    ensures forall k :: k in prev <==> Usable(after, k)
    ensures prev == [] ==> NoneUsable(after)
    ensures prev != [] ==> IsLatest(after, prev[0])
  {
    DroppingKeepsUsable(before, after);
    if prev != [] { assert prev[0] in prev; }
  }

  /** A cycle computes the same from the cleaned storage. */
  lemma SameCycle(raw: set<Row>, before: Objects, after: Objects, cut: int, fold: Option<Fold>)
    requires Cleaned(before, after) && Cycle(raw, after, cut, fold)
    ensures Cycle(raw, before, cut, fold)
  {
    DroppingKeepsUsable(before, after);
    assert NoneUsable(after) ==> NoneUsable(before);
    match fold
    case None =>
      if !(NoneUsable(after) && UpTo(raw, cut) == {}) {
        var base :| IsLatest(after, base) && (base.cut >= cut || Between(raw, base.cut, cut) == {});
        LatestEverywhere(before, after, base);
      }
    case Some(f) =>
      if FoldsFromScratch(raw, after, cut, f) {
        assert FoldsFromScratch(raw, before, cut, f);
      } else {
        var base, lsn :| FoldsOnto(raw, after, base, cut, f, lsn);
        LatestEverywhere(before, after, base);
        assert FoldsOnto(raw, before, base, cut, f, lsn);
      }
  }

  lemma LatestEverywhere(before: Objects, after: Objects, k: Key)
    requires Cleaned(before, after) && IsLatest(after, k)
    ensures IsLatest(before, k) && before[k] == after[k]
  {
    DroppingKeepsUsable(before, after);
  }
}
