/** Whole runs of the lake: raw files arriving, compaction, snapshot cycles whose publication
    may be delayed, purges with a rebuild marker, and snapshots that become unreadable or are
    deleted. Every reading then gives the newest version per key over all raw rows. */
module LakeRuns {
  import opened Wrappers
  import opened LakeRows
  import opened LakeSnapshots

  /** `cycle` is a fold computed but not yet published (the cycles are serialised by a lock),
      `purging` the LSN of the marker to come while the lake is being emptied, and `wal` a
      position of the write-ahead log no row has passed. */
  datatype Lake = Lake(files: Files, objects: Objects, cycle: Option<Fold>, purging: Option<int>, wal: int)

  ghost predicate Init(s: Lake) {
    s.files == map[] && s.objects == map[] && s.cycle.None? && s.purging.None?
  }

  /** The snapshot describes exactly the rows up to its cut: newest versions, tombstones kept,
      one row per key, and the largest LSN folded in. */
  ghost predicate Faithful(raw: set<Row>, key: Key, rows: seq<Row>) {
    && key.Snapshot?
    && IsWindow(UpTo(raw, key.cut), rows)
    && IsMaxLsn(UpTo(raw, key.cut), key.maxLsn)
  }

  /** A rebuild marker, present or about to be placed, lies above this LSN. */
  ghost predicate Superseded(s: Lake, lsn: int) {
    Barred(s.objects, lsn) || (s.purging.Some? && s.purging.value > lsn)
  }

  /** A snapshot that is, or may become, listed. */
  ghost predicate Current(s: Lake, key: Key) {
    && key.Snapshot? && !Superseded(s, key.maxLsn)
    && (key in s.objects || (s.cycle.Some? && s.cycle.value.key == key))
  }

  // ---------------------------------------------------------------- steps

  /** A new raw file. Its rows may have low LSNs (a late backfill) but respect the grace
      margin: none has a flush time at or below the cut of a current snapshot. */
  ghost predicate Append(s: Lake, s': Lake, name: string, rows: set<Row>) {
    && s.purging.None? && name !in s.files
    && (forall key, r :: Current(s, key) && r in rows ==> r.ts > CutSeconds(key.cut))
    && s.wal <= s'.wal && (forall r :: r in rows ==> r.lsn <= s'.wal)
    && s' == s.(files := s.files[name := rows], wal := s'.wal)
  }

  /** Compaction rewrites files without changing the set of rows. */
  ghost predicate Compact(s: Lake, s': Lake) {
    Raw(s'.files) == Raw(s.files) && (s.files == map[] ==> s'.files == map[]) && s' == s.(files := s'.files)
  }

  ghost predicate StartCycle(s: Lake, s': Lake, cut: int) {
    && s.cycle.None?
    && Cycle(Raw(s.files), s.objects, cut, s'.cycle)
    && Cleaned(s.objects, s'.objects)
    && s' == s.(cycle := s'.cycle, objects := s'.objects)
  }

  ghost predicate EndCycle(s: Lake, s': Lake, copy: CopyOutcome) {
    && s.cycle.Some?
    && s' == s.(cycle := None, objects := Published(s.objects, s.cycle.value, copy))
  }

  ghost predicate Ended(s: Lake, s': Lake) {
    exists copy :: EndCycle(s, s', copy)
  }

  /** Slot lost: the lake is to be emptied. The marker's LSN, read before, is above every row so
      far. After a crash the purge starts again, with a marker no lower. */
  ghost predicate StartPurge(s: Lake, s': Lake, marker: int) {
    && (if s.purging.None? then marker > s.wal else marker >= s.purging.value)
    && s' == s.(purging := Some(marker), wal := marker)
  }

  /** A page of the purge: some files, snapshots and markers are deleted. */
  ghost predicate PurgePage(s: Lake, s': Lake) {
    s.purging.Some? && s' == s.(files := s'.files, objects := s'.objects) && Shrunk(s, s')
  }

  /** What is left is as it was. */
  ghost predicate Shrunk(s: Lake, s': Lake) {
    && s'.files.Keys <= s.files.Keys && (forall f :: f in s'.files ==> s'.files[f] == s.files[f])
    && s'.objects.Keys <= s.objects.Keys && (forall k :: k in s'.objects ==> s'.objects[k] == s.objects[k])
  }

  /** Once no raw file is left, the marker is placed; a cycle may have published meanwhile. */
  ghost predicate PlaceMarker(s: Lake, s': Lake) {
    && s.purging.Some? && s.files == map[]
    && s' == s.(objects := s.objects[Rebuild(s.purging.value) := Partial], purging := None)
  }

  /** The collection is deleted and its lake emptied, without a marker, while no cycle is in flight. It
      may be registered again under the same name. */
  ghost predicate Unregister(s: Lake, s': Lake) {
    s.cycle.None? && s.purging.None? && DeleteCollection(s, s')
  }

  ghost predicate DeleteCollection(s: Lake, s': Lake) {
    s' == s.(files := map[], objects := map[])
  }

  /** Old or unreadable snapshots are deleted, footers become (un)readable, files get damaged. */
  ghost predicate Disturb(s: Lake, s': Lake) {
    && s'.objects.Keys <= s.objects.Keys
    && (forall k :: k in s.objects && !k.Snapshot? ==> k in s'.objects)
    && (forall k :: k in s'.objects && s'.objects[k].Whole? ==>
          s.objects[k].Whole? && s'.objects[k].rows == s.objects[k].rows)
    && s' == s.(objects := s'.objects)
  }

  ghost predicate Next(s: Lake, s': Lake) {
    || (exists name, rows :: Append(s, s', name, rows))
    || Compact(s, s')
    || (exists cut :: StartCycle(s, s', cut))
    || Ended(s, s')
    || (exists marker :: StartPurge(s, s', marker))
    || PurgePage(s, s')
    || PlaceMarker(s, s')
    || Unregister(s, s')
    || Disturb(s, s')
  }

  ghost predicate IsRun(run: seq<Lake>) {
    && run != [] && Init(run[0])
    && forall i :: 0 <= i < |run| - 1 ==> Next(run[i], run[i + 1])
  }

  // ---------------------------------------------------------------- the invariant

  ghost predicate SnapshotOk(s: Lake, key: Key, rows: seq<Row>)
    requires key.Snapshot?
  {
    Superseded(s, key.maxLsn) || Faithful(Raw(s.files), key, rows)
  }

  /** Within the log, and below the marker of a purge under way. */
  predicate Under(s: Lake, lsn: int) {
    if s.purging.Some? then lsn < s.purging.value else lsn <= s.wal
  }

  ghost predicate Inv(s: Lake) {
    && (forall r :: r in Raw(s.files) ==> Under(s, r.lsn))
    && (s.purging.Some? ==> s.wal == s.purging.value)
    && (forall m :: Rebuild(m) in s.objects ==> m <= s.wal)
    && (forall k :: k in s.objects && k.Snapshot? ==> Under(s, k.maxLsn))
    && (forall k :: k in s.objects && k.Snapshot? && s.objects[k].Whole? ==> SnapshotOk(s, k, s.objects[k].rows))
    && (forall k :: k in s.objects && s.objects[k].Whole? ==> OnePerKey(s.objects[k].rows))
    && (s.cycle.Some? ==> CycleOk(s, s.cycle.value))
  }

  ghost predicate CycleOk(s: Lake, fold: Fold) {
    && fold.key.Snapshot? && Under(s, fold.key.maxLsn)
    && SnapshotOk(s, fold.key, fold.rows) && OnePerKey(fold.rows)
  }

  lemma RawEmpty()
    ensures Raw(map[]) == {}
  {
  }

  lemma RawAdded(files: Files, name: string, rows: set<Row>)
    requires name !in files
    ensures Raw(files[name := rows]) == Raw(files) + rows
  {
    var files' := files[name := rows];
    forall r
      ensures r in Raw(files') <==> r in Raw(files) + rows
    {
      if r in Raw(files) {
        var f :| f in files && r in files[f];
        assert f in files' && r in files'[f];
      }
      if r in rows { assert name in files' && r in files'[name]; }
    }
  }

  /** Rows above a cut do not change what the cut selects. */
  lemma FaithfulAfterAppend(raw: set<Row>, rows: set<Row>, key: Key, snap: seq<Row>)
    requires Faithful(raw, key, snap)
    requires forall r :: r in rows ==> r.ts > CutSeconds(key.cut)
    ensures Faithful(raw + rows, key, snap)
  {
    assert UpTo(raw + rows, key.cut) == UpTo(raw, key.cut);
  }

  lemma AppendKeeps(s: Lake, s': Lake, name: string, rows: set<Row>)
    requires Inv(s) && Append(s, s', name, rows)
    ensures Inv(s')
  {
    RawAdded(s.files, name, rows);
    forall k: Key, snap: seq<Row> | k.Snapshot? && SnapshotOk(s, k, snap) &&
      (k in s.objects || (s.cycle.Some? && s.cycle.value.key == k))
      ensures SnapshotOk(s', k, snap)
    {
      assert Superseded(s', k.maxLsn) <==> Superseded(s, k.maxLsn);
      if !Superseded(s, k.maxLsn) {
        assert Current(s, k);
        FaithfulAfterAppend(Raw(s.files), rows, k, snap);
      }
    }
  }

  lemma SupersededStays(s: Lake, s': Lake, lsn: int)
    requires Disturb(s, s') || Ended(s, s')
    requires s.cycle.Some? ==> s.cycle.value.key.Snapshot?
    ensures Superseded(s', lsn) <==> Superseded(s, lsn)
  {
    if Barred(s.objects, lsn) {
      var m :| Rebuild(m) in s.objects && m > lsn;
      assert Rebuild(m) in s'.objects;
    }
  }

  lemma CompactKeeps(s: Lake, s': Lake)
    requires Inv(s) && Compact(s, s')
    ensures Inv(s')
  {
    forall lsn
      ensures Superseded(s', lsn) <==> Superseded(s, lsn)
    {
    }
  }

  lemma DisturbKeeps(s: Lake, s': Lake)
    requires Inv(s) && Disturb(s, s')
    ensures Inv(s')
  {
    forall k: Key, rows: seq<Row> | k.Snapshot? && SnapshotOk(s, k, rows)
      ensures SnapshotOk(s', k, rows)
    {
      SupersededStays(s, s', k.maxLsn);
    }
  }

  lemma EndCycleKeeps(s: Lake, s': Lake, copy: CopyOutcome)
    requires Inv(s) && EndCycle(s, s', copy)
    ensures Inv(s')
  {
    var fold := s.cycle.value;
    forall k: Key, rows: seq<Row> | k.Snapshot? && SnapshotOk(s, k, rows)
      ensures SnapshotOk(s', k, rows)
    {
      SupersededStays(s, s', k.maxLsn);
    }
    assert CycleOk(s, fold);
  }

  lemma StartPurgeKeeps(s: Lake, s': Lake, marker: int)
    requires Inv(s) && StartPurge(s, s', marker)
    ensures Inv(s')
  {
    assert forall lsn :: Under(s, lsn) ==> Under(s', lsn) && Superseded(s', lsn);
    if s.cycle.Some? { assert CycleOk(s, s.cycle.value); }
  }

  lemma PurgePageKeeps(s: Lake, s': Lake)
    requires Inv(s) && PurgePage(s, s')
    ensures Inv(s')
  {
    assert forall lsn :: Under(s, lsn) ==> Under(s', lsn) && Superseded(s', lsn);
    RawShrinks(s, s');
    if s.cycle.Some? { assert CycleOk(s, s.cycle.value); }
  }

  lemma RawShrinks(s: Lake, s': Lake)
    requires Shrunk(s, s')
    ensures Raw(s'.files) <= Raw(s.files)
  {
    forall r | r in Raw(s'.files)
      ensures r in Raw(s.files)
    {
      var f :| f in s'.files && r in s'.files[f];
      assert f in s.files && r in s.files[f];
    }
  }

  lemma PlaceMarkerKeeps(s: Lake, s': Lake)
    requires Inv(s) && PlaceMarker(s, s')
    ensures Inv(s')
  {
    forall lsn
      ensures Superseded(s', lsn) <==> Superseded(s, lsn)
    {
      assert Rebuild(s.purging.value) in s'.objects;
      if Barred(s.objects, lsn) {
        var m :| Rebuild(m) in s.objects && m > lsn;
        assert Rebuild(m) in s'.objects;
      }
    }
    assert forall k: Key, rows: seq<Row> :: k.Snapshot? && SnapshotOk(s, k, rows) ==> SnapshotOk(s', k, rows);
  }

  /** Emptying the lake without a marker keeps the invariant if and only if no cycle is in flight. */
  lemma DeleteCollectionKeepsIff(s: Lake, s': Lake)
    requires Inv(s) && s.purging.None? && DeleteCollection(s, s')
    ensures Inv(s') <==> s.cycle.None?
  {
    RawEmpty();
    if s.cycle.Some? {
      var fold := s.cycle.value;
      assert CycleOk(s, fold);
      NothingIsFaithful(fold.key, fold.rows);
      assert !SnapshotOk(s', fold.key, fold.rows);
    }
  }

  lemma NothingIsFaithful(k: Key, rows: seq<Row>)
    ensures !Faithful({}, k, rows)
  {
    if k.Snapshot? { assert UpTo({}, k.cut) == {}; }
  }

  lemma CutsOrdered(a: int, b: int)
    requires a <= b
    ensures CutSeconds(a) <= CutSeconds(b)
  {
  }

  /** One cycle on top of a faithful snapshot is faithful: the incremental fold is the full one. */
  lemma FoldIsFaithful(raw: set<Row>, objects: Objects, base: Key, cut: int, fold: Fold, deltaLsn: int)
    requires FoldsOnto(raw, objects, base, cut, fold, deltaLsn)
    requires Faithful(raw, base, objects[base].rows)
    ensures Faithful(raw, fold.key, fold.rows)
  {
    var low, delta := UpTo(raw, base.cut), Between(raw, base.cut, cut);
    CutsOrdered(base.cut, cut);
    assert UpTo(raw, cut) == low + delta;
    LatestPerKeyIsWindow(objects[base].rows, delta, fold.rows);
    WindowOfWindow(low, delta, objects[base].rows, fold.rows);
    MaxOfUnion(low, delta, base.maxLsn, deltaLsn);
  }

  lemma MaxOfUnion(a: set<Row>, b: set<Row>, m: int, n: int)
    requires IsMaxLsn(a, m) && IsMaxLsn(b, n)
    ensures IsMaxLsn(a + b, if n > m then n else m)
  {
    var r :| r in a && r.lsn == m;
    var q :| q in b && q.lsn == n;
    assert r in a + b && q in a + b;
  }

  lemma StartCycleKeeps(s: Lake, s': Lake, cut: int)
    requires Inv(s) && StartCycle(s, s', cut)
    ensures Inv(s')
  {
    var raw := Raw(s.files);
    DroppingKeepsMarkers(s, s');
    forall k: Key, rows: seq<Row> | k.Snapshot? && SnapshotOk(s, k, rows)
      ensures SnapshotOk(s', k, rows)
    {
      assert Superseded(s', k.maxLsn) <==> Superseded(s, k.maxLsn);
    }
    if s'.cycle.Some? {
      StartedCycleOk(s, cut, s'.cycle.value);
      assert SnapshotOk(s', s'.cycle.value.key, s'.cycle.value.rows);
    }
  }

  lemma DroppingKeepsMarkers(s: Lake, s': Lake)
    requires Cleaned(s.objects, s'.objects) && s'.purging == s.purging
    ensures forall lsn :: Superseded(s', lsn) <==> Superseded(s, lsn)
  {
    forall lsn
      ensures Barred(s'.objects, lsn) <==> Barred(s.objects, lsn)
    {
      if Barred(s.objects, lsn) {
        var m :| Rebuild(m) in s.objects && m > lsn;
        assert Rebuild(m) in s'.objects;
      }
    }
  }

  lemma StartedCycleOk(s: Lake, cut: int, fold: Fold)
    requires Inv(s) && Cycle(Raw(s.files), s.objects, cut, Some(fold))
    ensures CycleOk(s, fold)
  {
    var raw := Raw(s.files);
    if FoldsFromScratch(raw, s.objects, cut, fold) {
      assert Faithful(raw, fold.key, fold.rows);
      var r :| r in UpTo(raw, cut) && r.lsn == fold.key.maxLsn;
      assert r in raw;
    } else {
      var base, lsn :| FoldsOnto(raw, s.objects, base, cut, fold, lsn);
      var r :| r in Between(raw, base.cut, cut) && r.lsn == lsn;
      assert r in raw;
      LatestPerKeyIsWindow(s.objects[base].rows, Between(raw, base.cut, cut), fold.rows);
      if s.purging.None? {
        assert SnapshotOk(s, base, s.objects[base].rows);
        FoldIsFaithful(raw, s.objects, base, cut, fold, lsn);
      }
    }
  }

  lemma NextKeeps(s: Lake, s': Lake)
    requires Inv(s) && Next(s, s')
    ensures Inv(s')
  {
    if name, rows :| Append(s, s', name, rows) {
      AppendKeeps(s, s', name, rows);
    } else if Compact(s, s') {
      CompactKeeps(s, s');
    } else if cut :| StartCycle(s, s', cut) {
      StartCycleKeeps(s, s', cut);
    } else if Ended(s, s') {
      var copy :| EndCycle(s, s', copy);
      EndCycleKeeps(s, s', copy);
    } else if marker :| StartPurge(s, s', marker) {
      StartPurgeKeeps(s, s', marker);
    } else if PurgePage(s, s') {
      PurgePageKeeps(s, s');
    } else if PlaceMarker(s, s') {
      PlaceMarkerKeeps(s, s');
    } else if Unregister(s, s') {
      DeleteCollectionKeepsIff(s, s');
    } else {
      DisturbKeeps(s, s');
    }
  }

  lemma {:induction false} RunKeepsInv(run: seq<Lake>, i: nat)
    requires IsRun(run) && i < |run|
    ensures Inv(run[i])
  {
    if i == 0 {
      RawEmpty();
    } else {
      RunKeepsInv(run, i - 1);
      NextKeeps(run[i - 1], run[i]);
    }
  }

  // ---------------------------------------------------------------- main results

  /** Storage in which every snapshot that can be listed is faithful to the raw rows. */
  ghost predicate Sound(files: Files, objects: Objects) {
    forall k :: Listed(objects, k) && objects[k].Whole? ==> Faithful(Raw(files), k, objects[k].rows)
  }

  /** In every run, whatever was listed, read as a base or left behind by an interrupted cycle:
      outside a purge each listed snapshot is faithful. */
  lemma RunIsSound(run: seq<Lake>, i: nat)
    requires IsRun(run) && i < |run| && run[i].purging.None?
    ensures Sound(run[i].files, run[i].objects)
  {
    RunKeepsInv(run, i);
    InvIsSound(run[i]);
  }

  lemma InvIsSound(s: Lake)
    requires Inv(s) && s.purging.None?
    ensures Sound(s.files, s.objects)
  {
    forall k | Listed(s.objects, k) && s.objects[k].Whole?
      ensures Faithful(Raw(s.files), k, s.objects[k].rows)
    {
      assert SnapshotOk(s, k, s.objects[k].rows);
    }
  }

  /** A listed snapshot on its columns: only raw rows flushed at or before its cut, in milliseconds, and
      for each of these its key once, by a row with the highest version; its number is the highest LSN. */
  lemma SnapshotHolds(run: seq<Lake>, i: nat, k: Key, f: string, r: Row) returns (m: nat)
    requires IsRun(run) && i < |run| && run[i].purging.None? && Listed(run[i].objects, k) && run[i].objects[k].Whole?
    requires f in run[i].files && r in run[i].files[f] && r.ts * 1000.0 <= k.cut as real
    ensures forall q :: q in run[i].objects[k].rows ==>
      q.ts * 1000.0 <= k.cut as real && q.lsn <= k.maxLsn && exists g :: g in run[i].files && q in run[i].files[g]
    ensures m < |run[i].objects[k].rows| && run[i].objects[k].rows[m].pk == r.pk
    ensures forall j :: 0 <= j < |run[i].objects[k].rows| && run[i].objects[k].rows[j].pk == r.pk ==> j == m
    ensures r.lsn <= run[i].objects[k].rows[m].lsn <= k.maxLsn
  {
    RunIsSound(run, i);
    var raw, rows := Raw(run[i].files), run[i].objects[k].rows;
    assert Faithful(raw, k, rows) && r in UpTo(raw, k.cut);
    m := WindowHolds(UpTo(raw, k.cut), rows, r);
    forall q | q in rows
      ensures q in UpTo(raw, k.cut)
    {
      var j :| 0 <= j < |rows| && rows[j] == q;
      assert IsNewest(rows[j], UpTo(raw, k.cut));
    }
  }

  /** Any listed snapshot, not only the latest, gives a reduction of all raw rows. */
  lemma ReaderSeesNewest(files: Files, objects: Objects, choice: Option<Key>, out: seq<Row>)
    requires Sound(files, objects)
    requires choice.Some? ==> Listed(objects, choice.value)
    requires ReaderView(Raw(files), objects, choice, out)
    ensures IsWindow(Raw(files), out)
  {
    var raw := Raw(files);
    if choice.Some? {
      ThroughSnapshot(raw, choice.value, objects[choice.value].rows, out);
    }
  }

  /** The lake is half emptied. */
  predicate HalfPurged(s: Lake) {
    s.purging.Some? && s.files != map[]
  }

  /** In every state of every run, purges included, a reader is served a reduction of all raw rows,
      whatever snapshot it falls back to; only in a half emptied lake it must read the files. */
  lemma RunServesNewest(run: seq<Lake>, i: nat, choice: Option<Key>, out: seq<Row>)
    requires IsRun(run) && i < |run| && (HalfPurged(run[i]) ==> choice.None?)
    requires choice.Some? ==> Listed(run[i].objects, choice.value)
    requires Served(run[i].files, run[i].objects, choice, out)
    ensures IsWindow(Raw(run[i].files), out)
  {
    RunKeepsInv(run, i);
    InvServesNewest(run[i], choice, out);
  }

  lemma InvServesNewest(s: Lake, choice: Option<Key>, out: seq<Row>)
    requires Inv(s) && (HalfPurged(s) ==> choice.None?) && (choice.Some? ==> Listed(s.objects, choice.value))
    requires Served(s.files, s.objects, choice, out)
    ensures IsWindow(Raw(s.files), out)
  {
    if s.files == map[] {
      RawEmpty();
    } else if choice.Some? {
      InvIsSound(s);
      ReaderSeesNewest(s.files, s.objects, choice, out);
    }
  }

  /** What a reader is served, on its columns: for each row of a raw file its key once, by a row with the
      highest `_lsn` and, at an equal one, the highest `_seq`; and nothing that is in no raw file. */
  lemma ReaderGetsHighest(run: seq<Lake>, i: nat, choice: Option<Key>, out: seq<Row>, f: string, r: Row)
    returns (m: nat)
    requires IsRun(run) && i < |run| && (HalfPurged(run[i]) ==> choice.None?)
    requires choice.Some? ==> Listed(run[i].objects, choice.value)
    requires Served(run[i].files, run[i].objects, choice, out)
    requires f in run[i].files && r in run[i].files[f]
    ensures m < |out| && out[m].pk == r.pk && forall j :: 0 <= j < |out| && out[j].pk == r.pk ==> j == m
    ensures r.lsn <= out[m].lsn
    ensures r.lsn == out[m].lsn ==>
      (if r.seqNo.Some? then r.seqNo.value else -1) <= (if out[m].seqNo.Some? then out[m].seqNo.value else -1)
    ensures forall q :: q in out ==> exists g :: g in run[i].files && q in run[i].files[g]
  {
    RunServesNewest(run, i, choice, out);
    var raw := Raw(run[i].files);
    assert r in raw;
    m := WindowHolds(raw, out, r);
    forall q | q in out
      ensures q in raw
    {
      var j :| 0 <= j < |out| && out[j] == q;
      assert IsNewest(out[j], raw);
    }
  }

  /** Falling back to an older snapshot, or to the raw files, serves the same rows: the newest
      version of every key whose newest version is not a deletion. */
  lemma EveryFallbackServesTheSame(run: seq<Lake>, i: nat, choice: Option<Key>, out: seq<Row>, direct: seq<Row>)
    requires IsRun(run) && i < |run| && !HalfPurged(run[i])
    requires VersionsIdentify(Raw(run[i].files))
    requires choice.Some? ==> Listed(run[i].objects, choice.value)
    requires Served(run[i].files, run[i].objects, choice, out)
    requires Served(run[i].files, run[i].objects, None, direct)
    ensures multiset(Live(out)) == multiset(Live(direct))
    ensures forall r :: r in Live(out) <==> IsNewest(r, Raw(run[i].files)) && r.op != Delete
  {
    RunServesNewest(run, i, choice, out);
    RunServesNewest(run, i, None, direct);
    WindowUnique(Raw(run[i].files), out, direct);
    forall r
      ensures r in Live(out) <==> IsNewest(r, Raw(run[i].files)) && r.op != Delete
    {
      LiveMeansNewestNotDeleted(Raw(run[i].files), out, r);
    }
  }

  /** A deleted key never comes back from an older version. */
  lemma DeletedStaysDeleted(run: seq<Lake>, i: nat, choice: Option<Key>, out: seq<Row>, tombstone: Row)
    requires IsRun(run) && i < |run| && !HalfPurged(run[i])
    requires VersionsIdentify(Raw(run[i].files))
    requires choice.Some? ==> Listed(run[i].objects, choice.value)
    requires Served(run[i].files, run[i].objects, choice, out)
    requires IsNewest(tombstone, Raw(run[i].files)) && tombstone.op == Delete
    ensures !HasKey(Live(out), tombstone.pk)
  {
    RunServesNewest(run, i, choice, out);
    var raw, live := Raw(run[i].files), Live(out);
    forall j | 0 <= j < |live|
      ensures live[j].pk != tombstone.pk
    {
      assert live[j] in live;
      LiveMeansNewestNotDeleted(raw, out, live[j]);
      if live[j].pk == tombstone.pk { NewestIsOne(raw, live[j], tombstone); }
    }
  }

  lemma NewestIsOne(raw: set<Row>, a: Row, b: Row)
    requires VersionsIdentify(raw) && IsNewest(a, raw) && IsNewest(b, raw) && a.pk == b.pk
    ensures a == b
  {
  }

  /** What `LakeStorage.WriteSnapshot` promises is a cycle started and ended in one go. */
  lemma WriteSnapshotIsACycle(s: Lake, cut: int, fold: Option<Fold>, kept: Objects, copy: CopyOutcome)
    returns (started: Lake, ended: Lake)
    requires s.cycle.None? && Cleaned(s.objects, kept) && Cycle(Raw(s.files), s.objects, cut, fold)
    ensures Next(s, started)
    ensures fold.None? ==> ended == started && ended.objects == kept
    ensures fold.Some? ==> Next(started, ended) && ended.objects == Published(kept, fold.value, copy)
    ensures ended.cycle.None? && ended.files == s.files
  {
    started := s.(cycle := fold, objects := kept);
    assert StartCycle(s, started, cut);
    ended := started;
    if fold.Some? {
      ended := started.(cycle := None, objects := Published(kept, fold.value, copy));
      assert EndCycle(started, ended, copy);
    }
  }

  // ---------------------------------------------------------------- the hypotheses matter

  /** Rows that break the grace margin are ignored by a reader of the snapshot; the view stays right
      if and only if each of them was no news: an earlier raw row of its key is not older. */
  lemma LateRows(raw: set<Row>, key: Key, snap: seq<Row>, out: seq<Row>, late: set<Row>)
    requires Faithful(raw, key, snap)
    requires forall l :: l in late ==> l.ts <= CutSeconds(key.cut)
    requires IsLatestPerKey(snap, Above(raw + late, key.cut), out)
    ensures IsWindow(raw + late, out) <==> forall l :: l in late ==> NoNews(raw, l)
  {
    assert Above(raw + late, key.cut) == Above(raw, key.cut);
    ThroughSnapshot(raw, key, snap, out);
    WindowOfMore(raw, out, late);
  }

  /** A row of the same key is at least as new. */
  ghost predicate NoNews(raw: set<Row>, late: Row) {
    exists r :: r in raw && r.pk == late.pk && !Newer(late, r)
  }

  lemma WindowOfMore(raw: set<Row>, out: seq<Row>, late: set<Row>)
    requires IsWindow(raw, out)
    ensures IsWindow(raw + late, out) <==> forall l :: l in late ==> NoNews(raw, l)
  {
    if IsWindow(raw + late, out) {
      forall l | l in late
        ensures NoNews(raw, l)
      {
        var i := WindowHasNewest(raw + late, out, l);
        assert IsNewest(out[i], raw);
      }
    }
    if forall l :: l in late ==> NoNews(raw, l) {
      forall i | 0 <= i < |out|
        ensures IsNewest(out[i], raw + late)
      {
        assert IsNewest(out[i], raw);
        forall l | l in late && l.pk == out[i].pk
          ensures !Newer(l, out[i])
        {
          assert NoNews(raw, l);
        }
      }
      forall l | l in late
        ensures HasKey(out, l.pk)
      {
        assert NoNews(raw, l);
        var r :| r in raw && r.pk == l.pk && !Newer(l, r);
        assert HasKey(out, r.pk);
      }
    }
  }

  /** Reading through a faithful snapshot reduces all raw rows. */
  lemma ThroughSnapshot(raw: set<Row>, key: Key, snap: seq<Row>, out: seq<Row>)
    requires Faithful(raw, key, snap)
    requires IsLatestPerKey(snap, Above(raw, key.cut), out)
    ensures IsWindow(raw, out)
  {
    LatestPerKeyIsWindow(snap, Above(raw, key.cut), out);
    WindowOfWindow(UpTo(raw, key.cut), Above(raw, key.cut), snap, out);
    assert UpTo(raw, key.cut) + Above(raw, key.cut) == raw;
  }

  /** A raw row above the cut beats this one. */
  ghost predicate Beaten(left: set<Row>, cut: int, r: Row) {
    exists t :: t in Above(left, cut) && t.pk == r.pk && Newer(t, r)
  }

  /** No row of the snapshot outlives its raw file, unless a newer one above the cut hides it. */
  ghost predicate NothingStale(left: set<Row>, cut: int, snap: seq<Row>) {
    forall r :: r in snap ==> r in left || Beaten(left, cut, r)
  }

  /** No raw row up to the cut is newer than what the snapshot and the rows above it hold. */
  ghost predicate NothingMissing(left: set<Row>, cut: int, snap: seq<Row>) {
    forall l :: l in UpTo(left, cut) ==> NoNews(Rows(snap) + Above(left, cut), l)
  }

  /** In every state of every run, half emptied or not, reading through a complete snapshot is right
      if and only if it holds nothing stale and misses nothing: two conditions on what is stored. */
  lemma ReadIsRightIff(run: seq<Lake>, i: nat, k: Key, out: seq<Row>)
    requires IsRun(run) && i < |run| && run[i].files != map[]
    requires Served(run[i].files, run[i].objects, Some(k), out)
    requires VersionsIdentify(Rows(run[i].objects[k].rows) + Raw(run[i].files))
    ensures IsWindow(Raw(run[i].files), out) <==>
      NothingStale(Raw(run[i].files), k.cut, run[i].objects[k].rows) &&
      NothingMissing(Raw(run[i].files), k.cut, run[i].objects[k].rows)
  {
    RunKeepsInv(run, i);
    var left, snap := Raw(run[i].files), run[i].objects[k].rows;
    LatestPerKeyIsWindow(snap, Above(left, k.cut), out);
    if IsWindow(left, out) {
      RightMeansFitting(left, k.cut, snap, out);
    }
    if NothingStale(left, k.cut, snap) && NothingMissing(left, k.cut, snap) {
      FittingMeansRight(left, k.cut, snap, out);
    }
  }

  lemma RightMeansFitting(left: set<Row>, cut: int, snap: seq<Row>, out: seq<Row>)
    requires OnePerKey(snap) && VersionsIdentify(Rows(snap) + left)
    requires IsWindow(Rows(snap) + Above(left, cut), out) && IsWindow(left, out)
    ensures NothingStale(left, cut, snap) && NothingMissing(left, cut, snap)
  {
    var seen := Rows(snap) + Above(left, cut);
    forall r | r in snap && r !in left
      ensures Beaten(left, cut, r)
    {
      var i := WindowHasNewest(seen, out, r);
      assert IsNewest(out[i], left);
      if out[i] in snap { SameKeySameRow(snap, out[i], r); }
      assert out[i] in Above(left, cut);
    }
    forall l | l in UpTo(left, cut)
      ensures NoNews(seen, l)
    {
      var i := WindowHasNewest(left, out, l);
      assert IsNewest(out[i], seen);
    }
  }

  lemma SameKeySameRow(snap: seq<Row>, a: Row, b: Row)
    requires OnePerKey(snap) && a in snap && b in snap && a.pk == b.pk
    ensures a == b
  {
    var i :| 0 <= i < |snap| && snap[i] == a;
    var j :| 0 <= j < |snap| && snap[j] == b;
  }

  lemma FittingMeansRight(left: set<Row>, cut: int, snap: seq<Row>, out: seq<Row>)
    requires IsWindow(Rows(snap) + Above(left, cut), out)
    requires NothingStale(left, cut, snap) && NothingMissing(left, cut, snap)
    ensures IsWindow(left, out)
  {
    var seen := Rows(snap) + Above(left, cut);
    forall i | 0 <= i < |out|
      ensures IsNewest(out[i], left)
    {
      assert IsNewest(out[i], seen);
      assert out[i] in left || !Beaten(left, cut, out[i]);
      NothingOlder(left, cut, snap, out, i);
    }
    forall s | s in left
      ensures HasKey(out, s.pk)
    {
      var m := Matched(left, cut, snap, s);
      assert HasKey(out, m.pk);
    }
  }

  /** A row of the same key, at least as new, among what is read. */
  lemma Matched(left: set<Row>, cut: int, snap: seq<Row>, s: Row) returns (m: Row)
    requires NothingMissing(left, cut, snap) && s in left
    ensures m in Rows(snap) + Above(left, cut) && m.pk == s.pk && !Newer(s, m)
  {
    if s.ts <= CutSeconds(cut) {
      assert NoNews(Rows(snap) + Above(left, cut), s);
      m :| m in Rows(snap) + Above(left, cut) && m.pk == s.pk && !Newer(s, m);
    } else {
      m := s;
    }
  }

  lemma NothingOlder(left: set<Row>, cut: int, snap: seq<Row>, out: seq<Row>, i: nat)
    requires IsWindow(Rows(snap) + Above(left, cut), out) && NothingMissing(left, cut, snap) && i < |out|
    ensures forall s :: s in left && s.pk == out[i].pk ==> !Newer(s, out[i])
  {
    assert IsNewest(out[i], Rows(snap) + Above(left, cut));
    forall s | s in left && s.pk == out[i].pk
      ensures !Newer(s, out[i])
    {
      var m := Matched(left, cut, snap, s);
    }
  }

  /** The snapshot was listed in state `i`, before the purge, and still holds its rows in state `j`, when
      raw files may be gone. */
  ghost predicate FromBefore(run: seq<Lake>, i: nat, j: nat, k: Key)
    requires i < |run| && j < |run|
  {
    && run[i].purging.None? && Listed(run[i].objects, k) && run[i].objects[k].Whole?
    && k in run[j].objects && run[j].objects[k].Whole? && run[j].objects[k].rows == run[i].objects[k].rows
    && Raw(run[j].files) <= Raw(run[i].files)
  }

  lemma FromBeforeMisses(run: seq<Lake>, i: nat, j: nat, k: Key)
    requires IsRun(run) && i < |run| && j < |run| && FromBefore(run, i, j, k)
    ensures NothingMissing(Raw(run[j].files), k.cut, run[j].objects[k].rows)
    ensures Rows(run[j].objects[k].rows) <= Raw(run[i].files)
  {
    RunIsSound(run, i);
    var raw, left, snap := Raw(run[i].files), Raw(run[j].files), run[j].objects[k].rows;
    assert Faithful(raw, k, snap);
    forall l | l in UpTo(left, k.cut)
      ensures NoNews(Rows(snap) + Above(left, k.cut), l)
    {
      var m := WindowHasNewest(UpTo(raw, k.cut), snap, l);
      assert snap[m] in Rows(snap);
    }
    forall r | r in Rows(snap)
      ensures r in raw
    {
      var m :| 0 <= m < |snap| && snap[m] == r;
      assert IsNewest(snap[m], UpTo(raw, k.cut));
    }
  }

  /** Through a snapshot from before the purge, reading is right if and only if every row of the snapshot
      is still in a raw file, or is beaten by a raw row of its key above the cut. */
  lemma HalfPurgedIff(run: seq<Lake>, i: nat, j: nat, k: Key, out: seq<Row>)
    requires IsRun(run) && i < |run| && j < |run| && FromBefore(run, i, j, k) && run[j].files != map[]
    requires VersionsIdentify(Raw(run[i].files)) && Served(run[j].files, run[j].objects, Some(k), out)
    ensures IsWindow(Raw(run[j].files), out) <==> NothingStale(Raw(run[j].files), k.cut, run[j].objects[k].rows)
  {
    FromBeforeMisses(run, i, j, k);
    ReadIsRightIff(run, j, k, out);
  }

  /** Through such a snapshot nothing older than a row still in a raw file is ever served for its key, and
      a key deleted before the purge stays deleted while its tombstone is there. */
  lemma HalfPurgedServesNoOlder(run: seq<Lake>, i: nat, j: nat, k: Key, out: seq<Row>, t: Row)
    requires IsRun(run) && i < |run| && j < |run| && FromBefore(run, i, j, k)
    requires Served(run[j].files, run[j].objects, Some(k), out) && t in Raw(run[j].files)
    ensures forall r :: r in out && r.pk == t.pk ==> !Newer(t, r)
    ensures VersionsIdentify(Raw(run[i].files)) && IsNewest(t, Raw(run[i].files)) && t.op == Delete ==>
      !HasKey(Live(out), t.pk)
  {
    FromBeforeMisses(run, i, j, k);
    RunKeepsInv(run, j);
    var raw, left, snap := Raw(run[i].files), Raw(run[j].files), run[j].objects[k].rows;
    LatestPerKeyIsWindow(snap, Above(left, k.cut), out);
    forall r | r in out && r.pk == t.pk
      ensures !Newer(t, r) && r in raw
    {
      var m :| 0 <= m < |out| && out[m] == r;
      NothingOlder(left, k.cut, snap, out, m);
      assert IsNewest(out[m], Rows(snap) + Above(left, k.cut));
    }
    if VersionsIdentify(raw) && IsNewest(t, raw) && t.op == Delete {
      var live := Live(out);
      forall m | 0 <= m < |live|
        ensures live[m].pk != t.pk
      {
        assert live[m] in live;
      }
    }
  }

  /** And it may be wrong: the file of `r` is gone, that of `q` is not, and a reader is still served
      `r` from the snapshot. */
  lemma HalfPurgedServesStale(r: Row, q: Row, cut: int, wal: int, marker: int) returns (run: seq<Lake>, k: Key)
    requires cut >= 0 && r.ts <= CutSeconds(cut) < q.ts && r.pk != q.pk
    requires 0 <= r.lsn <= wal && q.lsn <= wal < marker
    ensures IsRun(run) && |run| == 7
    ensures run[6].files == map["g" := {q}] && run[6].purging == Some(marker) && IsLatest(run[6].objects, k)
    ensures Served(run[6].files, run[6].objects, Some(k), [r, q]) && r !in Raw(run[6].files)
  {
    k := Snapshot(cut, r.lsn);
    var s0 := Lake(map[], map[], None, None, wal);
    var s1 := s0.(files := map["f" := {r}]);
    var s2 := s1.(files := map["f" := {r}, "g" := {q}]);
    var s3 := s2.(cycle := Some(Fold(k, [r])));
    var s4 := s3.(cycle := None, objects := map[k := Whole([r], true)]);
    var s5 := s4.(purging := Some(marker), wal := marker);
    var s6 := s5.(files := map["g" := {q}]);
    run := [s0, s1, s2, s3, s4, s5, s6];
    FirstFile(s0, s1, r);
    SecondFile(s1, s2, r, q);
    assert UpTo({r, q}, cut) == {r};
    FirstFold(s2, s3, r, cut);
    assert map[][k := Whole([r], true)] == s4.objects;
    assert EndCycle(s3, s4, CopyOk) && Ended(s3, s4) && StartPurge(s4, s5, marker) && PurgePage(s5, s6);
    SixNexts(run);
    StaleView(s6.files, s6.objects, k, r, q);
  }

  lemma FirstFile(s0: Lake, s1: Lake, r: Row)
    requires s0 == Lake(map[], map[], None, None, s0.wal) && s1 == s0.(files := map["f" := {r}]) && r.lsn <= s0.wal
    ensures Append(s0, s1, "f", {r}) && Raw(s1.files) == {r}
  {
    OneFile("f", r);
    assert map[]["f" := {r}] == map["f" := {r}];
  }

  /** A collection gets its first file and is purged, marker included. */
  lemma FilledAndPurged(r: Row, marker: int) returns (run: seq<Lake>)
    requires r.lsn < marker
    ensures IsRun(run) && |run| == 5 && run[0].files == map[] && run[1].files == map["f" := {r}]
    ensures run[2].files == run[1].files && run[3].files == map[] && run[4].files == map[] && run[4].purging.None?
  {
    var s0 := Lake(map[], map[], None, None, r.lsn);
    var s1 := s0.(files := map["f" := {r}]);
    var s2 := s1.(purging := Some(marker), wal := marker);
    var s3 := Lake(map[], map[], None, Some(marker), marker);
    var s4 := Lake(map[], map[Rebuild(marker) := Partial], None, None, marker);
    run := [s0, s1, s2, s3, s4];
    FirstFile(s0, s1, r);
    assert StartPurge(s1, s2, marker) && PurgePage(s2, s3) && PlaceMarker(s3, s4);
    assert s4.objects == s3.objects[Rebuild(marker) := Partial];
    forall i | 0 <= i < |run| - 1
      ensures Next(run[i], run[i + 1])
    {
      assert i == 0 || i == 1 || i == 2 || i == 3;
    }
  }

  lemma SecondFile(s: Lake, s': Lake, r: Row, q: Row)
    requires s.files == map["f" := {r}] && s.objects == map[] && s.cycle.None? && s.purging.None? && q.lsn <= s.wal
    requires s' == s.(files := map["f" := {r}, "g" := {q}])
    ensures Append(s, s', "g", {q}) && Raw(s'.files) == {r, q}
  {
    OneFile("f", r);
    RawAdded(s.files, "g", {q});
    assert s.files["g" := {q}] == s'.files;
  }

  lemma FirstFold(s: Lake, s': Lake, r: Row, cut: int)
    requires UpTo(Raw(s.files), cut) == {r} && s.objects == map[] && s.cycle.None?
    requires s' == s.(cycle := Some(Fold(Snapshot(cut, r.lsn), [r])))
    ensures StartCycle(s, s', cut)
  {
    assert HasKey([r], r.pk) by { assert [r][0].pk == r.pk; }
    assert IsWindow({r}, [r]);
    assert FoldsFromScratch(Raw(s.files), s.objects, cut, Fold(Snapshot(cut, r.lsn), [r]));
  }

  lemma SixNexts(run: seq<Lake>)
    requires |run| == 7 && Init(run[0])
    requires Next(run[0], run[1]) && Next(run[1], run[2]) && Next(run[2], run[3]) && Next(run[3], run[4])
    requires Next(run[4], run[5]) && Next(run[5], run[6])
    ensures IsRun(run)
  {
    forall i | 0 <= i < |run| - 1
      ensures Next(run[i], run[i + 1])
    {
      assert i == 0 || i == 1 || i == 2 || i == 3 || i == 4 || i == 5;
    }
  }

  lemma StaleView(files: Files, objects: Objects, k: Key, r: Row, q: Row)
    requires k.Snapshot? && k.cut >= 0 && k.maxLsn >= 0 && objects == map[k := Whole([r], true)]
    requires files == map["g" := {q}] && q.ts > CutSeconds(k.cut) && r.pk != q.pk
    ensures IsLatest(objects, k) && Raw(files) == {q}
    ensures Served(files, objects, Some(k), [r, q])
  {
    OneFile("g", q);
    LoneSnapshot(objects, k, [r]);
    assert Above({q}, k.cut) == {q};
    OldAndNew(r, q);
  }

  lemma OneFile(name: string, r: Row)
    ensures Raw(map[name := {r}]) == {r}
  {
    RawEmpty();
    RawAdded(map[], name, {r});
    assert map[][name := {r}] == map[name := {r}];
  }

  lemma LoneSnapshot(objects: Objects, k: Key, rows: seq<Row>)
    requires k.Snapshot? && k.cut >= 0 && k.maxLsn >= 0 && objects == map[k := Whole(rows, true)]
    ensures IsLatest(objects, k)
  {
  }

  lemma OldAndNew(r: Row, q: Row)
    requires r.pk != q.pk
    ensures IsLatestPerKey([r], {q}, [r, q])
  {
    var keys := Keys({q});
    assert keys == {q.pk};
    assert [r][..0] == [] && AntiJoin([r], keys) == [r] && SemiJoin([r], keys) == [];
    assert Rows([]) + {q} == {q};
    assert HasKey([q], q.pk) by { assert [q][0].pk == q.pk; }
    assert IsWindow({q}, [q]);
    assert IsTouchedWindow([r], {q}, [q]);
    assert [r] + [q] == [r, q];
  }

  /** When a collection is deleted with a cycle in flight, which is no step of a run, the fold may be
      published into the collection registered again under the same name, and its rows are served. */
  lemma DeletedCollectionComesBack(r: Row, q: Row, cut: int, wal: int) returns (run: seq<Lake>, k: Key)
    requires cut >= 0 && r.ts <= CutSeconds(cut) < q.ts && r.pk != q.pk && 0 <= r.lsn <= wal && q.lsn <= wal
    ensures |run| == 6 && Init(run[0]) && DeleteCollection(run[2], run[3])
    ensures Next(run[0], run[1]) && Next(run[1], run[2]) && Next(run[3], run[4]) && Next(run[4], run[5])
    ensures run[5].purging.None? && run[5].files == map["g" := {q}] && IsLatest(run[5].objects, k)
    ensures Served(run[5].files, run[5].objects, Some(k), [r, q]) && r !in Raw(run[5].files)
  {
    k := Snapshot(cut, r.lsn);
    var s0 := Lake(map[], map[], None, None, wal);
    var s1 := s0.(files := map["f" := {r}]);
    var s2 := s1.(cycle := Some(Fold(k, [r])));
    var s3 := s2.(files := map[]);
    var s4 := s3.(files := map["g" := {q}]);
    var s5 := s4.(cycle := None, objects := map[k := Whole([r], true)]);
    run := [s0, s1, s2, s3, s4, s5];
    FirstFile(s0, s1, r);
    assert UpTo({r}, cut) == {r};
    FirstFold(s1, s2, r, cut);
    NewFile(s3, s4, q);
    assert map[][k := Whole([r], true)] == s5.objects;
    assert EndCycle(s4, s5, CopyOk) && Ended(s4, s5);
    StaleView(s5.files, s5.objects, k, r, q);
  }

  lemma NewFile(s: Lake, s': Lake, q: Row)
    requires s.files == map[] && s.objects == map[] && s.purging.None? && q.lsn <= s.wal
    requires forall key :: Current(s, key) ==> q.ts > CutSeconds(key.cut)
    requires s' == s.(files := map["g" := {q}])
    ensures Append(s, s', "g", {q})
  {
    assert map[]["g" := {q}] == s'.files;
  }

  /** The marker hides a fold of the purged rows exactly when its LSN is strictly above theirs. */
  lemma MarkerHidesStaleFold(s: Lake, placed: Lake, shown: Lake, marker: int, fold: Fold)
    requires s.purging.None? && s.cycle == Some(fold)
    requires fold.key.Snapshot? && fold.key.cut >= 0 && fold.key.maxLsn >= 0
    requires placed == s.(files := map[], objects := map[Rebuild(marker) := Partial])
    requires EndCycle(placed, shown, CopyOk)
    ensures Listed(shown.objects, fold.key) <==> fold.key.maxLsn >= marker
  {
    assert Rebuild(marker) in shown.objects;
    assert forall m :: Rebuild(m) in shown.objects ==> m == marker;
  }
}
